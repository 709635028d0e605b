/** Direction-optimising breadth-first search: top-down steps over a queue and bottom-up steps over bitmaps. */
module DirectionBfs {
  import opened Graphs

  /** A queue whose appends are not seen until the window slides; `input` counts all appends since the start. */
  class SlidingQueue {
    const shared: array<nat>
    var input: nat
    var start: nat
    var end: nat

    ghost predicate Valid()
      reads this
    {
      start <= end <= input <= shared.Length
    }

    constructor (size: nat)
      ensures Valid() && fresh(shared) && shared.Length == size && input == start == end == 0
    {
      shared := new nat[size];
      input, start, end := 0, 0, 0;
    }

    method Reset()
      modifies this
      ensures Valid() && input == start == end == 0
    {
      start, end, input := 0, 0, 0;
    }

    method PushBack(x: nat)
      requires Valid() && input < shared.Length
      modifies this`input, shared
      ensures Valid() && input == old(input) + 1 && shared[..input] == old(shared[..input]) + [x]
    {
      shared[input] := x;
      input := input + 1;
    }

    /** A flushed thread buffer: reserves a block of the queue and copies into it. */
    method Flush(items: seq<nat>)
      requires Valid() && input + |items| <= shared.Length
      modifies this`input, shared
      ensures Valid() && input == old(input) + |items| && shared[..input] == old(shared[..input]) + items
    {
      var copyStart := input;
      input := input + |items|;
      for k := 0 to |items|
        invariant input == copyStart + |items| && shared[..copyStart] == old(shared[..input])
        invariant shared[copyStart..copyStart + k] == items[..k]
      {
        shared[copyStart + k] := items[k];
      }
      assert items[..|items|] == items;
      assert shared[..input] == shared[..copyStart] + shared[copyStart..input];
    }

    method SlideWindow()
      requires Valid()
      modifies this`start, this`end
      ensures Valid() && start == old(end) && end == input
    {
      start := end;
      end := input;
    }
  }

  ghost predicate Distinct(s: seq<nat>) {
    forall i, j :: 0 <= i < j < |s| ==> s[i] != s[j]
  }

  ghost predicate Lists(s: seq<nat>, members: set<nat>) {
    forall v: nat :: v in s <==> v in members
  }

  /** What an unvisited vertex's entry stands for: its out-degree, but at least one. */
  function Scout(g: Graph, v: nat): (n: int)
    ensures n > 0
  {
    if v < |g.out| && |g.out[v]| != 0 then |g.out[v]| else 1
  }

  ghost predicate Encoded(g: Graph, parent: seq<int>) {
    forall v :: 0 <= v < |parent| && parent[v] < 0 ==> parent[v] == -Scout(g, v)
  }

  ghost function ScoutSum(g: Graph, s: seq<nat>): int {
    if s == [] then 0 else ScoutSum(g, s[..|s| - 1]) + Scout(g, s[|s| - 1])
  }

  lemma ScoutAppend(g: Graph, s: seq<nat>, v: nat)
    ensures ScoutSum(g, s + [v]) == ScoutSum(g, s) + Scout(g, v)
  {
    assert (s + [v])[..|s|] == s;
  }

  lemma {:induction false} ScoutConcat(g: Graph, a: seq<nat>, b: seq<nat>)
    ensures ScoutSum(g, a + b) == ScoutSum(g, a) + ScoutSum(g, b)
  {
    if b == [] {
      assert a + b == a;
    } else {
      var m := |b| - 1;
      ScoutConcat(g, a, b[..m]);
      assert (a + b)[..|a| + m] == a + b[..m];
    }
  }

  /** The order of the vertices does not matter. */
  lemma {:induction false} ScoutRearranged(g: Graph, a: seq<nat>, b: seq<nat>)
    requires Rearranges(a, b)
    ensures ScoutSum(g, a) == ScoutSum(g, b)
  {
    if a == [] {
      assert |multiset(b)| == 0;
    } else {
      hide ScoutSum;
      var m := |a| - 1;
      var k := Removed(a, b);
      var left, right := b[..k], b[k + 1..];
      assert a == a[..m] + [a[m]] && b == left + [b[k]] + right;
      ScoutRearranged(g, a[..m], left + right);
      ScoutAppend(g, a[..m], a[m]);
      ScoutAppend(g, left, b[k]);
      ScoutConcat(g, left + [b[k]], right);
      ScoutConcat(g, left, right);
    }
  }

  lemma Removed(a: seq<nat>, b: seq<nat>) returns (k: nat)
    requires Rearranges(a, b) && a != []
    ensures k < |b| && b[k] == a[|a| - 1] && Rearranges(a[..|a| - 1], b[..k] + b[k + 1..])
  {
    var m := |a| - 1;
    assert a == a[..m] + [a[m]];
    assert a[m] in multiset(a);
    k :| 0 <= k < |b| && b[k] == a[m];
    assert b == b[..k] + [b[k]] + b[k + 1..];
    assert multiset(a[..m]) == multiset(a) - multiset{a[m]};
    assert multiset(b[..k] + b[k + 1..]) == multiset(b) - multiset{b[k]};
  }

  /** Every vertex within d has its tree parent, and some of those one edge further may have theirs already. */
  ghost predicate TreePart(g: Graph, source: nat, parent: seq<int>, d: nat) {
    && g.Ok() && source < |g.out| == |parent| && parent[source] == source
    && (forall v :: 0 <= v < |parent| && v in Within(g, source, d) ==> parent[v] >= 0)
    && (forall v :: 0 <= v < |parent| && parent[v] >= 0 ==> v in Within(g, source, d + 1))
    && (forall v :: 0 <= v < |parent| && parent[v] >= 0 && v != source ==> TreeEdge(g, source, parent[v], v))
    && Encoded(g, parent)
  }

  /** Exactly the vertices within d have parents. */
  ghost predicate Tree(g: Graph, source: nat, parent: seq<int>, d: nat) {
    TreePart(g, source, parent, d)
    && forall v :: 0 <= v < |parent| && parent[v] >= 0 ==> v in Within(g, source, d)
  }

  lemma ClaimKeeps(g: Graph, source: nat, parent: seq<int>, d: nat, u: nat, v: nat)
    requires TreePart(g, source, parent, d) && u in Within(g, source, d) && g.Edge(u, v) && parent[v] < 0
    ensures v !in Within(g, source, d) && v in Level(g, source, d + 1)
    ensures TreePart(g, source, parent[v := u], d)
  {
    hide Within, TreeEdge, Graph.Ok;
    NewVertex(g, source, u, v, d);
    LevelMember(g, source, v, d + 1);
  }

  lemma LevelMember(g: Graph, source: nat, v: nat, d: nat)
    requires v in Level(g, source, d)
    ensures v in Within(g, source, d) && (d > 0 ==> v !in Within(g, source, d - 1))
  {
  }

  lemma StepDone(g: Graph, source: nat, parent: seq<int>, d: nat)
    requires TreePart(g, source, parent, d)
    requires forall u: nat, v: nat :: u in Level(g, source, d) && g.Edge(u, v) ==> parent[v] >= 0
    ensures Tree(g, source, parent, d + 1)
  {
    hide TreeEdge, Graph.Ok, Within, Level;
    WithinGrows(g, source, d + 1, d + 2);
    forall v | 0 <= v < |parent| && v in Within(g, source, d + 1)
      ensures parent[v] >= 0
    {
      if v !in Within(g, source, d) {
        NextLevel(g, source, v, d);
      }
    }
  }

  /** A task of the parallel top-down loop: the k-th edge of the i-th queue entry. */
  datatype Task = Task(i: nat, k: nat)

  ghost predicate ValidTasks(g: Graph, window: seq<nat>, tasks: seq<Task>) {
    forall q :: 0 <= q < |tasks| ==>
      tasks[q].i < |window| && window[tasks[q].i] < |g.out| && tasks[q].k < |g.out[window[tasks[q].i]]|
  }

  ghost predicate AllTasks(g: Graph, window: seq<nat>, tasks: seq<Task>) {
    forall i, k :: 0 <= i < |window| && window[i] < |g.out| && 0 <= k < |g.out[window[i]]| ==> Task(i, k) in tasks
  }

  /** The window holds level d; every append so far is a different vertex within d. */
  ghost predicate QueueAt(g: Graph, source: nat, q: SlidingQueue, d: nat)
    reads q, q.shared
  {
    && q.Valid() && q.shared.Length == |g.out| && q.input == q.end
    && Appended(g, source, q.shared[..q.input], d)
    && Lists(q.shared[q.start..q.end], Level(g, source, d))
  }

  ghost predicate Appended(g: Graph, source: nat, items: seq<nat>, d: nat) {
    Distinct(items) && forall i :: 0 <= i < |items| ==> items[i] in Within(g, source, d)
  }

  /** The claims so far: exactly the vertices of the next level that have a parent by now. */
  ghost predicate Claimed(g: Graph, source: nat, parent: seq<int>, d: nat, claimed: seq<nat>) {
    && Distinct(claimed)
    && forall v: nat :: v in claimed <==> v < |parent| && parent[v] >= 0 && v !in Within(g, source, d)
  }

  lemma ClaimAppends(g: Graph, source: nat, parent: seq<int>, d: nat, claimed: seq<nat>, u: nat, v: nat)
    requires TreePart(g, source, parent, d) && Claimed(g, source, parent, d, claimed)
    requires u in Within(g, source, d) && g.Edge(u, v) && parent[v] < 0
    ensures Claimed(g, source, parent[v := u], d, claimed + [v])
  {
    hide Within, TreeEdge, Graph.Ok;
    ClaimKeeps(g, source, parent, d, u, v);
    assert v !in claimed;
  }

  lemma ClaimedIsLevel(g: Graph, source: nat, parent: seq<int>, d: nat, claimed: seq<nat>)
    requires Tree(g, source, parent, d + 1) && Claimed(g, source, parent, d, claimed)
    ensures Lists(claimed, Level(g, source, d + 1))
  {
    hide TreeEdge, Graph.Ok;
    WithinInRange(g, source, d + 1);
    hide Within;
  }

  lemma AppendLevel(g: Graph, source: nat, items: seq<nat>, d: nat, e: nat, more: seq<nat>)
    requires source < |g.out| && Appended(g, source, items, d) && d < e
    requires Distinct(more) && Lists(more, Level(g, source, e))
    ensures Appended(g, source, items + more, e) && |items + more| <= |g.out|
  {
    WithinGrows(g, source, d, e - 1);
    WithinGrows(g, source, d, e);
    WithinInRange(g, source, e);
    forall i | 0 <= i < |more|
      ensures more[i] in Within(g, source, e) && more[i] !in Within(g, source, e - 1)
    {
      assert more[i] in more;
      LevelMember(g, source, more[i], e);
    }
    hide Within;
    var all := items + more;
    forall i | 0 <= i < |all|
      ensures all[i] in Within(g, source, e)
    {
    }
    Pigeonhole(all, |g.out|);
  }

  ghost predicate Rearranges(a: seq<nat>, b: seq<nat>) {
    multiset(a) == multiset(b)
  }

  lemma SameMembers(a: seq<nat>, b: seq<nat>)
    requires Rearranges(a, b) && Distinct(a)
    ensures Distinct(b) && forall v: nat :: v in a <==> v in b
  {
    forall v: nat
      ensures v in a <==> v in b
    {
      assert v in a <==> v in multiset(a);
      assert v in b <==> v in multiset(b);
    }
    forall i, j | 0 <= i < j < |b|
      ensures b[i] != b[j]
    {
      if b[i] == b[j] {
        Twice(b, i, j);
        OnceEach(a, b[i]);
      }
    }
  }

  lemma Twice(b: seq<nat>, i: nat, j: nat)
    requires i < j < |b| && b[i] == b[j]
    ensures multiset(b)[b[i]] >= 2
  {
    assert b == b[..i] + [b[i]] + b[i + 1..j] + [b[j]] + b[j + 1..];
  }

  lemma {:induction false} OnceEach(a: seq<nat>, x: nat)
    requires Distinct(a)
    ensures multiset(a)[x] <= 1
  {
    if a != [] {
      var m := |a| - 1;
      OnceEach(a[..m], x);
      assert a == a[..m] + [a[m]];
      assert a[m] !in a[..m];
    }
  }

  /** The top-down step. The tasks may run in any order, and the threads' buffers may bring the claimed vertices into
      the queue in any order. */
  method TopDown(g: Graph, ghost source: nat, parent: array<int>, queue: SlidingQueue, tasks: seq<Task>,
                 arrange: seq<nat> -> seq<nat>, ghost d: nat)
    returns (scout: int)
    requires Tree(g, source, parent[..], d) && QueueAt(g, source, queue, d)
    requires ValidTasks(g, queue.shared[queue.start..queue.end], tasks)
          && AllTasks(g, queue.shared[queue.start..queue.end], tasks)
    requires forall s :: Rearranges(s, arrange(s))
    modifies parent, queue`input, queue.shared
    ensures Tree(g, source, parent[..], d + 1)
    ensures queue.Valid() && Appended(g, source, queue.shared[..queue.input], d + 1)
    ensures Lists(queue.shared[queue.end..queue.input], Level(g, source, d + 1))
    ensures scout == ScoutSum(g, queue.shared[queue.end..queue.input])
  {
    hide Within, TreeEdge, Graph.Ok, Level, ScoutSum;
    ghost var window := queue.shared[queue.start..queue.end];
    ghost var items := queue.shared[..queue.input];
    var claimed;
    scout, claimed := ClaimAll(g, source, parent, queue, tasks, d);
    TasksComplete(g, source, parent[..], d, window, tasks);
    ClaimedIsLevel(g, source, parent[..], d, claimed);
    SameMembers(claimed, arrange(claimed));
    ScoutRearranged(g, claimed, arrange(claimed));
    var more := arrange(claimed);
    AppendLevel(g, source, items, d, d + 1, more);
    queue.Flush(more);
    assert queue.shared[queue.end..queue.input] == queue.shared[..queue.input][queue.end..] == more;
  }

  ghost predicate TaskDone(g: Graph, parent: seq<int>, window: seq<nat>, task: Task) {
    && task.i < |window| && window[task.i] < |g.out| && task.k < |g.out[window[task.i]]|
    && g.out[window[task.i]][task.k] < |parent| && parent[g.out[window[task.i]][task.k]] >= 0
  }

  lemma TasksComplete(g: Graph, source: nat, parent: seq<int>, d: nat, window: seq<nat>, tasks: seq<Task>)
    requires TreePart(g, source, parent, d) && Lists(window, Level(g, source, d)) && AllTasks(g, window, tasks)
    requires forall q :: 0 <= q < |tasks| ==> TaskDone(g, parent, window, tasks[q])
    ensures Tree(g, source, parent, d + 1)
  {
    hide Within, TreeEdge, Graph.Ok, Level;
    forall u: nat, v: nat | u in Level(g, source, d) && g.Edge(u, v)
      ensures parent[v] >= 0
    {
      assert u in window;
      var i :| 0 <= i < |window| && window[i] == u;
      var k :| 0 <= k < |g.out[u]| && g.out[u][k] == v;
      assert Task(i, k) in tasks;
    }
    StepDone(g, source, parent, d);
  }

  lemma EntryIsScout(g: Graph, source: nat, parent: seq<int>, d: nat, v: nat)
    requires TreePart(g, source, parent, d) && v < |parent| && parent[v] < 0
    ensures parent[v] == -Scout(g, v)
  {
  }

  lemma NothingScouted(g: Graph)
    ensures ScoutSum(g, []) == 0
  {
  }

  method ClaimAll(g: Graph, ghost source: nat, parent: array<int>, queue: SlidingQueue, tasks: seq<Task>, ghost d: nat)
    returns (scout: int, claimed: seq<nat>)
    requires Tree(g, source, parent[..], d) && QueueAt(g, source, queue, d)
    requires ValidTasks(g, queue.shared[queue.start..queue.end], tasks)
    modifies parent
    ensures TreePart(g, source, parent[..], d) && Claimed(g, source, parent[..], d, claimed)
    ensures scout == ScoutSum(g, claimed)
    ensures forall q :: 0 <= q < |tasks| ==> TaskDone(g, parent[..], queue.shared[queue.start..queue.end], tasks[q])
  {
    hide Within, TreeEdge, Level, ScoutSum, Encoded, Scout;
    NothingScouted(g);
    scout, claimed := 0, [];
    ghost var window := queue.shared[queue.start..queue.end];
    for q := 0 to |tasks|
      invariant TreePart(g, source, parent[..], d) && Claimed(g, source, parent[..], d, claimed)
      invariant scout == ScoutSum(g, claimed)
      invariant forall r :: 0 <= r < q ==> TaskDone(g, parent[..], window, tasks[r])
    {
      var u := queue.shared[queue.start + tasks[q].i];
      assert u == window[tasks[q].i] && u in window;
      WindowWithin(g, source, u, d);
      assert g.InRange(g.out[u]);
      var v := g.out[u][tasks[q].k];
      var value := parent[v];
      if value < 0 {
        EntryIsScout(g, source, parent[..], d, v);
        ClaimKeeps(g, source, parent[..], d, u, v);
        ClaimAppends(g, source, parent[..], d, claimed, u, v);
        ScoutAppend(g, claimed, v);
        ghost var before := parent[..];
        parent[v] := u;
        assert parent[..] == before[v := u];
        claimed := claimed + [v];
        scout := scout - value;
      }
    }
  }

  lemma WindowWithin(g: Graph, source: nat, u: nat, d: nat)
    requires u in Level(g, source, d)
    ensures u in Within(g, source, d)
  {
  }

  /** The bitmap marks all of level d. Stale marks are allowed on vertices within d: their neighbours have parents. */
  ghost predicate FrontAt(g: Graph, source: nat, front: seq<bool>, d: nat) {
    && |front| == |g.out|
    && (forall v :: 0 <= v < |front| && v in Level(g, source, d) ==> front[v])
    && (forall v :: 0 <= v < |front| && front[v] ==> v in Within(g, source, d))
  }

  /** The bitmap marks level d and nothing else. */
  ghost predicate MarksLevel(g: Graph, source: nat, marks: seq<bool>, d: nat) {
    |marks| == |g.out| && forall v :: 0 <= v < |marks| ==> (marks[v] <==> v in Level(g, source, d))
  }

  method QueueToBitmap(g: Graph, ghost source: nat, queue: SlidingQueue, front: array<bool>, ghost d: nat)
    requires g.Ok() && source < |g.out| && QueueAt(g, source, queue, d) && front.Length == |g.out|
    requires forall v :: 0 <= v < front.Length && front[v] ==> v in Within(g, source, d)
    modifies front
    ensures FrontAt(g, source, front[..], d)
  {
    hide Within, Graph.Ok, Level, Appended;
    LevelInRange(g, source, d);
    ghost var window := queue.shared[queue.start..queue.end];
    for i := queue.start to queue.end
      invariant forall v :: 0 <= v < front.Length && front[v] ==> v in Within(g, source, d)
      invariant forall q :: 0 <= q < i - queue.start ==> window[q] < front.Length && front[window[q]]
    {
      var u := queue.shared[i];
      assert u == window[i - queue.start] && u in window;
      WindowWithin(g, source, u, d);
      front[u] := true;
    }
    forall v | 0 <= v < front.Length && v in Level(g, source, d)
      ensures front[v]
    {
      assert v in window;
    }
  }

  method BitmapToQueue(g: Graph, ghost source: nat, marks: array<bool>, queue: SlidingQueue,
                       arrange: seq<nat> -> seq<nat>, ghost d: nat, ghost e: nat)
    requires g.Ok() && source < |g.out| && MarksLevel(g, source, marks[..], e) && d < e
    requires queue.Valid() && queue.shared.Length == |g.out| && queue.input == queue.end
    requires Appended(g, source, queue.shared[..queue.input], d)
    requires forall s :: Rearranges(s, arrange(s))
    modifies queue`input, queue`start, queue`end, queue.shared
    ensures QueueAt(g, source, queue, e)
  {
    hide Within, Graph.Ok, Level;
    var found: seq<nat> := [];
    for n := 0 to |g.out|
      invariant Distinct(found) && forall v: nat :: v in found <==> v < n && marks[v]
    {
      if marks[n] {
        found := found + [n];
      }
    }
    LevelInRange(g, source, e);
    assert Lists(found, Level(g, source, e));
    SameMembers(found, arrange(found));
    var more := arrange(found);
    AppendLevel(g, source, queue.shared[..queue.input], d, e, more);
    queue.Flush(more);
    queue.SlideWindow();
    assert queue.shared[queue.start..queue.end] == queue.shared[..queue.input][queue.start..] == more;
  }

  lemma LevelInRange(g: Graph, source: nat, d: nat)
    requires source < |g.out|
    ensures forall v :: v in Level(g, source, d) ==> v < |g.out|
  {
    WithinInRange(g, source, d);
  }

  method Reset(bits: array<bool>)
    modifies bits
    ensures forall v :: 0 <= v < bits.Length ==> !bits[v]
  {
    for k := 0 to bits.Length
      invariant forall v :: 0 <= v < k ==> !bits[v]
    {
      bits[k] := false;
    }
  }

  /** The bottom-up step: every vertex without a parent looks for one among its in-neighbours. */
  method BottomUp(g: Graph, ghost source: nat, parent: array<int>, front: array<bool>, next: array<bool>, ghost d: nat)
    returns (awake: nat)
    requires Tree(g, source, parent[..], d) && FrontAt(g, source, front[..], d) && next.Length == |g.out|
          && front != next
    modifies parent, next
    ensures Tree(g, source, parent[..], d + 1) && MarksLevel(g, source, next[..], d + 1)
    ensures awake == |Level(g, source, d + 1)|
  {
    hide Within, TreeEdge, Graph.Ok, Level, TreePart, Tree, FrontAt, Visited, MarksLevel, MarkedBelow;
    TreeHas(g, source, parent[..], d);
    awake := 0;
    Reset(next);
    VisitStart(g, source, parent[..], next[..], d);
    for u := 0 to |g.out|
      invariant parent.Length == |g.out| && TreePart(g, source, parent[..], d)
      invariant Visited(g, source, old(parent[..]), parent[..], next[..], d, u)
      invariant awake == |MarkedBelow(next[..], u)|
    {
      ghost var before, marks := parent[..], next[..];
      VisitedAt(g, source, old(parent[..]), before, marks, d, u);
      var found := Awaken(g, source, parent, front, u, d);
      if found {
        awake := awake + 1;
        next[u] := true;
      }
      assert next[..] == marks[u := found];
      VisitNext(g, source, old(parent[..]), before, parent[..], marks, d, u, found);
    }
    VisitEnd(g, source, old(parent[..]), parent[..], next[..], d);
  }

  ghost function MarkedBelow(next: seq<bool>, u: nat): set<nat> {
    set v | v in Range(u) && v < |next| && next[v]
  }

  lemma VisitStart(g: Graph, source: nat, parent: seq<int>, next: seq<bool>, d: nat)
    requires |parent| == |next| == |g.out| && forall v :: 0 <= v < |next| ==> !next[v]
    ensures Visited(g, source, parent, parent, next, d, 0) && MarkedBelow(next, 0) == {}
  {
  }

  lemma VisitedAt(g: Graph, source: nat, start: seq<int>, parent: seq<int>, next: seq<bool>, d: nat, u: nat)
    requires Visited(g, source, start, parent, next, d, u) && u < |g.out|
    ensures parent[u] == start[u] && !next[u]
  {
  }

  lemma VisitEnd(g: Graph, source: nat, start: seq<int>, parent: seq<int>, next: seq<bool>, d: nat)
    requires TreePart(g, source, parent, d) && Visited(g, source, start, parent, next, d, |g.out|)
    ensures MarksLevel(g, source, next, d + 1) && MarkedBelow(next, |g.out|) == Level(g, source, d + 1)
    ensures Tree(g, source, parent, d + 1)
  {
    hide Within, TreeEdge, Graph.Ok, Level;
    LevelInRange(g, source, d + 1);
    LevelHasParents(g, source, parent, d);
  }

  /** The vertices below u have been looked at; the others are untouched. */
  ghost predicate Visited(g: Graph, source: nat, before: seq<int>, parent: seq<int>, next: seq<bool>, d: nat, u: nat) {
    && |before| == |parent| == |next| == |g.out|
    && (forall v :: u <= v < |g.out| ==> parent[v] == before[v] && !next[v])
    && (forall v :: 0 <= v < u && v < |g.out| ==> (next[v] <==> v in Level(g, source, d + 1)))
    && (forall v :: 0 <= v < u && v < |g.out| && v in Level(g, source, d + 1) ==> parent[v] >= 0)
  }

  lemma VisitNext(g: Graph, source: nat, start: seq<int>, before: seq<int>, after: seq<int>, next: seq<bool>, d: nat,
                  u: nat, found: bool)
    requires u < |g.out| && Visited(g, source, start, before, next, d, u) && |after| == |before|
    requires forall v :: 0 <= v < |g.out| && v != u ==> after[v] == before[v]
    requires (found <==> u in Level(g, source, d + 1)) && (found ==> after[u] >= 0)
    ensures Visited(g, source, start, after, next[u := found], d, u + 1)
    ensures |MarkedBelow(next[u := found], u + 1)| == |MarkedBelow(next, u)| + (if found then 1 else 0)
  {
    hide Within, Level, Graph.Ok, MarkedBelow;
    MarkNext(next, u, found);
  }

  lemma MarkNext(next: seq<bool>, u: nat, found: bool)
    requires u < |next|
    ensures |MarkedBelow(next[u := found], u + 1)| == |MarkedBelow(next, u)| + (if found then 1 else 0)
  {
    hide Range;
    var m, m' := MarkedBelow(next, u), MarkedBelow(next[u := found], u + 1);
    assert m' == if found then m + {u} else m;
  }

  lemma NotInNextLevel(g: Graph, source: nat, u: nat, d: nat)
    ensures u in Within(g, source, d) ==> u !in Level(g, source, d + 1)
  {
  }

  lemma LevelHasParents(g: Graph, source: nat, parent: seq<int>, d: nat)
    requires TreePart(g, source, parent, d)
    requires forall v :: 0 <= v < |parent| && v in Level(g, source, d + 1) ==> parent[v] >= 0
    ensures Tree(g, source, parent, d + 1)
  {
    hide TreeEdge, Graph.Ok;
    forall u: nat, v: nat | u in Level(g, source, d) && g.Edge(u, v)
      ensures parent[v] >= 0
    {
      if v !in Within(g, source, d) {
        WindowWithin(g, source, u, d);
        NewVertex(g, source, u, v, d);
      }
    }
    StepDone(g, source, parent, d);
  }

  /** The scan of one vertex's in-neighbours, stopping at the first marked one. */
  method Awaken(g: Graph, ghost source: nat, parent: array<int>, front: array<bool>, u: nat, ghost d: nat)
    returns (found: bool)
    requires TreePart(g, source, parent[..], d) && FrontAt(g, source, front[..], d) && u < |g.out|
    requires parent[u] >= 0 ==> u in Within(g, source, d)
    modifies parent
    ensures TreePart(g, source, parent[..], d)
    ensures forall v :: 0 <= v < |g.out| && v != u ==> parent[v] == old(parent[v])
    ensures (found <==> u in Level(g, source, d + 1)) && (found ==> parent[u] >= 0)
  {
    hide Within, TreeEdge, Level;
    if parent[u] >= 0 {
      NotInNextLevel(g, source, u, d);
      return false;
    }
    assert g.InRange(g.inn[u]);
    for k := 0 to |g.inn[u]|
      invariant parent[..] == old(parent[..])
      invariant forall j :: 0 <= j < k ==> !front[g.inn[u][j]]
    {
      var v := g.inn[u][k];
      if front[v] {
        assert v in g.inn[u] && g.Edge(v, u);
        ClaimKeeps(g, source, parent[..], d, v, u);
        parent[u] := v;
        assert parent[..] == old(parent[..])[u := v];
        return true;
      }
    }
    NoneAwake(g, source, parent[..], front[..], u, d);
    return false;
  }

  lemma NoneAwake(g: Graph, source: nat, parent: seq<int>, front: seq<bool>, u: nat, d: nat)
    requires TreePart(g, source, parent, d) && FrontAt(g, source, front, d) && u < |g.out| && parent[u] < 0
    requires forall j :: 0 <= j < |g.inn[u]| ==> g.inn[u][j] < |front| && !front[g.inn[u][j]]
    ensures u !in Level(g, source, d + 1)
  {
    hide TreeEdge, Within, Level;
    if u in Level(g, source, d + 1) {
      LevelMember(g, source, u, d + 1);
      NextLevel(g, source, u, d);
      var v :| v in Level(g, source, d) && g.Edge(v, u);
      Transposed(g, v, u);
    }
  }

  lemma Transposed(g: Graph, v: nat, u: nat)
    requires g.Ok() && g.Edge(v, u)
    ensures v in g.inn[u]
  {
  }

  method InitParent(g: Graph) returns (parent: array<int>)
    ensures fresh(parent) && parent.Length == |g.out| && forall v :: 0 <= v < |g.out| ==> parent[v] == -Scout(g, v)
  {
    parent := new int[|g.out|](n requires 0 <= n < |g.out| => if |g.out[n]| != 0 then -|g.out[n]| else -1);
  }

  /** Division as the source's integers do it, towards zero. */
  function Quotient(a: int, b: int): (q: int)
    requires b != 0
    ensures var rest, size := a - b * q, if b > 0 then b else -b;
      if a >= 0 then 0 <= rest < size else -size < rest <= 0
  {
    if a >= 0 then a / b else -(-a / b)
  }

  function EdgeCount(lists: seq<seq<nat>>): nat {
    if lists == [] then 0 else |lists[0]| + EdgeCount(lists[1..])
  }

  /** The choices that the parallel runtime makes: the order of a step's tasks and of its queue appends. */
  datatype Scheduler = Scheduler(tasks: (nat, seq<nat>) -> seq<Task>, arrange: (nat, seq<nat>) -> seq<nat>) {
    ghost predicate Runs(g: Graph) {
      && (forall r, w :: ValidTasks(g, w, tasks(r, w)) && AllTasks(g, w, tasks(r, w)))
      && (forall r, s :: Rearranges(s, arrange(r, s)))
    }
  }

  /** v's entry of the result: its tree parent if it can be reached, and -1 if not. */
  ghost predicate BfsEntry(g: Graph, source: nat, parent: seq<int>, v: nat)
    requires v < |parent|
  {
    if !Reachable(g, source, v) then parent[v] == -1
    else if v == source then parent[v] == source
    else parent[v] >= 0 && TreeEdge(g, source, parent[v], v)
  }

  /** The bottom-up phase, from its bitmap to the next queue. */
  method BottomUpPhase(g: Graph, ghost source: nat, parent: array<int>, queue: SlidingQueue, front0: array<bool>,
                       curr0: array<bool>,
                       beta: nat, arrange: seq<nat> -> seq<nat>, ghost d0: nat)
    returns (front: array<bool>, curr: array<bool>, ghost d: nat)
    requires Tree(g, source, parent[..], d0) && QueueAt(g, source, queue, d0) && queue.start < queue.end
    requires front0 != curr0 && front0.Length == curr0.Length == |g.out| && beta > 0
    requires forall v :: 0 <= v < front0.Length && front0[v] ==> v in Within(g, source, d0)
    requires forall s :: Rearranges(s, arrange(s))
    modifies parent, front0, curr0, queue`input, queue`start, queue`end, queue.shared
    ensures {front, curr} == {front0, curr0} && front != curr
    ensures d > d0 && Tree(g, source, parent[..], d) && QueueAt(g, source, queue, d)
    ensures forall v :: 0 <= v < front.Length && front[v] ==> v in Within(g, source, d)
    ensures Unreached(g, source, d) <= Unreached(g, source, d0)
    ensures Unreached(g, source, d) == Unreached(g, source, d0) ==> queue.start == queue.end
  {
    hide Within, TreeEdge, Graph.Ok, Level, Unreached, Tree, FrontAt;
    TreeBasics(g, source, parent[..], d0);
    QueueToBitmap(g, source, queue, front0, d0);
    var awake := queue.end - queue.start;
    queue.SlideWindow();
    front, curr, d := BottomUpLoop(g, source, parent, front0, curr0, awake, beta, d0);
    BitmapToQueue(g, source, front, queue, arrange, d0, d);
    EmptyWindow(queue.shared[queue.start..queue.end], Level(g, source, d));
    MarksIsFront(g, source, front[..], d);
    FrontIsWithin(g, source, front[..], d);
  }

  lemma EmptyWindow(s: seq<nat>, members: set<nat>)
    requires Lists(s, members)
    ensures members == {} <==> |s| == 0
  {
    if |s| > 0 {
      assert s[0] in s;
    }
  }

  lemma FrontIsWithin(g: Graph, source: nat, front: seq<bool>, d: nat)
    requires FrontAt(g, source, front, d)
    ensures forall v :: 0 <= v < |front| && front[v] ==> v in Within(g, source, d)
  {
  }

  /** Bottom-up steps until the frontier has shrunk far enough. */
  method BottomUpLoop(g: Graph, ghost source: nat, parent: array<int>, front0: array<bool>, curr0: array<bool>,
                      awake0: nat, beta: nat, ghost d0: nat)
    returns (front: array<bool>, curr: array<bool>, ghost d: nat)
    requires Tree(g, source, parent[..], d0) && FrontAt(g, source, front0[..], d0) && awake0 > 0 && beta > 0
    requires front0 != curr0 && front0.Length == curr0.Length == |g.out|
    modifies parent, front0, curr0
    ensures {front, curr} == {front0, curr0} && front != curr
    ensures d > d0 && Tree(g, source, parent[..], d) && MarksLevel(g, source, front[..], d)
    ensures Unreached(g, source, d) <= Unreached(g, source, d0)
    ensures Unreached(g, source, d) == Unreached(g, source, d0) ==> Level(g, source, d) == {}
  {
    hide Within, TreeEdge, Graph.Ok, Level, Unreached, FrontAt, TreePart, MarksLevel;
    d, front, curr := d0, front0, curr0;
    var awake, more := awake0, true;
    while more
      invariant {front, curr} == {front0, curr0} && front != curr
      invariant d >= d0 && Tree(g, source, parent[..], d) && FrontAt(g, source, front[..], d)
      invariant d == d0 ==> more
      invariant d > d0 ==> MarksLevel(g, source, front[..], d)
      invariant Unreached(g, source, d) <= Unreached(g, source, d0)
      invariant Unreached(g, source, d) == Unreached(g, source, d0) && d > d0 ==> Level(g, source, d) == {}
      invariant more ==> awake > 0
      decreases Unreached(g, source, d), more
    {
      var oldAwake := awake;
      TreeBasics(g, source, parent[..], d);
      FewerUnreached(g, source, d);
      awake := BottomUp(g, source, parent, front, curr, d);
      front, curr := curr, front;
      d := d + 1;
      MarksIsFront(g, source, front[..], d);
      more := awake >= oldAwake || awake > |g.out| / beta;
    }
  }

  lemma TreeHas(g: Graph, source: nat, parent: seq<int>, d: nat)
    requires Tree(g, source, parent, d)
    ensures TreePart(g, source, parent, d) && source < |g.out| == |parent|
    ensures forall v :: 0 <= v < |parent| && parent[v] >= 0 ==> v in Within(g, source, d)
  {
  }

  lemma TreeBasics(g: Graph, source: nat, parent: seq<int>, d: nat)
    requires Tree(g, source, parent, d)
    ensures g.Ok() && source < |g.out| == |parent|
  {
  }

  lemma MarksIsFront(g: Graph, source: nat, front: seq<bool>, d: nat)
    requires MarksLevel(g, source, front, d)
    ensures FrontAt(g, source, front, d)
  {
  }

  /** The whole search, for every choice of direction that the two parameters can lead to. */
  method DOBFS(g: Graph, source: nat, alpha: int, beta: nat, sched: Scheduler) returns (parent: array<int>)
    requires g.Ok() && source < |g.out| && alpha != 0 && beta > 0 && sched.Runs(g)
    ensures parent.Length == |g.out| && forall v :: 0 <= v < |g.out| ==> BfsEntry(g, source, parent[..], v)
    ensures forall v: nat, d: nat :: v < |g.out| && AtDepth(g, source, v, d) ==> Climb(parent[..], v, d) == source
  {
    hide Within, TreeEdge, Graph.Ok, Level, BfsEntry, AtDepth, Climb;
    parent := InitParent(g);
    parent[source] := source;
    var queue := new SlidingQueue(|g.out|);
    queue.PushBack(source);
    queue.SlideWindow();
    var curr, front := new bool[|g.out|](_ => false), new bool[|g.out|](_ => false);
    SearchStarts(g, source, parent[..], queue.shared[..queue.input]);
    ghost var d := Search(g, source, parent, queue, front, curr, alpha, beta, sched);
    Complete(g, source, parent[..], queue.shared[queue.start..queue.end], d);
    CleanUp(g, source, parent);
    AllClimbHome(g, source, parent[..]);
  }

  /** Where n steps from child to parent lead. */
  ghost function Climb(parent: seq<int>, v: nat, n: nat): int
    decreases n
  {
    if n == 0 then v else if v < |parent| && parent[v] >= 0 then Climb(parent, parent[v], n - 1) else -1
  }

  lemma ParentDepth(g: Graph, source: nat, parent: seq<int>, v: nat, d: nat)
    requires v < |g.out| == |parent| && BfsEntry(g, source, parent, v) && AtDepth(g, source, v, d + 1)
    ensures 0 <= parent[v] < |g.out| && AtDepth(g, source, parent[v], d)
  {
    SourceDepth(g, source);
    assert Reachable(g, source, v);
    hide Within, AtDepth, Reachable;
    if v == source {
      DepthUnique(g, source, v, 0, d + 1);
    }
    var e: nat :| OneDeeper(g, source, parent[v], v, e);
    DepthUnique(g, source, v, e + 1, d + 1);
  }

  /** As many steps as a vertex is deep lead from it to the source. */
  lemma {:induction false} ClimbsHome(g: Graph, source: nat, parent: seq<int>, v: nat, d: nat)
    requires source < |g.out| == |parent| && forall u :: 0 <= u < |g.out| ==> BfsEntry(g, source, parent, u)
    requires v < |g.out| && AtDepth(g, source, v, d)
    ensures Climb(parent, v, d) == source
    decreases d
  {
    hide AtDepth, BfsEntry;
    if d == 0 {
      OnlySource(g, source, v);
    } else {
      ParentDepth(g, source, parent, v, d - 1);
      ClimbsHome(g, source, parent, parent[v], d - 1);
    }
  }

  lemma OnlySource(g: Graph, source: nat, v: nat)
    requires AtDepth(g, source, v, 0)
    ensures v == source
  {
  }

  lemma SourceDepth(g: Graph, source: nat)
    ensures AtDepth(g, source, source, 0)
  {
  }

  lemma AllClimbHome(g: Graph, source: nat, parent: seq<int>)
    requires source < |g.out| == |parent| && forall u :: 0 <= u < |g.out| ==> BfsEntry(g, source, parent, u)
    ensures forall v: nat, d: nat :: v < |g.out| && AtDepth(g, source, v, d) ==> Climb(parent, v, d) == source
  {
    hide AtDepth, BfsEntry, Climb;
    forall v: nat, d: nat | v < |g.out| && AtDepth(g, source, v, d)
      ensures Climb(parent, v, d) == source
    {
      ClimbsHome(g, source, parent, v, d);
    }
  }

  /** The search loop: each round is a bottom-up phase or one top-down step. */
  method Search(g: Graph, source: nat, parent: array<int>, queue: SlidingQueue, front0: array<bool>, curr0: array<bool>,
                alpha: int, beta: nat, sched: Scheduler)
    returns (ghost d: nat)
    requires g.Ok() && source < |g.out| && alpha != 0 && beta > 0 && sched.Runs(g)
    requires Tree(g, source, parent[..], 0) && QueueAt(g, source, queue, 0)
    requires front0 != curr0 && front0.Length == curr0.Length == |g.out| && forall v :: 0 <= v < |g.out| ==> !front0[v]
    modifies parent, queue, queue.shared, front0, curr0
    ensures Tree(g, source, parent[..], d) && QueueAt(g, source, queue, d) && queue.start == queue.end
  {
    hide Within, TreeEdge, Graph.Ok, Level, Unreached, TreePart, Appended, Lists, ValidTasks, AllTasks;
    d := 0;
    var front, curr := front0, curr0;
    var edgesToCheck: int := EdgeCount(g.out);
    var scout: int := |g.out[source]|;
    var round := 0;
    while queue.start < queue.end
      invariant Tree(g, source, parent[..], d) && QueueAt(g, source, queue, d)
      invariant {front, curr} == {front0, curr0} && front != curr
      invariant forall v :: 0 <= v < front.Length && front[v] ==> v in Within(g, source, d)
      decreases Unreached(g, source, d), queue.end - queue.start
    {
      if scout > Quotient(edgesToCheck, alpha) {
        front, curr, d := BottomUpPhase(g, source, parent, queue, front, curr, beta, s => sched.arrange(round, s), d);
        scout := 1;
      } else {
        edgesToCheck := edgesToCheck - scout;
        var tasks := sched.tasks(round, queue.shared[queue.start..queue.end]);
        scout := TopDown(g, source, parent, queue, tasks, s => sched.arrange(round, s), d);
        queue.SlideWindow();
        TopDownProgress(g, source, queue.shared[queue.start..queue.end], d);
        d := d + 1;
      }
      round := round + 1;
    }
  }

  lemma SearchStarts(g: Graph, source: nat, parent: seq<int>, items: seq<nat>)
    requires g.Ok() && source < |g.out| == |parent| && parent[source] == source && items == [source]
    requires forall v :: 0 <= v < |parent| && v != source ==> parent[v] == -Scout(g, v)
    ensures Tree(g, source, parent, 0) && Appended(g, source, items, 0) && Lists(items, Level(g, source, 0))
  {
  }

  lemma TopDownProgress(g: Graph, source: nat, window: seq<nat>, d: nat)
    requires source < |g.out| && Lists(window, Level(g, source, d + 1))
    ensures forall v :: v in Within(g, source, d) ==> v in Within(g, source, d + 1)
    ensures Unreached(g, source, d + 1) < Unreached(g, source, d)
         || (Unreached(g, source, d + 1) == Unreached(g, source, d) && |window| == 0)
  {
    hide Within, Level, Unreached;
    WithinGrows(g, source, d, d + 1);
    FewerUnreached(g, source, d);
    EmptyWindow(window, Level(g, source, d + 1));
  }

  lemma Complete(g: Graph, source: nat, parent: seq<int>, window: seq<nat>, d: nat)
    requires Tree(g, source, parent, d) && Lists(window, Level(g, source, d)) && |window| == 0
    ensures forall v :: 0 <= v < |parent| ==> (parent[v] >= 0 <==> Reachable(g, source, v))
  {
    hide Within, TreeEdge, Graph.Ok, Level, Reachable;
    EmptyWindow(window, Level(g, source, d));
    EmptyLevel(g, source, d);
  }

  method CleanUp(g: Graph, ghost source: nat, parent: array<int>)
    requires parent.Length == |g.out| && source < |g.out| && parent[source] == source
    requires forall v :: 0 <= v < |g.out| ==> (parent[v] >= 0 <==> Reachable(g, source, v))
    requires forall v :: 0 <= v < |g.out| && parent[v] >= 0 && v != source ==> TreeEdge(g, source, parent[v], v)
    modifies parent
    ensures forall v :: 0 <= v < |g.out| ==> BfsEntry(g, source, parent[..], v)
  {
    hide TreeEdge, Reachable;
    for n := 0 to parent.Length
      invariant forall v :: 0 <= v < n ==> parent[v] == if old(parent[v]) < -1 then -1 else old(parent[v])
      invariant forall v :: n <= v < parent.Length ==> parent[v] == old(parent[v])
    {
      if parent[n] < -1 {
        parent[n] := -1;
      }
    }
  }
}
