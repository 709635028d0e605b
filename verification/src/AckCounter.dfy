/** The acknowledged counter of the insert workload: keys are issued in order, inserted by concurrent clients and
    acknowledged in any order; `Last` tells how far acknowledgement is complete. */
module AckCounter {

  /** `limit` is the greatest key up to which every key from `start` on is acknowledged. */
  ghost predicate Complete(start: int, limit: int, acked: set<int>) {
    && limit >= start - 1 && limit + 1 !in acked
    && forall k :: start <= k <= limit ==> k in acked
  }

  function Slot(size: nat, k: int): (s: nat)
    requires size > 0
    ensures s < size
  {
    k % size
  }

  /** The slots of the keys in one turn of the window, from `low`: clear before `i`, and from there on true exactly
      for the acknowledged keys. */
  ghost predicate Shows(window: seq<bool>, low: int, i: int, acked: set<int>)
    requires |window| > 0
  {
    forall k :: low <= k < low + |window| ==> (window[Slot(|window|, k)] <==> i <= k && k in acked)
  }

  ghost predicate Represents(window: seq<bool>, start: int, limit: int, acked: set<int>) {
    && |window| > 1 && Complete(start, limit, acked)
    && (forall k :: k in acked ==> start <= k < limit + |window|)
    && Shows(window, limit, limit + 1, acked)
  }

  // ----- Slots -----

  lemma SlotsDiffer(size: nat, a: int, b: int)
    requires size > 0 && a < b < a + size
    ensures Slot(size, a) != Slot(size, b)
  {
    var qa, qb := a / size, b / size;
    if a % size == b % size {
      assert b - a == size * (qb - qa);
      Multiple(size, qb - qa);
    }
  }

  lemma Multiple(size: nat, q: int)
    ensures q > 0 ==> size * q >= size
    ensures q < 0 ==> size * q <= 0 - size
  {
    if q > 0 {
      assert size * (q - 1) >= 0;
    } else if q < 0 {
      assert size * (-q - 1) >= 0;
    }
  }

  lemma SlotsRepeat(size: nat, a: int)
    requires size > 0
    ensures Slot(size, a + size) == Slot(size, a)
  {
    var x := a + size;
    assert a == size * (a / size) + a % size && x == size * (x / size) + x % size;
    var q := x / size - a / size - 1;
    assert size * q == size * (x / size) - size * (a / size) - size;
    Multiple(size, q);
  }

  // ----- Acknowledging -----

  /** Clears the run of set slots from key `i` on and returns the key before the first clear one. */
  function Sweep(window: seq<bool>, i: int, until: int): (r: (seq<bool>, int))
    requires |window| > 0
    ensures |r.0| == |window| && i - 1 <= r.1
    decreases until - i
  {
    if i >= until || !window[Slot(|window|, i)] then (window, i - 1)
    else Sweep(window[Slot(|window|, i) := false], i + 1, until)
  }

  lemma ClearSlot(window: seq<bool>, low: int, i: int, acked: set<int>)
    requires |window| > 0 && low < i < low + |window| && Shows(window, low, i, acked)
    ensures Shows(window[Slot(|window|, i) := false], low, i + 1, acked)
  {
    hide Slot;
    var next := window[Slot(|window|, i) := false];
    forall k | low <= k < low + |window| ensures next[Slot(|window|, k)] <==> i + 1 <= k && k in acked {
      if k < i {
        SlotsDiffer(|window|, k, i);
      } else if k > i {
        SlotsDiffer(|window|, i, k);
      }
    }
  }

  lemma SetSlot(window: seq<bool>, low: int, v: int, acked: set<int>)
    requires |window| > 0 && low < v < low + |window| && Shows(window, low, low + 1, acked)
    ensures Shows(window[Slot(|window|, v) := true], low, low + 1, acked + {v})
  {
    hide Slot;
    forall k | low <= k < low + |window| && k != v ensures Slot(|window|, k) != Slot(|window|, v) {
      if k < v {
        SlotsDiffer(|window|, k, v);
      } else {
        SlotsDiffer(|window|, v, k);
      }
    }
  }

  /** Moving the limit up turns the cleared slots over to the keys just past the old window. */
  lemma Turn(window: seq<bool>, low: int, i: int, acked: set<int>)
    requires |window| > 0 && low < i <= low + |window| && Shows(window, low, i, acked)
    requires forall k :: k in acked ==> k < low + |window|
    ensures Shows(window, i - 1, i, acked)
  {
    hide Slot;
    forall k | i - 1 <= k < i - 1 + |window| ensures window[Slot(|window|, k)] <==> i <= k && k in acked {
      if k >= low + |window| {
        SlotsRepeat(|window|, k - |window|);
        assert !window[Slot(|window|, k - |window|)];
      }
    }
  }

  lemma {:induction false} SweepCompletes(window: seq<bool>, start: int, low: int, i: int, acked: set<int>)
    requires |window| > 1 && start - 1 <= low < i <= low + |window| && Shows(window, low, i, acked)
    requires forall k :: start <= k < i ==> k in acked
    requires forall k :: k in acked ==> start <= k < low + |window|
    ensures var r := Sweep(window, i, low + |window|); Represents(r.0, start, r.1, acked)
    decreases low + |window| - i
  {
    hide Slot;
    if i >= low + |window| || !window[Slot(|window|, i)] {
      Turn(window, low, i, acked);
    } else {
      ClearSlot(window, low, i, acked);
      SweepCompletes(window[Slot(|window|, i) := false], start, low, i + 1, acked);
    }
  }

  /** What `Acknowledge` does to the window and the limit when it does not throw. */
  function Acknowledged(window: seq<bool>, limit: int, value: int): (r: (seq<bool>, int))
    requires |window| > 0
  {
    Sweep(window[Slot(|window|, value) := true], limit + 1, limit + |window|)
  }

  /** A key not yet acknowledged is taken in correctly, without an exception, exactly when it lies inside the window;
      a key beyond it throws or leaves a wrong state behind. */
  lemma AcknowledgeExact(window: seq<bool>, start: int, limit: int, acked: set<int>, value: int)
    requires Represents(window, start, limit, acked) && start <= value && value !in acked
    ensures var r := Acknowledged(window, limit, value);
            (!window[Slot(|window|, value)] && Represents(r.0, start, r.1, acked + {value}))
            <==> value < limit + |window|
    ensures value < limit + |window| ==> limit <= Acknowledged(window, limit, value).1
  {
    hide Slot, Sweep;
    assert value > limit;
    if value < limit + |window| {
      SetSlot(window, limit, value, acked);
      SweepCompletes(window[Slot(|window|, value) := true], start, limit, limit + 1, acked + {value});
    } else if !window[Slot(|window|, value)] {
      BeyondWindow(window, start, limit, acked, value);
    }
  }

  /** Some key just past the limit has the slot of `value`. */
  lemma {:induction false} SlotOwner(size: nat, low: int, value: int) returns (k: int)
    requires size > 0 && value > low
    ensures low < k <= low + size && Slot(size, k) == Slot(size, value) && k <= value
    decreases value - low
  {
    hide Slot;
    if value <= low + size {
      k := value;
    } else {
      k := SlotOwner(size, low, value - size);
      SlotsRepeat(size, value - size);
    }
  }

  lemma {:induction false} SweepStops(window: seq<bool>, i: int, until: int)
    requires |window| > 0 && i <= until
    ensures Sweep(window, i, until).1 < until
    decreases until - i
  {
    if i < until && window[Slot(|window|, i)] {
      SweepStops(window[Slot(|window|, i) := false], i + 1, until);
    }
  }

  /** What goes wrong with a key from beyond the window that finds its slot free. Either the limit passes the next key
      although that was never acknowledged. Or a key inside the window is shown as acknowledged although it never was,
      so that its own acknowledgement will throw. Or the key is the one just past the window, and the limit lags:
      no acknowledgement made at this limit moves it as far as that key. */
  lemma BeyondWindowShows(window: seq<bool>, start: int, limit: int, acked: set<int>, value: int) returns (k: int)
    requires Represents(window, start, limit, acked) && value >= limit + |window| && !window[Slot(|window|, value)]
    ensures limit < k <= limit + |window| && Slot(|window|, k) == Slot(|window|, value)
    ensures var r := Acknowledged(window, limit, value);
      if k == limit + 1 then k !in acked + {value} && r.1 >= k
      else if k < limit + |window| then k !in acked + {value} && r.1 == limit && r.0[Slot(|window|, k)]
      else r.1 == limit && forall w: seq<bool>, v: int :: |w| == |window| ==> Acknowledged(w, limit, v).1 < k
  {
    hide Slot;
    k := SlotOwner(|window|, limit, value);
    var r := Acknowledged(window, limit, value);
    assert !window[Slot(|window|, limit + 1)];
    if limit + 1 < k < limit + |window| {
      SlotsDiffer(|window|, limit + 1, k);
    } else if k == limit + |window| {
      SlotsDiffer(|window|, limit + 1, k);
      forall w: seq<bool>, v: int | |w| == |window|
        ensures Acknowledged(w, limit, v).1 < k
      {
        SweepStops(w[Slot(|w|, v) := true], limit + 1, limit + |w|);
      }
    }
  }

  lemma BeyondWindow(window: seq<bool>, start: int, limit: int, acked: set<int>, value: int)
    requires Represents(window, start, limit, acked) && value >= limit + |window|
    ensures var r := Acknowledged(window, limit, value); !Represents(r.0, start, r.1, acked + {value})
  {
    hide Slot;
    if Slot(|window|, value) == Slot(|window|, limit + 1) {
      assert Acknowledged(window, limit, value).1 >= limit + 1;
      assert limit + 1 !in acked + {value};
    } else {
      assert !window[Slot(|window|, limit + 1)];
      assert Acknowledged(window, limit, value).1 == limit;
    }
  }

  class AcknowledgedCounter {
    const start: nat
    var counter: int
    var limit: int
    const window: array<bool>
    ghost var acked: set<int>

    ghost predicate Valid()
      reads this, window
    {
      Represents(window[..], start, limit, acked)
    }

    constructor (start: nat, size: nat)
      requires size > 1
      ensures Valid() && this.start == start && counter == start && limit == start - 1 && acked == {}
      ensures fresh(window) && window.Length == size
    {
      this.start, counter, limit, acked := start, start, start - 1, {};
      window := new bool[size](_ => false);
    }

    method Next() returns (key: int)
      modifies this`counter
      ensures key == old(counter) && counter == key + 1
    {
      key := counter;
      counter := counter + 1;
    }

    /** `thrown` is the "not enough window size" exception, which leaves everything as it was. */
    method Acknowledge(value: int) returns (thrown: bool)
      requires Valid() && start <= value && value !in acked
      modifies this`limit, this`acked, window
      ensures thrown == old(window[Slot(window.Length, value)])
      ensures thrown ==> limit == old(limit) && acked == old(acked) && window[..] == old(window[..])
      ensures !thrown ==> acked == old(acked) + {value}
      ensures !thrown ==> (window[..], limit) == Acknowledged(old(window[..]), old(limit), value)
      ensures !thrown && Valid() <==> value < old(limit) + window.Length
    {
      hide Slot, Represents;
      AcknowledgeExact(window[..], start, limit, acked, value);
      var current := Slot(window.Length, value);
      if window[current] {
        return true;
      }
      ghost var before := window[..];
      acked := acked + {value};
      window[current] := true;
      assert window[..] == before[current := true];
      var i := limit + 1;
      var until := limit + window.Length;
      while i < until
        invariant i <= until && limit == old(limit) && acked == old(acked) + {value}
        invariant Sweep(window[..], i, until) == Acknowledged(before, limit, value)
      {
        var slot := Slot(window.Length, i);
        if !window[slot] {
          break;
        }
        ghost var now := window[..];
        window[slot] := false;
        assert window[..] == now[slot := false];
        i := i + 1;
      }
      limit := i - 1;
      thrown := false;
    }
  }

  // ----- Clients -----

  /** What a client is doing: about to choose an operation, holding an issued key, its insert returned, or looking for
      a key that is not beyond the last acknowledged one; `Chose` holds the key it found. */
  datatype Client = Idle | Issued(key: int) | Returned(key: int) | Choosing | Chose(key: int)

  datatype State = State(
    start: nat, counter: int, limit: int, window: seq<bool>, clients: seq<Client>,
    inserted: set<int>, failed: set<int>, acked: set<int>)

  /** `Insert` carries the status the database reported; `Draw` the number the key chooser produced. */
  datatype Action =
    | Next(c: nat)
    | Insert(c: nat, ok: bool)
    | Acknowledge(c: nat)
    | Choose(c: nat)
    | Draw(c: nat, n: nat)
    | Done(c: nat)

  const WORD: int := 0x1_0000_0000_0000_0000

  /** `Last` read as an unsigned 64-bit number. */
  function Last(limit: int): int {
    if limit < 0 then limit + WORD else limit
  }

  predicate Enabled(s: State, a: Action) {
    && a.c < |s.clients| && |s.window| > 1
    && match a
       case Next(c) => s.clients[c] == Idle
       case Insert(c, _) => s.clients[c].Issued?
       case Acknowledge(c) => s.clients[c].Returned? && !s.window[Slot(|s.window|, s.clients[c].key)]
       case Choose(c) => s.clients[c] == Idle
       case Draw(c, n) => s.clients[c] == Choosing && n < WORD
       case Done(c) => s.clients[c].Chose?
  }

  function Step(s: State, a: Action): State
    requires Enabled(s, a)
  {
    match a
    case Next(c) => s.(counter := s.counter + 1, clients := s.clients[c := Issued(s.counter)])
    case Insert(c, ok) =>
      var k := s.clients[c].key;
      s.(clients := s.clients[c := Returned(k)],
         inserted := if ok then s.inserted + {k} else s.inserted,
         failed := if ok then s.failed else s.failed + {k})
    case Acknowledge(c) =>
      var k := s.clients[c].key;
      var r := Acknowledged(s.window, s.limit, k);
      s.(clients := s.clients[c := Idle], window := r.0, limit := r.1, acked := s.acked + {k})
    case Choose(c) => s.(clients := s.clients[c := Choosing])
    case Draw(c, n) => if n > Last(s.limit) then s else s.(clients := s.clients[c := Chose(n)])
    case Done(c) => s.(clients := s.clients[c := Idle])
  }

  /** The one assumption on a run: a key is acknowledged while it lies inside the window. */
  ghost predicate InWindow(s: State, a: Action)
    requires Enabled(s, a)
  {
    a.Acknowledge? ==> s.clients[a.c].key < s.limit + |s.window|
  }

  ghost predicate Holds(s: State, c: nat, k: int) {
    c < |s.clients| && (s.clients[c] == Issued(k) || s.clients[c] == Returned(k))
  }

  ghost predicate InHand(s: State, k: int) {
    exists c: nat :: Holds(s, c, k)
  }

  /** Key k is acknowledged or a client has it in hand. */
  ghost predicate Accounted(s: State, k: int) {
    k in s.acked || InHand(s, k)
  }

  /** Every issued key is held by one client or acknowledged, and no acknowledged key is still to be inserted. */
  ghost predicate Inv(s: State) {
    && Represents(s.window, s.start, s.limit, s.acked)
    && s.start <= s.limit + 1 && s.start <= s.counter && s.inserted !! s.failed
    && (forall k :: k in s.acked ==> s.start <= k < s.counter && k in s.inserted + s.failed)
    && (forall k :: k in s.inserted + s.failed ==> s.start <= k < s.counter)
    && (forall c: nat, k: int :: Holds(s, c, k) ==>
          s.start <= k < s.counter && k !in s.acked && (k in s.inserted + s.failed <==> s.clients[c].Returned?))
    && (forall c: nat, c': nat, k: int :: Holds(s, c, k) && Holds(s, c', k) ==> c == c')
    && (forall k :: s.start <= k < s.counter ==> Accounted(s, k))
  }

  lemma LimitFromStart(s: State)
    ensures Represents(s.window, s.start, s.limit, s.acked) ==> s.start <= s.limit + 1
  {
  }

  lemma StepKeeps(s: State, a: Action)
    requires Inv(s) && Enabled(s, a) && InWindow(s, a)
    ensures Inv(Step(s, a)) && s.limit <= Step(s, a).limit
    ensures s.inserted <= Step(s, a).inserted && s.failed <= Step(s, a).failed && s.acked <= Step(s, a).acked
  {
    hide Represents, Slot, Sweep, Acknowledged;
    LimitFromStart(Step(s, a));
    if a.Acknowledge? {
      var k := s.clients[a.c].key;
      assert Holds(s, a.c, k);
      AcknowledgeExact(s.window, s.start, s.limit, s.acked, k);
    } else if a.Insert? {
      assert Holds(s, a.c, s.clients[a.c].key);
    }
    forall c: nat, k: int | Holds(Step(s, a), c, k)
      ensures c == a.c || Holds(s, c, k)
    {
    }
    forall k | s.start <= k < Step(s, a).counter
      ensures Accounted(Step(s, a), k)
    {
      StaysAccounted(s, a, k);
    }
  }

  lemma StaysAccounted(s: State, a: Action, k: int)
    requires Enabled(s, a) && s.start <= k < Step(s, a).counter && (k < s.counter ==> Accounted(s, k))
    ensures Accounted(Step(s, a), k)
  {
    hide Slot, Sweep, Acknowledged;
    if k < s.counter && k !in s.acked {
      var c: nat :| Holds(s, c, k);
      assert Holds(Step(s, a), c, k) || k in Step(s, a).acked;
    } else if k !in s.acked {
      assert Holds(Step(s, a), a.c, k);
    }
  }

  /** No client has a key in hand. */
  ghost predicate AllReturned(s: State) {
    forall c :: 0 <= c < |s.clients| ==> !s.clients[c].Issued? && !s.clients[c].Returned?
  }

  /** All issued keys up to k are acknowledged. */
  ghost predicate AckedUpTo(s: State, k: int) {
    k < s.counter && forall i :: s.start <= i <= k ==> i in s.acked
  }

  /** The limit among the issued keys: it is the greatest up to which all are acknowledged, the next one is in some
      client's hands, and when no client has any the limit is the last key issued. */
  lemma LimitAmongIssued(s: State)
    requires Inv(s)
    ensures AckedUpTo(s, s.limit) && forall k :: AckedUpTo(s, k) ==> k <= s.limit
    ensures s.limit + 1 < s.counter ==> InHand(s, s.limit + 1)
    ensures AllReturned(s) ==> s.limit == s.counter - 1
  {
    hide Shows;
    if s.limit + 1 < s.counter {
      assert Accounted(s, s.limit + 1);
    }
    assert s.limit >= s.start ==> s.limit in s.acked;
    forall k | AckedUpTo(s, k)
      ensures k <= s.limit
    {
      assert s.start <= s.limit + 1 && s.limit + 1 !in s.acked;
    }
  }

  /** Which keys a drawn number may be: with a non-negative limit exactly the pre-loaded and the completely
      acknowledged ones pass, and of those the inserted ones are the ones whose insert did not fail. */
  lemma DrawnKey(s: State, n: nat)
    requires Inv(s) && s.limit >= 0
    ensures n <= Last(s.limit) <==> (forall k :: s.start <= k <= n ==> k in s.acked)
    ensures n <= Last(s.limit) && n >= s.start ==> (n in s.inserted <==> n !in s.failed)
  {
    if n <= Last(s.limit) && n >= s.start {
      assert n in s.acked;
    } else if n > s.limit {
      assert s.start <= s.limit + 1 <= n && s.limit + 1 !in s.acked;
    }
  }

  ghost predicate IsRun(run: seq<State>, acts: seq<Action>) {
    && |run| == |acts| + 1
    && forall i: nat :: i < |acts| ==> Moves(run[i], acts[i], run[i + 1])
  }

  ghost predicate Moves(s: State, a: Action, s': State) {
    Enabled(s, a) && InWindow(s, a) && s' == Step(s, a)
  }

  predicate Initial(s: State) {
    && |s.window| > 1 && s.counter == s.start && s.limit == s.start - 1
    && (forall i :: 0 <= i < |s.window| ==> !s.window[i])
    && (forall c :: 0 <= c < |s.clients| ==> s.clients[c] == Idle)
    && s.inserted == {} && s.failed == {} && s.acked == {}
  }

  lemma {:induction false} RunKeeps(run: seq<State>, acts: seq<Action>, i: nat, j: nat)
    requires IsRun(run, acts) && Initial(run[0]) && i <= j < |run|
    ensures Inv(run[i]) && Inv(run[j]) && run[i].limit <= run[j].limit && run[0].start == run[i].start == run[j].start
    ensures run[i].inserted <= run[j].inserted && run[i].failed <= run[j].failed && run[i].acked <= run[j].acked
    decreases j
  {
    hide Inv, InWindow, Enabled, Step;
    if j == 0 {
      InitialInv(run[0]);
    } else {
      RunKeeps(run, acts, if i == j then i - 1 else i, j - 1);
      assert Moves(run[j - 1], acts[j - 1], run[j]);
      StepKeeps(run[j - 1], acts[j - 1]);
      StepStart(run[j - 1], acts[j - 1]);
    }
  }

  lemma StepStart(s: State, a: Action)
    requires Enabled(s, a)
    ensures Step(s, a).start == s.start
  {
  }

  lemma InitialInv(s: State)
    requires Initial(s)
    ensures Inv(s)
  {
  }

  // ----- What the keys' sets record -----

  ghost predicate IssuesKey(run: seq<State>, acts: seq<Action>, m: nat, k: int) {
    m < |acts| == |run| - 1 && acts[m].Next? && Holds(run[m + 1], acts[m].c, k)
  }

  ghost predicate InsertsKey(run: seq<State>, acts: seq<Action>, m: nat, k: int, ok: bool) {
    m < |acts| < |run| && acts[m].Insert? && acts[m].ok == ok && Holds(run[m], acts[m].c, k)
  }

  ghost predicate AcknowledgesKey(run: seq<State>, acts: seq<Action>, m: nat, k: int) {
    m < |acts| < |run| && acts[m].Acknowledge? && Holds(run[m], acts[m].c, k)
  }

  /** Some step before the j-th issued, inserted, or acknowledged the key. */
  ghost predicate WasIssued(run: seq<State>, acts: seq<Action>, j: nat, k: int) {
    exists m: nat :: m < j && IssuesKey(run, acts, m, k)
  }

  ghost predicate WasInserted(run: seq<State>, acts: seq<Action>, j: nat, k: int, ok: bool) {
    exists m: nat :: m < j && InsertsKey(run, acts, m, k, ok)
  }

  ghost predicate WasAcknowledged(run: seq<State>, acts: seq<Action>, j: nat, k: int) {
    exists m: nat :: m < j && AcknowledgesKey(run, acts, m, k)
  }

  lemma OneMore(run: seq<State>, acts: seq<Action>, j: nat, k: int, ok: bool)
    ensures WasIssued(run, acts, j + 1, k) <==> WasIssued(run, acts, j, k) || IssuesKey(run, acts, j, k)
    ensures WasInserted(run, acts, j + 1, k, ok) <==>
      WasInserted(run, acts, j, k, ok) || InsertsKey(run, acts, j, k, ok)
    ensures WasAcknowledged(run, acts, j + 1, k) <==>
      WasAcknowledged(run, acts, j, k) || AcknowledgesKey(run, acts, j, k)
  {
    hide IssuesKey, InsertsKey, AcknowledgesKey;
  }

  lemma NothingYet(s: State)
    requires Initial(s)
    ensures s.counter == s.start && s.inserted == s.failed == s.acked == {}
  {
  }

  lemma RunRecords(run: seq<State>, acts: seq<Action>, j: nat, k: int)
    requires IsRun(run, acts) && j < |acts| && Inv(run[j])
    ensures run[j].start <= k < run[j + 1].counter <==>
      run[j].start <= k < run[j].counter || IssuesKey(run, acts, j, k)
    ensures k in run[j + 1].inserted <==> k in run[j].inserted || InsertsKey(run, acts, j, k, true)
    ensures k in run[j + 1].failed <==> k in run[j].failed || InsertsKey(run, acts, j, k, false)
    ensures k in run[j + 1].acked <==> k in run[j].acked || AcknowledgesKey(run, acts, j, k)
  {
    hide InWindow, Enabled, Step, Inv, Holds;
    assert Moves(run[j], acts[j], run[j + 1]);
    StepRecords(run[j], acts[j], k);
  }

  /** At every moment of a run the issued keys are those from the start to the counter, and the inserted, failed and
      acknowledged ones are those that some client inserted, failed to insert, or acknowledged before. */
  lemma {:induction false} HistoryExact(run: seq<State>, acts: seq<Action>, j: nat, k: int)
    requires IsRun(run, acts) && Initial(run[0]) && j < |run|
    ensures run[0].start <= k < run[j].counter <==> WasIssued(run, acts, j, k)
    ensures k in run[j].inserted <==> WasInserted(run, acts, j, k, true)
    ensures k in run[j].failed <==> WasInserted(run, acts, j, k, false)
    ensures k in run[j].acked <==> WasAcknowledged(run, acts, j, k)
  {
    if j == 0 {
      NothingYet(run[0]);
    } else {
      hide IsRun, Initial, WasIssued, WasInserted, WasAcknowledged, IssuesKey, InsertsKey, AcknowledgesKey;
      HistoryExact(run, acts, j - 1, k);
      RunKeeps(run, acts, j - 1, j - 1);
      RunRecords(run, acts, j - 1, k);
      OneMore(run, acts, j - 1, k, true);
      OneMore(run, acts, j - 1, k, false);
    }
  }

  lemma StepRecords(s: State, a: Action, k: int)
    requires Inv(s) && Enabled(s, a)
    ensures var s' := Step(s, a);
      && (k < s'.counter <==> k < s.counter || (a.Next? && Holds(s', a.c, k)))
      && (k in s'.inserted <==> k in s.inserted || (a.Insert? && a.ok && Holds(s, a.c, k)))
      && (k in s'.failed <==> k in s.failed || (a.Insert? && !a.ok && Holds(s, a.c, k)))
      && (k in s'.acked <==> k in s.acked || (a.Acknowledge? && Holds(s, a.c, k)))
      && (a.Next? && Holds(s', a.c, k) ==> s.start <= k)
  {
    hide Slot, Sweep, Acknowledged, Represents;
  }

  /** No key is ever issued twice. */
  lemma IssuedOnce(run: seq<State>, acts: seq<Action>, m: nat, m': nat, k: int)
    requires IsRun(run, acts) && Initial(run[0]) && IssuesKey(run, acts, m, k) && IssuesKey(run, acts, m', k)
    ensures m == m'
  {
    hide Slot, Sweep, Acknowledged, InWindow, Inv;
    var low, high := if m < m' then m else m', if m < m' then m' else m;
    assert Moves(run[low], acts[low], run[low + 1]) && Moves(run[high], acts[high], run[high + 1]);
    if low < high {
      HistoryExact(run, acts, high, k);
    }
  }

  /** Step m of the run is a draw of n by client c that passes the test. */
  ghost predicate Drawn(run: seq<State>, acts: seq<Action>, m: nat, c: nat, n: int) {
    m < |acts| < |run| && acts[m].Draw? && acts[m].c == c && acts[m].n == n <= Last(run[m].limit)
  }

  /** Over every interleaving: the limit never goes down and is always the greatest key up to which every issued key is
      acknowledged. A draw passes with all issued keys up to it acknowledged exactly if the limit was not negative;
      from then on the key is pre-loaded or its insert has returned, and it is in the store unless that insert failed.
      With a negative limit, which an empty store has at first, a draw that passes shows nothing. */
  lemma CounterCorrect(run: seq<State>, acts: seq<Action>, i: nat, j: nat, m: nat, c: nat, n: nat)
    requires IsRun(run, acts) && Initial(run[0]) && i <= j < |run|
    ensures run[i].limit <= run[j].limit && Complete(run[0].start, run[j].limit, run[j].acked)
    ensures AckedUpTo(run[j], run[j].limit) && forall k :: AckedUpTo(run[j], k) ==> k <= run[j].limit
    ensures forall k :: run[0].start <= k < run[j].counter ==> Accounted(run[j], k)
    ensures AllReturned(run[j]) ==> run[j].limit == run[j].counter - 1
    ensures Drawn(run, acts, m, c, n) ==>
              (run[m].limit >= 0 <==> forall k :: run[0].start <= k <= n ==> k in run[m].acked)
    ensures Drawn(run, acts, m, c, n) && run[m].limit >= 0 && m < j && n >= run[0].start ==>
              n in run[j].acked && (n in run[j].inserted <==> n !in run[j].failed)
  {
    hide IsRun, Moves, Step, Enabled, InWindow, Slot, Accounted, AckedUpTo, AllReturned;
    RunKeeps(run, acts, i, j);
    LimitAmongIssued(run[j]);
    if Drawn(run, acts, m, c, n) {
      RunKeeps(run, acts, m, m);
      if run[m].limit >= 0 {
        DrawnKey(run[m], n);
      } else {
        EmptyStoreDraws(run[m], n);
      }
      if m < j {
        RunKeeps(run, acts, m, j);
      }
    }
  }

  /** A key that a client holds as chosen comes from a draw that passed. */
  lemma {:induction false} ChosenWasDrawn(run: seq<State>, acts: seq<Action>, j: nat, c: nat)
    requires IsRun(run, acts) && Initial(run[0]) && j < |run| && c < |run[j].clients| && run[j].clients[c].Chose?
    ensures exists m: nat :: m < j && Drawn(run, acts, m, c, run[j].clients[c].key)
  {
    hide Slot, Sweep, Acknowledged;
    assert j > 0 && Moves(run[j - 1], acts[j - 1], run[j]);
    if c < |run[j - 1].clients| && run[j - 1].clients[c] == run[j].clients[c] {
      ChosenWasDrawn(run, acts, j - 1, c);
    } else {
      assert Drawn(run, acts, j - 1, c, run[j].clients[c].key);
    }
  }

  /** A store that starts empty: until key 0 is acknowledged the unsigned limit lets every number through. */
  lemma EmptyStoreDraws(s: State, n: nat)
    requires Inv(s) && s.limit < 0 && n < WORD
    ensures s.start == 0 && 0 !in s.acked && n <= Last(s.limit) == 18446744073709551615
  {
    assert s.limit == -1;
  }

  // ----- Two runs -----

  /** What the state of a single client is at the start. */
  function Start(start: nat): State {
    State(start, start, start - 1, seq(0x1_0000, _ => false), [Idle], {}, {}, {})
  }

  /** In an empty store a client may choose a key that was never issued; then it is ready again. */
  lemma ChoosesUnissued() returns (run: seq<State>, acts: seq<Action>)
    ensures IsRun(run, acts) && |run| == 4 && Initial(run[0]) && run[2].clients == [Chose(7)] && run[3].clients == [Idle]
    ensures run[2].counter == 0 && 7 !in run[2].inserted + run[2].failed + run[2].acked
  {
    acts := [Choose(0), Draw(0, 7), Done(0)];
    var s1 := Step(Start(0), acts[0]);
    var s2 := Step(s1, acts[1]);
    run := [Start(0), s1, s2, Step(s2, acts[2])];
    assert Moves(run[0], acts[0], run[1]) && Moves(run[1], acts[1], run[2]) && Moves(run[2], acts[2], run[3]);
  }

  /** A key whose insert failed is acknowledged and may be chosen. */
  lemma ChoosesFailed() returns (run: seq<State>, acts: seq<Action>)
    ensures IsRun(run, acts) && |run| == 6 && Initial(run[0]) && run[5].clients == [Chose(1)]
    ensures 1 in run[5].failed && 1 !in run[5].inserted
  {
    acts := [Next(0), Insert(0, false), Acknowledge(0), Choose(0), Draw(0, 1)];
    var s1 := Step(Start(1), acts[0]);
    var s2 := Step(s1, acts[1]);
    SweepsOne(s2.window);
    var s3 := Step(s2, acts[2]);
    var s4 := Step(s3, acts[3]);
    run := [Start(1), s1, s2, s3, s4, Step(s4, acts[4])];
    assert Moves(run[0], acts[0], run[1]) && Moves(run[1], acts[1], run[2]) && Moves(run[2], acts[2], run[3]);
    assert Moves(run[3], acts[3], run[4]) && Moves(run[4], acts[4], run[5]);
  }

  lemma SweepsOne(window: seq<bool>)
    requires |window| > 2 && forall i :: 0 <= i < |window| ==> !window[i]
    ensures Slot(|window|, 1) == 1 && Acknowledged(window, 0, 1) == (window, 1)
  {
    assert Slot(|window|, 1) == 1 && Slot(|window|, 2) == 2;
    assert Sweep(window, 2, |window|) == (window, 1);
    assert window[1 := true][1 := false] == window;
  }
}
