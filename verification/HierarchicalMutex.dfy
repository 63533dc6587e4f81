/**
  `Hierarchical_mutex`: any number of threads and mutexes, every interleaving of their lock,
  try_lock and unlock calls.
*/
module HierarchicalMutex {
  import opened Machine

  const ULONG_MAX: nat := ULONG - 1

  type Thread = nat

  /** A mutex object: its identity and its constant hierarchy value. */
  datatype Mutex = Mutex(id: nat, level: nat)

  /**
    A thread's `value` is its thread-local hierarchy value (ULONG_MAX until
    it first locks); `blocked[t] == m` says t has passed the check and sits in internal_mutex.lock()
    of m; `stack` is the order in which t acquired what it holds (for reasoning only).
  */
  datatype State = State(
    holder: map<Mutex, Thread>, previous: map<Mutex, nat>,
    value: map<Thread, nat>, blocked: map<Thread, Mutex>, stack: map<Thread, seq<Mutex>>)

  datatype Event =
    | Throw(t: Thread, m: Mutex)     // the check fails: logic_error, nothing changes
    | Request(t: Thread, m: Mutex)   // the check passes, the thread reaches internal_mutex.lock()
    | Acquire(t: Thread)             // internal_mutex.lock() returns, the values are updated
    | TryOk(t: Thread, m: Mutex)
    | TryFail(t: Thread, m: Mutex)
    | Unlock(t: Thread, m: Mutex)

  function Init(): State {
    State(map[], map[], map[], map[], map[])
  }

  function ValueOf(s: State, t: Thread): nat {
    if t in s.value then s.value[t] else ULONG_MAX
  }

  function StackOf(s: State, t: Thread): seq<Mutex> {
    if t in s.stack then s.stack[t] else []
  }

  /** check_for_hierarchy_violation does not throw. */
  predicate Passes(s: State, t: Thread, m: Mutex) {
    ValueOf(s, t) > m.level
  }

  /** Whether the mutex is the one its thread locked last: the discipline of lock guards in nested scopes. */
  predicate Lifo(s: State, t: Thread, m: Mutex) {
    var st := StackOf(s, t);
    st != [] && st[|st| - 1] == m
  }

  /** What lets a thread make the step; a thread inside internal_mutex.lock() can only acquire. */
  predicate Enabled(s: State, e: Event) {
    match e
    case Throw(t, m) => t !in s.blocked && !Passes(s, t, m)
    case Request(t, m) => t !in s.blocked && Passes(s, t, m)
    case Acquire(t) => t in s.blocked && s.blocked[t] !in s.holder
    case TryOk(t, m) => t !in s.blocked && Passes(s, t, m) && m !in s.holder
    case TryFail(t, m) => t !in s.blocked && Passes(s, t, m)  // a free mutex may refuse, too
    case Unlock(t, m) => t !in s.blocked && m in s.holder && s.holder[m] == t && m in s.previous
  }

  /** update_hierarchy_value, with the mutex taken. */
  function Take(s: State, t: Thread, m: Mutex): State {
    s.(holder := s.holder[m := t], previous := s.previous[m := ValueOf(s, t)],
       value := s.value[t := m.level], blocked := s.blocked - {t},
       stack := s.stack[t := StackOf(s, t) + [m]])
  }

  function Without(st: seq<Mutex>, m: Mutex): seq<Mutex> {
    if st == [] then [] else Without(st[..|st| - 1], m) + (if st[|st| - 1] == m then [] else [st[|st| - 1]])
  }

  function Release(s: State, t: Thread, m: Mutex): State
    requires m in s.previous
  {
    s.(holder := s.holder - {m}, value := s.value[t := s.previous[m]],
       stack := s.stack[t := Without(StackOf(s, t), m)])
  }

  function Next(s: State, e: Event): State
    requires Enabled(s, e)
  {
    match e
    case Throw(_, _) => s
    case Request(t, m) => s.(blocked := s.blocked[t := m])
    case Acquire(t) => Take(s, t, s.blocked[t])
    case TryOk(t, m) => Take(s, t, m)
    case TryFail(_, _) => s
    case Unlock(t, m) => Release(s, t, m)
  }

  /** One step, whatever order mutexes are unlocked in. */
  predicate AnyStep(s: State, e: Event, s': State) {
    Enabled(s, e) && s' == Next(s, e)
  }

  /** One step with last-in-first-out unlocking. */
  predicate Step(s: State, e: Event, s': State) {
    AnyStep(s, e, s') && (e.Unlock? ==> Lifo(s, e.t, e.m))
  }

  predicate Run(tr: seq<State>, es: seq<Event>) {
    && |tr| == |es| + 1
    && tr[0] == Init()
    && forall i :: 0 <= i < |es| ==> Step(tr[i], es[i], tr[i + 1])
  }

  // ---- what every step keeps ----

  /** The value a thread must have right after acquiring the first `k` mutexes of its stack. */
  function ValueBelow(st: seq<Mutex>, k: nat): nat
    requires k <= |st|
  {
    if k == 0 then ULONG_MAX else st[k - 1].level
  }

  /** A thread's lock stack: strictly falling levels, held by it, and spelt out by the saved values. */
  predicate StackOk(s: State, t: Thread) {
    var st := StackOf(s, t);
    && ValueOf(s, t) == ValueBelow(st, |st|)
    && (forall k :: 0 <= k < |st| ==> st[k] in s.holder && s.holder[st[k]] == t)
    && (forall k :: 0 <= k < |st| ==> st[k] in s.previous && s.previous[st[k]] == ValueBelow(st, k) > st[k].level)
    && (forall j, k :: 0 <= j < k < |st| ==> st[k].level < st[j].level)
  }

  ghost predicate Inv(s: State) {
    && (forall t :: StackOk(s, t))
    && (forall m :: m in s.holder ==> m in StackOf(s, s.holder[m]))
    && (forall t :: t in s.blocked ==> Passes(s, t, s.blocked[t]))
  }

  lemma BelowSnoc(st: seq<Mutex>, m: Mutex)
    ensures forall k :: 0 <= k <= |st| ==> ValueBelow(st + [m], k) == ValueBelow(st, k)
    ensures ValueBelow(st + [m], |st| + 1) == m.level
  {}

  lemma BelowTop(st: seq<Mutex>, j: nat)
    requires j < |st| && forall i, k :: 0 <= i < k < |st| ==> st[k].level < st[i].level
    ensures ValueBelow(st, |st|) <= st[j].level
  {
    if j < |st| - 1 { assert st[|st| - 1].level < st[j].level; }
  }

  lemma TakeOwn(s: State, t: Thread, m: Mutex)
    requires StackOk(s, t) && Passes(s, t, m) && m !in s.holder
    ensures StackOk(Take(s, t, m), t)
  {
    hide ValueBelow;
    var st := StackOf(s, t);
    BelowSnoc(st, m);
    forall j | 0 <= j < |st| ensures m.level < st[j].level && st[j] != m {
      BelowTop(st, j);
      assert st[j] in s.holder;
    }
    var s' := Take(s, t, m);
    assert StackOf(s', t) == st + [m];
    forall k | 0 <= k < |st| + 1
      ensures (st + [m])[k] in s'.previous
        && s'.previous[(st + [m])[k]] == ValueBelow(st + [m], k) > (st + [m])[k].level
    {
      if k < |st| { assert (st + [m])[k] == st[k]; }
    }
  }

  lemma TakeOther(s: State, t: Thread, m: Mutex, u: Thread)
    requires StackOk(s, u) && u != t && m !in s.holder
    ensures StackOk(Take(s, t, m), u)
  {
    hide ValueBelow;
    var su := StackOf(s, u);
    forall k | 0 <= k < |su| ensures su[k] != m { assert su[k] in s.holder; }
  }

  lemma TakeKeeps(s: State, t: Thread, m: Mutex)
    requires Inv(s) && Passes(s, t, m) && m !in s.holder && (t in s.blocked ==> s.blocked[t] == m)
    ensures Inv(Take(s, t, m))
  {
    hide StackOk;
    var s' := Take(s, t, m);
    forall u ensures StackOk(s', u) {
      if u == t { TakeOwn(s, t, m); } else { TakeOther(s, t, m, u); }
    }
    forall x | x in s'.holder ensures x in StackOf(s', s'.holder[x]) {
      if x != m { assert x in StackOf(s, s.holder[x]); }
    }
  }

  lemma {:induction false} WithoutLast(st: seq<Mutex>, m: Mutex)
    requires m !in st
    ensures Without(st + [m], m) == st
  {
    assert (st + [m])[..|st|] == st;
    WithoutAbsent(st, m);
  }

  lemma {:induction false} WithoutAbsent(st: seq<Mutex>, m: Mutex)
    requires m !in st
    ensures Without(st, m) == st
  {
    if st == [] {
    } else {
      WithoutAbsent(st[..|st| - 1], m);
    }
  }

  lemma ReleaseOwn(s: State, t: Thread, m: Mutex)
    requires StackOk(s, t) && Lifo(s, t, m) && m in s.previous
    ensures StackOk(Release(s, t, m), t)
    ensures StackOf(Release(s, t, m), t) == StackOf(s, t)[..|StackOf(s, t)| - 1]
  {
    hide Without, ValueBelow;
    var st := StackOf(s, t);
    var rest := st[..|st| - 1];
    assert st == rest + [m];
    forall k | 0 <= k < |rest| ensures rest[k] != m {
      assert st[|st| - 1].level < st[k].level;
    }
    WithoutLast(rest, m);
    BelowSnoc(rest, m);
    var s' := Release(s, t, m);
    assert s.previous[m] == ValueBelow(st, |rest|) by { assert st[|rest|] == m; }
    forall k | 0 <= k < |rest|
      ensures rest[k] in s'.previous && s'.previous[rest[k]] == ValueBelow(rest, k) > rest[k].level
    {
      assert rest[k] == st[k];
    }
  }

  lemma ReleaseOther(s: State, t: Thread, m: Mutex, u: Thread)
    requires StackOk(s, u) && u != t && m in s.holder && s.holder[m] == t && m in s.previous
    ensures StackOk(Release(s, t, m), u)
  {
    hide Without, ValueBelow;
    var su := StackOf(s, u);
    forall k | 0 <= k < |su| ensures su[k] != m { assert s.holder[su[k]] == u; }
  }

  lemma ReleaseKeeps(s: State, t: Thread, m: Mutex)
    requires Inv(s) && t !in s.blocked && m in s.holder && s.holder[m] == t && m in s.previous && Lifo(s, t, m)
    ensures Inv(Release(s, t, m))
  {
    hide Without, StackOk;
    var s' := Release(s, t, m);
    ReleaseOwn(s, t, m);
    forall u ensures StackOk(s', u) {
      if u != t { ReleaseOther(s, t, m, u); }
    }
    forall x | x in s'.holder ensures x in StackOf(s', s'.holder[x]) {
      assert x in StackOf(s, s.holder[x]);
      if s.holder[x] == t { assert StackOf(s, t) == StackOf(s', t) + [m]; }
    }
  }

  lemma RequestKeeps(s: State, t: Thread, m: Mutex)
    requires Inv(s) && Passes(s, t, m)
    ensures Inv(s.(blocked := s.blocked[t := m]))
  {
    hide ValueBelow;
    var s' := s.(blocked := s.blocked[t := m]);
    forall u ensures StackOk(s', u) { assert StackOk(s, u); }
    forall x | x in s'.holder ensures x in StackOf(s', s'.holder[x]) { assert x in StackOf(s, s.holder[x]); }
  }

  lemma StepKeeps(s: State, e: Event, s': State)
    requires Inv(s) && Step(s, e, s')
    ensures Inv(s')
  {
    BlockedPass(s);
    hide Without, Inv, Passes, Lifo;
    match e
    case Acquire(t) => TakeKeeps(s, t, s.blocked[t]);
    case TryOk(t, m) => TakeKeeps(s, t, m);
    case Unlock(t, m) => ReleaseKeeps(s, t, m);
    case Request(t, m) => RequestKeeps(s, t, m);
    case _ =>
  }

  lemma BlockedPass(s: State)
    requires Inv(s)
    ensures forall t :: t in s.blocked ==> Passes(s, t, s.blocked[t])
  {}

  lemma InitInv()
    ensures Inv(Init())
  {}

  lemma {:induction false} RunsKeepInv(tr: seq<State>, es: seq<Event>, i: nat)
    requires Run(tr, es) && i < |tr|
    ensures Inv(tr[i])
  {
    hide Inv, Step;
    if i == 0 {
      InitInv();
    } else {
      RunsKeepInv(tr, es, i - 1);
      assert Step(tr[i - 1], es[i - 1], tr[i - 1 + 1]);
      StepKeeps(tr[i - 1], es[i - 1], tr[i]);
    }
  }

  // ---- consequences in every reachable state ----

  /** A thread's value is the least of ULONG_MAX and the levels it holds. */
  lemma ValueIsMinimum(tr: seq<State>, es: seq<Event>, i: nat, t: Thread)
    requires Run(tr, es) && i < |tr|
    ensures var s := tr[i];
      && (forall m :: m in s.holder && s.holder[m] == t ==> ValueOf(s, t) <= m.level)
      && (ValueOf(s, t) == ULONG_MAX || exists m :: m in s.holder && s.holder[m] == t && m.level == ValueOf(s, t))
  {
    var s := tr[i];
    RunsKeepInv(tr, es, i);
    assert StackOk(s, t);
    HeldAbove(s, t);
    var st := StackOf(s, t);
    if st != [] { assert st[|st| - 1] in s.holder; }
  }

  lemma HeldAbove(s: State, t: Thread)
    requires Inv(s)
    ensures forall m :: m in s.holder && s.holder[m] == t ==> ValueOf(s, t) <= m.level
  {
    hide ValueBelow;
    assert StackOk(s, t);
    var st := StackOf(s, t);
    forall m | m in s.holder && s.holder[m] == t ensures ValueOf(s, t) <= m.level {
      assert m in st;
      var k :| 0 <= k < |st| && st[k] == m;
      BelowTop(st, k);
    }
  }

  /** The saved values spell out a thread's lock stack: each holds the level locked before it, the first ULONG_MAX. */
  lemma SavedValuesSpellStack(tr: seq<State>, es: seq<Event>, i: nat, t: Thread, k: nat)
    requires Run(tr, es) && i < |tr| && k < |StackOf(tr[i], t)|
    ensures var s := tr[i]; var m := StackOf(s, t)[k];
      && m in s.holder && s.holder[m] == t && m in s.previous
      && s.previous[m] == (if k == 0 then ULONG_MAX else StackOf(s, t)[k - 1].level)
      && m.level < s.previous[m]
  {
    RunsKeepInv(tr, es, i);
    assert StackOk(tr[i], t);
  }

  /**
    The order of unlocking is exactly what matters: a thread's value stays at or below every level it
    still holds if and only if it unlocks the mutex it locked last.
  */
  lemma UnlockKeepsMinimumIff(s: State, t: Thread, m: Mutex)
    requires Inv(s) && Enabled(s, Unlock(t, m))
    ensures (forall x :: x in Release(s, t, m).holder && s.holder[x] == t ==> ValueOf(Release(s, t, m), t) <= x.level)
      <==> Lifo(s, t, m)
  {
    hide Without, ValueBelow;
    var s' := Release(s, t, m);
    var st := StackOf(s, t);
    assert StackOk(s, t) && m in st;
    var k :| 0 <= k < |st| && st[k] == m;
    if Lifo(s, t, m) {
      UnlockTop(s, t, m);
    } else {
      var top := st[|st| - 1];
      assert top.level < st[k].level;
      assert top in s'.holder && s.holder[top] == t;
      assert ValueOf(s', t) == s.previous[m] > m.level;
    }
  }

  lemma UnlockTop(s: State, t: Thread, m: Mutex)
    requires Inv(s) && Enabled(s, Unlock(t, m)) && Lifo(s, t, m)
    ensures forall x :: x in Release(s, t, m).holder && s.holder[x] == t ==> ValueOf(Release(s, t, m), t) <= x.level
  {
    hide Without;
    ReleaseKeeps(s, t, m);
    HeldAbove(Release(s, t, m), t);
  }

  function Held(s: State, t: Thread): set<Mutex> {
    set m | m in s.holder && s.holder[m] == t
  }

  /** Balanced locking: whenever a thread again holds the same mutexes, its value is the same again. */
  lemma BalancedRestores(tr: seq<State>, es: seq<Event>, i: nat, j: nat, t: Thread)
    requires Run(tr, es) && i <= j < |tr| && Held(tr[i], t) == Held(tr[j], t)
    ensures ValueOf(tr[i], t) == ValueOf(tr[j], t)
  {
    hide Run, Inv;
    RunsKeepInv(tr, es, i);
    RunsKeepInv(tr, es, j);
    HeldBounds(tr[i], tr[j], t);
    HeldBounds(tr[j], tr[i], t);
  }

  /** Holding no fewer mutexes never means a higher value. */
  lemma HeldBounds(s: State, s': State, t: Thread)
    requires Inv(s) && Inv(s') && Held(s, t) <= Held(s', t)
    ensures ValueOf(s', t) <= ValueOf(s, t)
  {
    hide Inv, Held;
    TopHeld(s, t);
    LevelsBelowMax(s', t);
    if ValueOf(s, t) != ULONG_MAX {
      var top :| top in Held(s, t) && top.level == ValueOf(s, t);
      assert top in Held(s', t);
      HeldAbove(s', t);
      assert top in s'.holder && s'.holder[top] == t by { HeldIs(s', t, top); }
    }
  }

  lemma HeldIs(s: State, t: Thread, m: Mutex)
    ensures m in Held(s, t) <==> m in s.holder && s.holder[m] == t
  {}

  lemma TopHeld(s: State, t: Thread)
    requires Inv(s)
    ensures ValueOf(s, t) == ULONG_MAX || exists top :: top in Held(s, t) && top.level == ValueOf(s, t)
  {
    assert StackOk(s, t);
    var st := StackOf(s, t);
    if st != [] { assert st[|st| - 1] in Held(s, t); }
  }

  /** Every level a thread holds is below ULONG_MAX. */
  lemma LevelsBelowMax(s: State, t: Thread)
    requires Inv(s)
    ensures ValueOf(s, t) <= ULONG_MAX
    ensures forall k :: 0 <= k < |StackOf(s, t)| ==> StackOf(s, t)[k].level < ULONG_MAX
  {
    assert StackOk(s, t);
    var st := StackOf(s, t);
    if st != [] { assert st[0].level < ULONG_MAX; }
  }

  /** A thread that is not blocked, or blocked on a mutex nobody holds, can move. */
  predicate Movable(s: State, t: Thread) {
    t in s.blocked ==> s.blocked[t] !in s.holder
  }

  /** t waits for a mutex that u holds. */
  predicate WaitsFor(s: State, t: Thread, u: Thread) {
    t in s.blocked && s.blocked[t] in s.holder && s.holder[s.blocked[t]] == u
  }

  /** Each hop of waits-for-holder goes to a mutex of strictly lower level. */
  lemma WaitingDescends(s: State, t: Thread, u: Thread)
    requires Inv(s) && WaitsFor(s, t, u) && u in s.blocked
    ensures s.blocked[u].level < s.blocked[t].level
  {
    HeldAbove(s, u);
    assert Passes(s, u, s.blocked[u]);
  }

  /** Waiting threads, each for the next, from `t` on. */
  predicate Chain(s: State, c: seq<Thread>) {
    |c| >= 1 && forall k :: 0 <= k < |c| - 1 ==> WaitsFor(s, c[k], c[k + 1])
  }

  /** Some threads wait for each other in a circle. */
  ghost predicate Deadlocked(s: State) {
    exists cycle :: Chain(s, cycle) && |cycle| >= 2 && cycle[0] == cycle[|cycle| - 1]
  }

  /** Following waits-for-holder from any thread ends at one that can move. */
  lemma {:induction false} ReachMovable(s: State, t: Thread) returns (c: seq<Thread>)
    requires Inv(s)
    ensures Chain(s, c) && c[0] == t && Movable(s, c[|c| - 1])
    decreases if t in s.blocked then s.blocked[t].level + 1 else 0
  {
    hide Inv;
    if Movable(s, t) {
      c := [t];
    } else {
      var u := s.holder[s.blocked[t]];
      assert WaitsFor(s, t, u);
      if u in s.blocked { WaitingDescends(s, t, u); }
      var rest := ReachMovable(s, u);
      c := [t] + rest;
      forall k | 0 <= k < |c| - 1 ensures WaitsFor(s, c[k], c[k + 1]) {
        if k > 0 { assert WaitsFor(s, rest[k - 1], rest[k - 1 + 1]); }
      }
    }
  }

  /**
    No reachable state is deadlocked: no threads wait for each other in a circle, and whoever waits,
    waits for one that can move.
  */
  lemma NoDeadlock(tr: seq<State>, es: seq<Event>, i: nat, t: Thread) returns (c: seq<Thread>)
    requires Run(tr, es) && i < |tr|
    ensures Chain(tr[i], c) && c[0] == t && Movable(tr[i], c[|c| - 1])
    ensures !Deadlocked(tr[i])
  {
    hide Run, Inv;
    RunsKeepInv(tr, es, i);
    c := ReachMovable(tr[i], t);
    NoCircle(tr[i]);
  }

  lemma NoCircle(s: State)
    requires Inv(s)
    ensures !Deadlocked(s)
  {
    hide Inv;
    forall cycle | Chain(s, cycle) && |cycle| >= 2 ensures cycle[0] != cycle[|cycle| - 1] {
      if cycle[|cycle| - 1] in s.blocked { ChainDescends(s, cycle, |cycle| - 1); }
      assert WaitsFor(s, cycle[0], cycle[0 + 1]);
    }
  }

  lemma {:induction false} ChainDescends(s: State, c: seq<Thread>, k: nat)
    requires Inv(s) && Chain(s, c) && 1 <= k < |c| && c[k] in s.blocked
    ensures c[0] in s.blocked && s.blocked[c[k]].level < s.blocked[c[0]].level
  {
    hide Inv;
    assert WaitsFor(s, c[k - 1], c[k - 1 + 1]);
    WaitingDescends(s, c[k - 1], c[k]);
    if k == 1 {
    } else {
      ChainDescends(s, c, k - 1);
    }
  }

  // ---- what the steps do ----

  function ThreadOf(e: Event): Thread {
    e.t
  }

  /**
    Acquiring a mutex makes the thread its holder, saves its value and lowers it; unlocking frees it
    and brings the saved value back; nobody else's value changes.
  */
  lemma StepDoes(s: State, e: Event, s': State)
    requires AnyStep(s, e, s')
    ensures forall u :: u != e.t ==> ValueOf(s', u) == ValueOf(s, u) && (u in s'.blocked <==> u in s.blocked)
    ensures e.Acquire? ==>
      var m := s.blocked[e.t];
      && s'.holder == s.holder[m := e.t] && e.t !in s'.blocked
      && ValueOf(s', e.t) == m.level && m in s'.previous && s'.previous[m] == ValueOf(s, e.t)
    ensures e.TryOk? ==>
      && s'.holder == s.holder[e.m := e.t] && e.m !in s.holder
      && ValueOf(s', e.t) == e.m.level && e.m in s'.previous && s'.previous[e.m] == ValueOf(s, e.t)
    ensures e.Unlock? ==>
      && e.m !in s'.holder && s'.holder == s.holder - {e.m}
      && ValueOf(s', e.t) == s.previous[e.m]
    ensures e.Request? ==> e.t in s'.blocked && s'.blocked[e.t] == e.m && s'.holder == s.holder
    ensures e.Throw? || e.TryFail? ==> s' == s
    ensures e.Throw? ==> ValueOf(s, e.t) <= e.m.level
    ensures e.Request? || e.TryOk? || e.TryFail? ==> ValueOf(s, e.t) > e.m.level
  {
    hide Without, StackOf;
  }

  /** A thread can move exactly when some step of it is enabled; one that waits can move exactly by acquiring. */
  lemma MovableIff(s: State, t: Thread)
    ensures Movable(s, t) <==> exists e :: ThreadOf(e) == t && Enabled(s, e)
    ensures t in s.blocked ==> (Movable(s, t) <==> Enabled(s, Acquire(t)))
    ensures t in s.blocked ==> forall e :: ThreadOf(e) == t && Enabled(s, e) ==> e == Acquire(t)
  {
    if t in s.blocked {
      if Movable(s, t) { assert ThreadOf(Acquire(t)) == t && Enabled(s, Acquire(t)); }
    } else {
      var m := Mutex(0, ValueOf(s, t));
      assert ThreadOf(Throw(t, m)) == t && Enabled(s, Throw(t, m));
    }
  }

  // ---- without the LIFO discipline ----

  /** States linked by steps with last-in-first-out unlocking, from `s` on. */
  predicate InOrder(s: State, tr: seq<State>, es: seq<Event>) {
    && |tr| == |es| + 1
    && tr[0] == s
    && forall i :: 0 <= i < |es| ==> Step(tr[i], es[i], tr[i + 1])
  }

  /** No continuation of `s` with in-order unlocking comes to a deadlock. */
  ghost predicate Safe(s: State) {
    forall tr, es :: InOrder(s, tr, es) ==> !Deadlocked(tr[|tr| - 1])
  }

  /**
    Exactly the order decides: an unlock is in order if and only if nothing that can follow it,
    with every later unlock in order, is a deadlock.
  */
  lemma UnlockSafeIff(s: State, t: Thread, m: Mutex)
    requires Inv(s) && Enabled(s, Unlock(t, m))
    ensures Safe(Release(s, t, m)) <==> Lifo(s, t, m)
  {
    hide Inv, Deadlocked, Lifo, Release, Chain, Step;
    if Lifo(s, t, m) {
      ReleaseKeeps(s, t, m);
      InvIsSafe(Release(s, t, m));
    } else {
      var u, tr, es := OutOfOrderOpensDeadlock(s, t, m);
      CircleOfTwo(tr[3], t, u);
    }
  }

  lemma CircleOfTwo(s: State, t: Thread, u: Thread)
    requires WaitsFor(s, t, u) && WaitsFor(s, u, t)
    ensures Deadlocked(s)
  {
    assert Chain(s, [t, u, t]);
  }

  lemma {:induction false} InvAlong(s: State, tr: seq<State>, es: seq<Event>, i: nat)
    requires Inv(s) && InOrder(s, tr, es) && i < |tr|
    ensures Inv(tr[i])
  {
    hide Inv, Step;
    if i == 0 {
    } else {
      InvAlong(s, tr, es, i - 1);
      assert Step(tr[i - 1], es[i - 1], tr[i - 1 + 1]);
      StepKeeps(tr[i - 1], es[i - 1], tr[i]);
    }
  }

  lemma InvIsSafe(s: State)
    requires Inv(s)
    ensures Safe(s)
  {
    hide Inv, Chain;
    forall tr, es | InOrder(s, tr, es) ensures !Deadlocked(tr[|tr| - 1]) {
      InvAlong(s, tr, es, |tr| - 1);
      NoCircle(tr[|tr| - 1]);
    }
  }

  /**
    Every out-of-order unlock opens a deadlock three steps away: a thread `u` that holds nothing
    takes the mutex, `t` waits for it, and `u` waits for the last mutex `t` still holds.
  */
  lemma OutOfOrderOpensDeadlock(s: State, t: Thread, m: Mutex) returns (u: Thread, tr: seq<State>, es: seq<Event>)
    requires Inv(s) && Enabled(s, Unlock(t, m)) && !Lifo(s, t, m)
    ensures InOrder(Release(s, t, m), tr, es) && |es| == 3 && (forall i :: 0 <= i < 3 ==> !es[i].Unlock?)
    ensures WaitsFor(tr[3], t, u) && WaitsFor(tr[3], u, t)
  {
    hide Inv, Release, Step, WaitsFor;
    var top := ReleasedBelow(s, t, m);
    u := FreshThread(s);
    IdleThread(s, u);
    var s1 := Release(s, t, m);
    ReleaseLeaves(s, t, m, u, top);
    var s2, s3, s4 := CloseCircle(s1, t, u, m, top);
    tr, es := [s1, s2, s3, s4], [TryOk(u, m), Request(t, m), Request(u, top)];
  }

  /** The mutex locked last lies below the one unlocked out of order. */
  lemma ReleasedBelow(s: State, t: Thread, m: Mutex) returns (top: Mutex)
    requires Inv(s) && Enabled(s, Unlock(t, m)) && !Lifo(s, t, m)
    ensures top != m && top in s.holder && s.holder[top] == t
    ensures top.level < m.level < s.previous[m] && m.level < ULONG_MAX
    ensures StackOf(s, t) != []
  {
    hide ValueBelow;
    var st := StackOf(s, t);
    assert StackOk(s, t) && m in st;
    LevelsBelowMax(s, t);
    var k :| 0 <= k < |st| && st[k] == m;
    top := st[|st| - 1];
    assert top.level < st[k].level;
  }

  lemma FreshThread(s: State) returns (u: Thread)
    ensures u !in s.stack && u !in s.blocked
  {
    u := Above(s.stack.Keys + s.blocked.Keys);
  }

  lemma {:induction false} Above(ts: set<Thread>) returns (u: Thread)
    ensures forall t :: t in ts ==> t < u
  {
    if ts == {} {
      u := 0;
    } else {
      var t :| t in ts;
      var v := Above(ts - {t});
      u := if v > t then v else t + 1;
      assert forall x :: x in ts ==> x == t || x in ts - {t};
    }
  }

  lemma IdleThread(s: State, u: Thread)
    requires Inv(s) && u !in s.stack
    ensures ValueOf(s, u) == ULONG_MAX && StackOf(s, u) == []
  {
    assert StackOk(s, u);
  }

  lemma ReleaseLeaves(s: State, t: Thread, m: Mutex, u: Thread, top: Mutex)
    requires Enabled(s, Unlock(t, m)) && u != t && top != m && top in s.holder && s.holder[top] == t
    ensures var s1 := Release(s, t, m);
      && m !in s1.holder && top in s1.holder && s1.holder[top] == t && s1.blocked == s.blocked
      && ValueOf(s1, t) == s.previous[m] && ValueOf(s1, u) == ValueOf(s, u)
  {
    hide Without;
  }

  /** Two threads that each come to wait for what the other holds. */
  lemma CloseCircle(s1: State, t: Thread, u: Thread, m: Mutex, top: Mutex) returns (s2: State, s3: State, s4: State)
    requires t != u && t !in s1.blocked && u !in s1.blocked && top.level < m.level
    requires m !in s1.holder && top in s1.holder && s1.holder[top] == t
    requires ValueOf(s1, t) > m.level && ValueOf(s1, u) > m.level
    ensures Step(s1, TryOk(u, m), s2) && Step(s2, Request(t, m), s3) && Step(s3, Request(u, top), s4)
    ensures WaitsFor(s4, t, u) && WaitsFor(s4, u, t)
  {
    hide Without, StackOf;
    s2 := Take(s1, u, m);
    s3 := s2.(blocked := s2.blocked[t := m]);
    s4 := s3.(blocked := s3.blocked[u := top]);
  }

  predicate AnyRun(tr: seq<State>, es: seq<Event>) {
    && |tr| == |es| + 1
    && tr[0] == Init()
    && forall i :: 0 <= i < |es| ==> AnyStep(tr[i], es[i], tr[i + 1])
  }

  /** So for any two levels a run with one out-of-order unlock ends in a deadlock. */
  lemma OutOfOrderDeadlock(a: Mutex, b: Mutex) returns (tr: seq<State>, es: seq<Event>)
    requires b.level < a.level < ULONG_MAX
    ensures AnyRun(tr, es) && Deadlocked(tr[|tr| - 1])
  {
    hide AnyStep, Step, Deadlocked, Inv, Lifo, Release;
    var s1, s2 := LockBoth(a, b);
    var u, tr3, es3 := OutOfOrderOpensDeadlock(s2, 1, a);
    CircleOfTwo(tr3[3], 1, u);
    tr, es := [Init(), s1, s2] + tr3, [TryOk(1, a), TryOk(1, b), Unlock(1, a)] + es3;
    forall i | 0 <= i < |es| ensures AnyStep(tr[i], es[i], tr[i + 1]) {
      if i == 2 {
        ReleaseIsStep(s2, 1, a);
      } else if i >= 3 {
        StepIsAny(tr3[i - 3], es3[i - 3], tr3[i - 3 + 1]);
      }
    }
  }

  lemma ReleaseIsStep(s: State, t: Thread, m: Mutex)
    requires Enabled(s, Unlock(t, m))
    ensures AnyStep(s, Unlock(t, m), Release(s, t, m))
  {}

  lemma StepIsAny(s: State, e: Event, s': State)
    requires Step(s, e, s')
    ensures AnyStep(s, e, s')
  {}

  lemma LockBoth(a: Mutex, b: Mutex) returns (s1: State, s2: State)
    requires b.level < a.level < ULONG_MAX
    ensures AnyStep(Init(), TryOk(1, a), s1) && AnyStep(s1, TryOk(1, b), s2)
    ensures Inv(s2) && Enabled(s2, Unlock(1, a)) && !Lifo(s2, 1, a)
  {
    hide Inv;
    s1 := Take(Init(), 1, a);
    s2 := Take(s1, 1, b);
    InitInv();
    TakeKeeps(Init(), 1, a);
    TakeKeeps(s1, 1, b);
  }

  // ---- the objects the methods update in place ----

  class LocalValue {
    var value: nat

    constructor ()
      ensures value == ULONG_MAX
    {
      value := ULONG_MAX;
    }
  }

  datatype Outcome = Violation | Locked | Refused | Blocked

  /** The mutex object; `locked` stands for the state of the internal mutex. */
  class HMutex {
    const level: nat
    var previous: nat
    var locked: bool

    constructor (level: nat)
      ensures this.level == level && previous == 0 && !locked
    {
      this.level, previous, locked := level, 0, false;
    }

    /**
      `lock`: the check comes first, so a violation throws on a held mutex, too. A thread that passes
      it sits in the internal mutex (Blocked, nothing changed yet) until that is free.
    */
    method Lock(local: LocalValue) returns (r: Outcome)
      modifies this`previous, this`locked, local
      ensures r == if old(local.value) <= level then Violation else if old(locked) then Blocked else Locked
      ensures r != Locked ==> locked == old(locked) && previous == old(previous) && local.value == old(local.value)
      ensures r == Locked ==> locked && previous == old(local.value) && local.value == level < previous
    {
      if local.value <= level {
        return Violation;
      }
      if locked {
        return Blocked;
      }
      locked := true;
      previous := local.value;
      local.value := level;
      r := Locked;
    }

    /** `try_lock`: a refusal changes nothing. The internal mutex may refuse although it is free (`spurious`). */
    method TryLock(local: LocalValue, spurious: bool) returns (r: Outcome)
      modifies this`previous, this`locked, local
      ensures r == if old(local.value) <= level then Violation else if old(locked) || spurious then Refused else Locked
      ensures r == Locked ==> locked && previous == old(local.value) && local.value == level < previous
      ensures r != Locked ==> locked == old(locked) && previous == old(previous) && local.value == old(local.value)
    {
      if local.value <= level {
        return Violation;
      }
      if locked || spurious {
        return Refused;
      }
      locked := true;
      previous := local.value;
      local.value := level;
      r := Locked;
    }

    method Unlock(local: LocalValue)
      requires locked
      modifies this`locked, local
      ensures !locked && local.value == previous
    {
      local.value := previous;
      locked := false;
    }

    /** A thread that locks a mutex it holds by lock is refused by the check instead of waiting for itself. */
    method LockTwice(local: LocalValue) returns (r: Outcome, again: Outcome)
      modifies this`previous, this`locked, local
      ensures r == Locked ==> again == Violation && locked && previous == old(local.value) && local.value == level
      ensures r != Locked ==> again == r
    {
      r := Lock(local);
      again := Lock(local);
    }

    /** Locking and unlocking in pairs puts the thread's value back. */
    method LockUnlock(local: LocalValue) returns (r: Outcome)
      modifies this`previous, this`locked, local
      ensures local.value == old(local.value) && locked == old(locked)
    {
      r := Lock(local);
      if r == Locked {
        Unlock(local);
      }
    }
  }
}
