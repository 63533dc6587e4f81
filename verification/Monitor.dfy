/**
  Queues shared under a mutex and condition variables: the C++ `ThreadSafeQueue`, the descriptor
  ring of serv08/pthread08, and the bounded buffer of threads/example03. One transition system
  covers the three; they differ in how items are stored and in who waits for what.
*/
module Monitor {
  import opened Rings

  const MAXNCLI := 32
  const BUFFSIZE := 10

  // ---- storage ----

  datatype Store =
    | Queue(items: seq<int>)                                       // std::queue
    | Clifd(slots: seq<int>, get: nat, put: nat)                   // clifd[], iget, iput
    | Buffer(slots: seq<int>, get: nat, put: nat, nitems: nat)     // b_buf[], b_nextget, b_nextput, b_nitems

  predicate StoreOk(st: Store) {
    match st
    case Queue(_) => true
    case Clifd(slots, get, put) => |slots| == MAXNCLI && get < MAXNCLI && put < MAXNCLI
    case Buffer(slots, get, put, n) =>
      |slots| == BUFFSIZE && get < BUFFSIZE && n <= BUFFSIZE && put == Wrap(get + n, BUFFSIZE)
  }

  /** Cyclic distance from `get` to `put`. */
  function Distance(get: nat, put: nat, n: nat): nat
    requires get < n && put < n
  {
    if get <= put then put - get else n - get + put
  }

  /** The items in order of arrival: what the indices mean. */
  function Items(st: Store): seq<int>
    requires StoreOk(st)
  {
    match st
    case Queue(items) => items
    case Clifd(slots, get, put) => Window(slots, get, Distance(get, put, MAXNCLI))
    case Buffer(slots, get, put, n) => Window(slots, get, n)
  }

  /** The test before taking, as the source writes it. */
  predicate Empty(st: Store) {
    match st
    case Queue(items) => items == []
    case Clifd(_, get, put) => get == put
    case Buffer(_, _, _, n) => n <= 0
  }

  /** The test before putting; only example03 has one. */
  predicate Full(st: Store) {
    st.Buffer? && st.nitems >= BUFFSIZE
  }

  function PutItem(st: Store, v: int): Store
    requires StoreOk(st) && !Full(st)
  {
    match st
    case Queue(items) => Queue(items + [v])
    case Clifd(slots, get, put) => Clifd(slots[put := v], get, if put + 1 == MAXNCLI then 0 else put + 1)
    case Buffer(slots, get, put, n) => Buffer(slots[put := v], get, if put + 1 >= BUFFSIZE then 0 else put + 1, n + 1)
  }

  /** serv08 quits when the ring has run into itself. */
  predicate Overrun(st: Store) {
    st.Clifd? && st.put == st.get
  }

  function Front(st: Store): int
    requires StoreOk(st) && !Empty(st)
  {
    match st
    case Queue(items) => items[0]
    case Clifd(slots, get, put) => slots[get]
    case Buffer(slots, get, put, n) => slots[get]
  }

  function TakeItem(st: Store): Store
    requires StoreOk(st) && !Empty(st)
  {
    match st
    case Queue(items) => Queue(items[1..])
    case Clifd(slots, get, put) => Clifd(slots, if get + 1 == MAXNCLI then 0 else get + 1, put)
    case Buffer(slots, get, put, n) => Buffer(slots, if get + 1 >= BUFFSIZE then 0 else get + 1, put, n - 1)
  }

  /** Putting appends, unless it fills the ring to the point where it looks empty; that is when serv08 quits. */
  lemma PutAppends(st: Store, v: int)
    requires StoreOk(st) && !Full(st)
    ensures StoreOk(PutItem(st, v))
    ensures Overrun(PutItem(st, v)) <==> st.Clifd? && |Items(st)| == MAXNCLI - 1
    ensures !Overrun(PutItem(st, v)) ==> Items(PutItem(st, v)) == Items(st) + [v]
    ensures PutItem(st, v).Queue? == st.Queue? && PutItem(st, v).Clifd? == st.Clifd?
    ensures st.Buffer? ==> PutItem(st, v).nitems == st.nitems + 1 <= BUFFSIZE
  {
    match st
    case Queue(_) =>
    case Clifd(slots, get, put) =>
      var d := Distance(get, put, MAXNCLI);
      assert put == Wrap(get + d, MAXNCLI);
      WindowPut(slots, get, d, v);
    case Buffer(slots, get, put, n) =>
      WindowPut(slots, get, n, v);
  }

  /** Taking removes the oldest item; the emptiness test tells empty from not empty. */
  lemma TakeRemoves(st: Store)
    requires StoreOk(st)
    ensures Empty(st) <==> Items(st) == []
    ensures !Empty(st) ==>
      && StoreOk(TakeItem(st)) && Front(st) == Items(st)[0] && Items(TakeItem(st)) == Items(st)[1..]
      && TakeItem(st).Queue? == st.Queue? && TakeItem(st).Clifd? == st.Clifd?
      && (st.Buffer? ==> TakeItem(st).nitems == st.nitems - 1)
  {
    if !Empty(st) {
      match st
      case Queue(_) =>
      case Clifd(slots, get, put) => WindowTake(slots, get, Distance(get, put, MAXNCLI));
      case Buffer(slots, get, put, n) => WindowTake(slots, get, n);
    }
  }

  // ---- the code that runs inside the critical sections ----

  /** clifd[], iget, iput. */
  class ClientRing {
    var clifd: array<int>
    var iget: nat
    var iput: nat

    ghost predicate Valid()
      reads this
    {
      clifd.Length == MAXNCLI && iget < MAXNCLI && iput < MAXNCLI
    }

    ghost function Val(): Store
      requires Valid()
      reads this, clifd
    {
      Clifd(clifd[..], iget, iput)
    }

    constructor ()
      ensures Valid() && fresh(clifd) && Items(Val()) == []
    {
      clifd := new int[MAXNCLI];
      iget, iput := 0, 0;
    }

    method Add(connfd: int) returns (quit: bool)
      requires Valid()
      modifies this`iput, clifd
      ensures Valid() && Val() == PutItem(old(Val()), connfd) && quit == Overrun(Val())
    {
      clifd[iput] := connfd;
      iput := iput + 1;
      if iput == MAXNCLI {
        iput := 0;
      }
      quit := iput == iget;
    }

    method Remove() returns (connfd: int)
      requires Valid() && !Empty(Val())
      modifies this`iget
      ensures Valid() && connfd == Front(old(Val())) && Val() == TakeItem(old(Val()))
    {
      connfd := clifd[iget];
      iget := iget + 1;
      if iget == MAXNCLI {
        iget := 0;
      }
    }
  }

  /** struct buf_t. */
  class BoundedBuffer {
    var buf: array<int>
    var nitems: nat
    var nextget: nat
    var nextput: nat

    ghost predicate Valid()
      reads this, buf
    {
      StoreOk(Val())
    }

    ghost function Val(): Store
      reads this, buf
    {
      Buffer(buf[..], nextget, nextput, nitems)
    }

    constructor ()
      ensures Valid() && fresh(buf) && Items(Val()) == []
    {
      buf := new int[BUFFSIZE];
      nitems, nextget, nextput := 0, 0, 0;
    }

    method Add(val: int)
      requires Valid() && !Full(Val())
      modifies this`nextput, this`nitems, buf
      ensures Valid() && Val() == PutItem(old(Val()), val)
    {
      buf[nextput] := val;
      nextput := nextput + 1;
      if nextput >= BUFFSIZE {
        nextput := 0;
      }
      nitems := nitems + 1;
    }

    method Remove() returns (val: int)
      requires Valid() && !Empty(Val())
      modifies this`nextget, this`nitems
      ensures Valid() && val == Front(old(Val())) && Val() == TakeItem(old(Val()))
    {
      val := buf[nextget];
      nextget := nextget + 1;
      if nextget >= BUFFSIZE {
        nextget := 0;
      }
      nitems := nitems - 1;
    }
  }

  /** `ThreadSafeQueue`: the std::queue and the bodies of its methods under the lock. */
  class ThreadSafeQueue {
    var data: seq<int>

    ghost function Val(): Store
      reads this
    {
      Queue(data)
    }

    constructor ()
      ensures Items(Val()) == []
    {
      data := [];
    }

    method Push(v: int)
      modifies this
      ensures Val() == PutItem(old(Val()), v)
    {
      data := data + [v];
    }

    method TryPop() returns (ok: bool, v: int)
      modifies this
      ensures ok <==> !Empty(old(Val()))
      ensures ok ==> v == Front(old(Val())) && Val() == TakeItem(old(Val()))
      ensures !ok ==> Val() == old(Val())
    {
      if data == [] {
        return false, 0;
      }
      ok, v := true, data[0];
      data := data[1..];
    }
  }

  // ---- threads, mutex and condition variables ----

  /** Who holds the mutex, and how far its critical section has got. */
  datatype Owner =
    | Nobody
    | Testing(c: nat)          // a consumer about to test for an item
    | Taken(c: nat)            // it has taken one and is about to signal producers
    | Leaving
    | Placing(p: nat, v: int)  // a producer about to test for room and put
    | Placed(p: nat)           // it has put its item and is about to signal consumers

  /**
    Threads are named by numbers, producers and consumers apart. A woken thread has been taken off
    the condition variable, by a signal or spuriously, and has not tested its condition since.
  */
  datatype State = State(
    store: Store, puts: seq<int>, takes: seq<int>,
    sleepC: set<nat>, wokenC: set<nat>, sleepP: set<nat>, wokenP: set<nat>,
    owner: Owner, exited: bool)

  datatype Event =
    | LockC(c: nat) | WaitC | TryFails | Take | SignalP(who: set<nat>) | Unlock
    | LockP(p: nat, v: int) | WaitP | Put | SignalC(who: set<nat>)
    | SpuriousC(c: nat) | SpuriousP(p: nat)

  /** A signal wakes at least one sleeper if there is one. */
  predicate Wakes(sleepers: set<nat>, who: set<nat>) {
    who <= sleepers && (sleepers != {} ==> who != {})
  }

  predicate Enabled(s: State, e: Event)
    requires StoreOk(s.store)
  {
    !s.exited && match e
    case LockC(c) => s.owner.Nobody? && c !in s.sleepC
    case WaitC => s.owner.Testing? && Empty(s.store)
    case TryFails => s.owner.Testing? && Empty(s.store) && s.store.Queue? && s.owner.c !in s.wokenC
    case Take => s.owner.Testing? && !Empty(s.store)
    case SignalP(who) => s.owner.Taken? && if s.store.Buffer? then Wakes(s.sleepP, who) else who == {}
    case Unlock => s.owner.Leaving?
    case LockP(p, v) => s.owner.Nobody? && p !in s.sleepP
    case WaitP => s.owner.Placing? && Full(s.store)
    case Put => s.owner.Placing? && !Full(s.store)
    case SignalC(who) => s.owner.Placed? && Wakes(s.sleepC, who)
    case SpuriousC(c) => c in s.sleepC
    case SpuriousP(p) => p in s.sleepP
  }

  function Next(s: State, e: Event): State
    requires StoreOk(s.store) && Enabled(s, e)
  {
    match e
    case LockC(c) => s.(owner := Testing(c))
    case WaitC => s.(owner := Nobody, sleepC := s.sleepC + {s.owner.c}, wokenC := s.wokenC - {s.owner.c})
    case TryFails => s.(owner := Leaving)
    case Take => s.(owner := Taken(s.owner.c), wokenC := s.wokenC - {s.owner.c},
                    takes := s.takes + [Front(s.store)], store := TakeItem(s.store))
    case SignalP(who) => s.(owner := Leaving, sleepP := s.sleepP - who, wokenP := s.wokenP + who)
    case Unlock => s.(owner := Nobody)
    case LockP(p, v) => s.(owner := Placing(p, v))
    case WaitP => s.(owner := Nobody, sleepP := s.sleepP + {s.owner.p}, wokenP := s.wokenP - {s.owner.p})
    case Put => s.(owner := Placed(s.owner.p), wokenP := s.wokenP - {s.owner.p},
                   puts := s.puts + [s.owner.v], store := PutItem(s.store, s.owner.v),
                   exited := Overrun(PutItem(s.store, s.owner.v)))
    case SignalC(who) => s.(owner := Leaving, sleepC := s.sleepC - who, wokenC := s.wokenC + who)
    case SpuriousC(c) => s.(sleepC := s.sleepC - {c}, wokenC := s.wokenC + {c})
    case SpuriousP(p) => s.(sleepP := s.sleepP - {p}, wokenP := s.wokenP + {p})
  }

  // ---- what every step keeps ----

  function Room(st: Store): int
    requires StoreOk(st) && st.Buffer?
  {
    BUFFSIZE - |Items(st)|
  }

  /** No item has been stranded: while a consumer sleeps, every item has a woken consumer or a pending signal. */
  predicate ItemsClaimed(s: State)
    requires StoreOk(s.store)
  {
    s.sleepC != {} ==> |Items(s.store)| <= |s.wokenC| + (if s.owner.Placed? then 1 else 0)
  }

  /** The same for the free places of the bounded buffer and the producers. */
  predicate RoomClaimed(s: State)
    requires StoreOk(s.store)
  {
    s.sleepP != {} ==> s.store.Buffer? && Room(s.store) <= |s.wokenP| + (if s.owner.Taken? then 1 else 0)
  }

  predicate Shape(s: State) {
    && s.sleepC !! s.wokenC && s.sleepP !! s.wokenP
    && (s.owner.Testing? ==> s.owner.c !in s.sleepC)
    && (s.owner.Placing? ==> s.owner.p !in s.sleepP)
  }

  predicate Fifo(s: State)
    requires StoreOk(s.store)
  {
    && s.puts == s.takes + Items(s.store)
    && (s.store.Clifd? ==> |Items(s.store)| <= MAXNCLI - 1)
    && (s.store.Buffer? ==> |Items(s.store)| == s.store.nitems <= BUFFSIZE)
  }

  predicate Inv(s: State) {
    StoreOk(s.store) && Shape(s) && (!s.exited ==> Fifo(s) && ItemsClaimed(s) && RoomClaimed(s))
  }

  lemma Fewer(x: set<nat>, c: nat)
    ensures |x - {c}| == if c in x then |x| - 1 else |x|
  {
    if c !in x { assert x - {c} == x; }
  }

  lemma Added(x: set<nat>, who: set<nat>)
    requires x !! who
    ensures |x + who| == |x| + |who|
    ensures who != {} ==> |who| >= 1
  {}

  lemma TakeFifo(s: State)
    requires Inv(s) && Enabled(s, Take)
    ensures StoreOk(TakeItem(s.store)) && Fifo(Next(s, Take)) && |Items(TakeItem(s.store))| == |Items(s.store)| - 1
  {
    hide Items, TakeItem, Front, StoreOk, ItemsClaimed, RoomClaimed, Shape;
    var items := Items(s.store);
    TakeRemoves(s.store);
    assert s.takes + items == (s.takes + [items[0]]) + items[1..];
  }

  lemma TakeClaims(s: State)
    requires Inv(s) && Enabled(s, Take)
    ensures StoreOk(TakeItem(s.store)) && ItemsClaimed(Next(s, Take))
  {
    hide Items, TakeItem, Front, StoreOk, Fifo, Shape, RoomClaimed;
    TakeFifo(s);
    Fewer(s.wokenC, s.owner.c);
  }

  lemma TakeKeeps(s: State)
    requires Inv(s) && Enabled(s, Take)
    ensures Inv(Next(s, Take))
  {
    hide Items, TakeItem, Front, StoreOk, Fifo, ItemsClaimed;
    TakeFifo(s);
    TakeRemoves(s.store);
    TakeClaims(s);
  }

  lemma PutFifo(s: State)
    requires Inv(s) && Enabled(s, Put)
    ensures StoreOk(PutItem(s.store, s.owner.v))
    ensures !Next(s, Put).exited ==>
      Fifo(Next(s, Put)) && |Items(PutItem(s.store, s.owner.v))| == |Items(s.store)| + 1
  {
    hide Items, PutItem, StoreOk, ItemsClaimed, RoomClaimed, Shape, Overrun;
    var items, v := Items(s.store), s.owner.v;
    PutAppends(s.store, v);
    assert (s.takes + items) + [v] == s.takes + (items + [v]);
  }

  lemma PutKeeps(s: State)
    requires Inv(s) && Enabled(s, Put)
    ensures Inv(Next(s, Put))
  {
    hide Items, PutItem, StoreOk, Fifo, Overrun;
    PutFifo(s);
    PutAppends(s.store, s.owner.v);
    Fewer(s.wokenP, s.owner.p);
  }

  lemma EmptyFacts(st: Store)
    requires StoreOk(st) && Empty(st)
    ensures |Items(st)| == 0
  {
    TakeRemoves(st);
  }

  lemma WaitCKeeps(s: State)
    requires Inv(s) && Enabled(s, WaitC)
    ensures Inv(Next(s, WaitC))
  {
    hide Items, TakeItem, Front, PutItem, StoreOk;
    EmptyFacts(s.store);
  }

  lemma WaitPKeeps(s: State)
    requires Inv(s) && Enabled(s, WaitP)
    ensures Inv(Next(s, WaitP))
  {
    hide Items, TakeItem, Front, PutItem, StoreOk;
  }

  lemma SignalCKeeps(s: State, who: set<nat>)
    requires Inv(s) && Enabled(s, SignalC(who))
    ensures Inv(Next(s, SignalC(who)))
  {
    hide Items, TakeItem, Front, PutItem, StoreOk, Empty, Full;
    Added(s.wokenC, who);
  }

  lemma SignalPKeeps(s: State, who: set<nat>)
    requires Inv(s) && Enabled(s, SignalP(who))
    ensures Inv(Next(s, SignalP(who)))
  {
    hide Items, TakeItem, Front, PutItem, StoreOk, Empty, Full;
    Added(s.wokenP, who);
    assert s.wokenP + {} == s.wokenP && s.sleepP - {} == s.sleepP;
  }

  lemma SpuriousCKeeps(s: State, c: nat)
    requires Inv(s) && Enabled(s, SpuriousC(c))
    ensures Inv(Next(s, SpuriousC(c)))
  {
    hide Items, TakeItem, Front, PutItem, StoreOk, Empty, Full;
    Added(s.wokenC, {c});
  }

  lemma SpuriousPKeeps(s: State, p: nat)
    requires Inv(s) && Enabled(s, SpuriousP(p))
    ensures Inv(Next(s, SpuriousP(p)))
  {
    hide Items, TakeItem, Front, PutItem, StoreOk, Empty, Full;
    Added(s.wokenP, {p});
  }

  lemma LockKeeps(s: State, e: Event)
    requires Inv(s) && Enabled(s, e) && (e.LockC? || e.LockP? || e.Unlock? || e.TryFails?)
    ensures Inv(Next(s, e))
  {
    hide Items, TakeItem, Front, PutItem, StoreOk, Empty, Full;
  }

  lemma StepKeeps(s: State, e: Event)
    requires Inv(s) && Enabled(s, e)
    ensures Inv(Next(s, e))
  {
    hide Inv;
    match e
    case Take => TakeKeeps(s);
    case Put => PutKeeps(s);
    case WaitC => WaitCKeeps(s);
    case WaitP => WaitPKeeps(s);
    case SignalC(who) => SignalCKeeps(s, who);
    case SignalP(who) => SignalPKeeps(s, who);
    case LockC(_) => LockKeeps(s, e);
    case LockP(_, _) => LockKeeps(s, e);
    case Unlock => LockKeeps(s, e);
    case TryFails => LockKeeps(s, e);
    case SpuriousC(c) => SpuriousCKeeps(s, c);
    case SpuriousP(p) => SpuriousPKeeps(s, p);
  }

  // ---- every run ----

  function Init(store: Store): State {
    State(store, [], [], {}, {}, {}, {}, Nobody, false)
  }

  predicate Stepped(s: State, e: Event, s': State) {
    StoreOk(s.store) && Enabled(s, e) && s' == Next(s, e)
  }

  /** A run of any of the three programs: an empty store and any interleaving of any threads. */
  predicate Run(tr: seq<State>, es: seq<Event>) {
    && |tr| == |es| + 1
    && StoreOk(tr[0].store) && Items(tr[0].store) == [] && tr[0] == Init(tr[0].store)
    && forall i :: 0 <= i < |es| ==> Stepped(tr[i], es[i], tr[i + 1])
  }

  lemma {:induction false} RunsKeepInv(tr: seq<State>, es: seq<Event>, k: nat)
    requires Run(tr, es) && k < |tr|
    ensures Inv(tr[k])
  {
    hide Next, Enabled;
    if k == 0 {
      TakeRemoves(tr[0].store);
      assert tr[0].store.Buffer? ==> tr[0].store.nitems == |Items(tr[0].store)|;
    } else {
      hide Inv;
      RunsKeepInv(tr, es, k - 1);
      assert Stepped(tr[k - 1], es[k - 1], tr[k - 1 + 1]);
      StepKeeps(tr[k - 1], es[k - 1]);
    }
  }

  /** Each value put is taken at most once and in order, and what has not been taken is exactly what the store holds. */
  lemma FirstInFirstOut(tr: seq<State>, es: seq<Event>, k: nat)
    requires Run(tr, es) && k < |tr| && !tr[k].exited
    ensures StoreOk(tr[k].store)
    ensures tr[k].takes <= tr[k].puts && Items(tr[k].store) == tr[k].puts[|tr[k].takes|..]
    ensures tr[k].store.Clifd? ==> |tr[k].puts| - |tr[k].takes| <= MAXNCLI - 1
    ensures tr[k].store.Buffer? ==> |tr[k].puts| - |tr[k].takes| == tr[k].store.nitems <= BUFFSIZE
  {
    hide Run, Items;
    RunsKeepInv(tr, es, k);
  }

  /** serv08 quits exactly when a 32nd unserved descriptor arrives. */
  lemma QuitsWhenFull(tr: seq<State>, es: seq<Event>, k: nat)
    requires Run(tr, es) && k < |es| && es[k] == Put
    ensures tr[k + 1].exited <==> tr[k].store.Clifd? && |tr[k].puts| - |tr[k].takes| == MAXNCLI - 1
  {
    hide Items, PutItem, Next, Enabled;
    RunsKeepInv(tr, es, k);
    assert Stepped(tr[k], es[k], tr[k + 1]);
    PutSets(tr[k]);
    PutAppends(tr[k].store, tr[k].owner.v);
  }

  lemma PutSets(s: State)
    requires StoreOk(s.store) && Enabled(s, Put)
    ensures s.owner.Placing? && !Full(s.store) && !s.exited
      && Next(s, Put).exited == Overrun(PutItem(s.store, s.owner.v))
  {}

  /**
    No lost wake-up: with the mutex free, a sleeping consumer means no more items than woken
    consumers, and likewise for producers and room.
  */
  lemma NoLostWakeup(tr: seq<State>, es: seq<Event>, k: nat)
    requires Run(tr, es) && k < |tr| && !tr[k].exited && tr[k].owner.Nobody?
    ensures StoreOk(tr[k].store)
    ensures tr[k].sleepC != {} ==> |Items(tr[k].store)| <= |tr[k].wokenC|
    ensures tr[k].sleepP != {} ==> tr[k].store.Buffer? && Room(tr[k].store) <= |tr[k].wokenP|
  {
    hide Run, Items;
    RunsKeepInv(tr, es, k);
  }

  /**
    So there is no state in which everybody sleeps: with the mutex free and nobody woken, sleeping
    consumers and sleeping producers exclude each other, and no consumer sleeps on an item.
  */
  lemma NotAllAsleep(tr: seq<State>, es: seq<Event>, k: nat)
    requires Run(tr, es) && k < |tr| && !tr[k].exited && tr[k].owner.Nobody?
    requires tr[k].wokenC == {} && tr[k].wokenP == {}
    ensures StoreOk(tr[k].store)
    ensures tr[k].sleepC == {} || tr[k].sleepP == {}
    ensures tr[k].sleepC != {} ==> Items(tr[k].store) == []
    ensures tr[k].sleepP != {} ==> tr[k].store.Buffer? && |Items(tr[k].store)| == BUFFSIZE
  {
    hide Run, Items;
    RunsKeepInv(tr, es, k);
  }

  // ---- what the steps of a run do ----

  /** Who has the mutex after a step, and who sleeps and is woken. */
  lemma MutexAndSleepers(tr: seq<State>, es: seq<Event>, k: nat)
    requires Run(tr, es) && k < |es|
    ensures var s, e, s' := tr[k], es[k], tr[k + 1];
      match e
      case LockC(c) => s.owner == Nobody && s'.owner == Testing(c) && SameSleepers(s, s')
      case LockP(p, v) => s.owner == Nobody && s'.owner == Placing(p, v) && SameSleepers(s, s')
      case Unlock => s.owner == Leaving && s'.owner == Nobody && SameSleepers(s, s')
      case TryFails => s'.owner == Leaving && SameSleepers(s, s')
      case WaitC =>
        s.owner.Testing? && s'.owner == Nobody && s'.sleepC == s.sleepC + {s.owner.c} && s'.sleepP == s.sleepP
      case WaitP =>
        s.owner.Placing? && s'.owner == Nobody && s'.sleepP == s.sleepP + {s.owner.p} && s'.sleepC == s.sleepC
      case Take => s.owner.Testing? && s'.owner == Taken(s.owner.c) && s'.sleepC == s.sleepC && s'.sleepP == s.sleepP
      case Put => s.owner.Placing? && s'.owner == Placed(s.owner.p) && s'.sleepC == s.sleepC && s'.sleepP == s.sleepP
      case SignalC(who) =>
        && s.owner.Placed? && s'.owner == Leaving && (s.sleepC != {} ==> who != {})
        && s'.sleepC == s.sleepC - who && s'.wokenC == s.wokenC + who && s'.sleepP == s.sleepP
      case SignalP(who) =>
        && s.owner.Taken? && s'.owner == Leaving && (s.store.Buffer? && s.sleepP != {} ==> who != {})
        && s'.sleepP == s.sleepP - who && s'.wokenP == s.wokenP + who && s'.sleepC == s.sleepC
      case SpuriousC(c) => s'.owner == s.owner && s'.sleepC == s.sleepC - {c} && s'.wokenC == s.wokenC + {c}
      case SpuriousP(p) => s'.owner == s.owner && s'.sleepP == s.sleepP - {p} && s'.wokenP == s.wokenP + {p}
  {
    assert Stepped(tr[k], es[k], tr[k + 1]);
    hide Items, PutItem, TakeItem, Front, StoreOk;
  }

  predicate SameSleepers(s: State, s': State) {
    s'.sleepC == s.sleepC && s'.wokenC == s.wokenC && s'.sleepP == s.sleepP && s'.wokenP == s.wokenP
  }

  /**
    A put stores its producer's value behind the others, a take brings the oldest one, and no other
    step moves anything.
  */
  lemma StoreMoves(tr: seq<State>, es: seq<Event>, k: nat)
    requires Run(tr, es) && k < |es|
    ensures var s, e, s' := tr[k], es[k], tr[k + 1];
      && StoreOk(s.store) && StoreOk(s'.store)
      && (e == Put ==> s.owner.Placing? && s'.puts == s.puts + [s.owner.v] && s'.takes == s.takes)
      && (e == Put && !s'.exited ==> s.owner.Placing? && Items(s'.store) == Items(s.store) + [s.owner.v])
      && (e == Take ==> Items(s.store) != [] && Items(s'.store) == Items(s.store)[1..])
      && (e == Take ==> Items(s.store) != [] && s'.puts == s.puts && s'.takes == s.takes + [Items(s.store)[0]])
      && (e != Put && e != Take ==> s'.puts == s.puts && s'.takes == s.takes && s'.store == s.store && !s'.exited)
  {
    RunsKeepInv(tr, es, k);
    RunsKeepInv(tr, es, k + 1);
    assert Stepped(tr[k], es[k], tr[k + 1]);
    hide Items, PutItem, TakeItem, Front, StoreOk, Fifo, Shape, ItemsClaimed, RoomClaimed;
    if es[k] == Put { PutAppends(tr[k].store, tr[k].owner.v); }
    if es[k] == Take { TakeRemoves(tr[k].store); }
  }

  /** Whoever has the mutex can go on, and with the mutex free every thread that is not asleep can take it. */
  lemma NobodyIsStuck(tr: seq<State>, es: seq<Event>, k: nat) returns (e: Event)
    requires Run(tr, es) && k < |tr| && !tr[k].exited
    ensures StoreOk(tr[k].store)
    ensures tr[k].owner != Nobody ==> Enabled(tr[k], e) && !e.SpuriousC? && !e.SpuriousP?
    ensures tr[k].owner == Nobody ==> forall c :: c !in tr[k].sleepC ==> Enabled(tr[k], LockC(c))
    ensures tr[k].owner == Nobody ==> forall p, v :: p !in tr[k].sleepP ==> Enabled(tr[k], LockP(p, v))
  {
    RunsKeepInv(tr, es, k);
    hide Items, PutItem, TakeItem, Front, StoreOk, Fifo, Shape, ItemsClaimed, RoomClaimed, Empty, Full;
    var s := tr[k];
    match s.owner
    case Nobody => e := Unlock;
    case Testing(_) => e := if Empty(s.store) then WaitC else Take;
    case Taken(_) => e := SignalP(if s.store.Buffer? then s.sleepP else {});
    case Leaving => e := Unlock;
    case Placing(_, _) => e := if Full(s.store) then WaitP else Put;
    case Placed(_) => e := SignalC(s.sleepC);
  }
}
