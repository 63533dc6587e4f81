/**
  sigio/dgecho01: a SIGIO handler reads datagrams into a ring of eight that the main loop echoes.
  Signals fall anywhere the main loop has them unblocked.
*/
module SigioQueue {
  import opened Rings

  const QSIZE := 8

  type Datagram = seq<int>

  /** Between which two statements the main loop is. */
  datatype Pc =
    | Start      // before SIGIO is first blocked
    | Head       // blocked, testing nqueue; sigsuspend if there is nothing
    | Unblocked  // about to Sendto
    | Sending    // inside Sendto
    | Sent       // about to advance iget
    | Advanced   // about to block
    | Blocked    // about to load nqueue
    | Loaded     // about to store it, one less

  /**
    The static variables. `loaded` is nqueue as loaded by a decrement in progress, `begun` what
    Sendto was given when it began; `arrived` and `echoed` are all datagrams ever read and sent.
  */
  datatype Echo = Echo(
    dg: seq<Datagram>, cntread: seq<nat>, iget: nat, iput: nat, nqueue: nat, loaded: nat,
    pc: Pc, begun: Datagram, arrived: seq<Datagram>, echoed: seq<Datagram>, quit: bool)

  function Init(): Echo {
    Echo(seq(QSIZE, _ => []), seq(QSIZE + 1, _ => 0), 0, 0, 0, 0, Start, [], [], [], false)
  }

  /** The arrays have their sizes and the indices are in range. */
  predicate Shape(s: Echo) {
    |s.dg| == QSIZE && |s.cntread| == QSIZE + 1 && s.iget < QSIZE && s.iput < QSIZE && s.nqueue <= QSIZE
  }

  /** Whether a pending SIGIO is delivered here; sigsuspend lets it in while there is nothing queued. */
  predicate Deliverable(s: Echo) {
    s.pc == Start || s.pc == Unblocked || s.pc == Sending || s.pc == Sent || s.pc == Advanced
    || (s.pc == Head && s.nqueue == 0)
  }

  function Advance(i: nat): nat {
    if i + 1 >= QSIZE then 0 else i + 1
  }

  /** One successful recvfrom of the handler. */
  function ReadOne(s: Echo, d: Datagram): Echo
    requires Shape(s)
  {
    s.(dg := s.dg[s.iput := d], nqueue := s.nqueue + 1, iput := Advance(s.iput), arrived := s.arrived + [d])
  }

  /**
    The handler, when the socket has these datagrams to read and it has read `nread` already; it
    tests for room first.
  */
  function Handler(s: Echo, arrivals: seq<Datagram>, nread: nat): Echo
    requires Shape(s) && nread <= s.nqueue
    decreases |arrivals|
  {
    if s.nqueue >= QSIZE then s.(quit := true)
    else if arrivals == [] then s.(cntread := s.cntread[nread := s.cntread[nread] + 1])
    else Handler(ReadOne(s, arrivals[0]), arrivals[1..], nread + 1)
  }

  /** One statement of the main loop; Sendto is its call and its return, the decrement a load and a store. */
  function Statement(s: Echo): Echo
    requires Shape(s)
  {
    match s.pc
    case Start => s.(pc := Head)
    case Head => if s.nqueue > 0 then s.(pc := Unblocked) else s
    case Unblocked => s.(pc := Sending, begun := s.dg[s.iget])
    case Sending => s.(pc := Sent, echoed := s.echoed + [s.dg[s.iget]])
    case Sent => s.(pc := Advanced, iget := Advance(s.iget))
    case Advanced => s.(pc := Blocked)
    case Blocked => s.(pc := Loaded, loaded := s.nqueue)
    case Loaded => s.(pc := Head, nqueue := if s.loaded > 0 then s.loaded - 1 else 0)
  }

  datatype Event = Step | Signal(arrivals: seq<Datagram>)

  predicate Stepped(s: Echo, e: Event, s': Echo) {
    !s.quit && Shape(s) && match e
    case Step => s' == Statement(s)
    case Signal(arrivals) => Deliverable(s) && s' == Handler(s, arrivals, 0)
  }

  /** A run: any interleaving of main-loop statements and deliverable signals, up to the overflow exit. */
  predicate Run(tr: seq<Echo>, es: seq<Event>) {
    |tr| == |es| + 1 && tr[0] == Init() && forall i :: 0 <= i < |es| ==> Stepped(tr[i], es[i], tr[i + 1])
  }

  // ---- what every step keeps ----

  /** The first entry of the ring has been sent but is still counted. */
  predicate FirstIsSent(s: Echo) {
    s.pc == Sent || s.pc == Advanced || s.pc == Blocked || s.pc == Loaded
  }

  /** Where the counted entries begin: one slot back once iget has moved on. */
  function First(s: Echo): nat {
    if s.pc == Advanced || s.pc == Blocked || s.pc == Loaded then (if s.iget == 0 then QSIZE - 1 else s.iget - 1)
    else s.iget
  }

  predicate Bounds(s: Echo) {
    Shape(s) && s.iput == Wrap(First(s) + s.nqueue, QSIZE) && (s.pc != Start && s.pc != Head ==> s.nqueue >= 1)
  }

  /** The counted entries, in ring order. */
  function Held(s: Echo): seq<Datagram>
    requires Bounds(s)
  {
    Window(s.dg, First(s), s.nqueue)
  }

  function Unsent(s: Echo): seq<Datagram>
    requires Bounds(s)
  {
    if FirstIsSent(s) then Held(s)[1..] else Held(s)
  }

  /** What arrived is what was echoed and then what the ring holds, its first entry left out once sent. */
  ghost predicate Queued(
    slots: seq<Datagram>, first: nat, n: nat, sent: bool, echoed: seq<Datagram>, arrived: seq<Datagram>)
  {
    && |slots| == QSIZE && first < QSIZE && n <= QSIZE && (sent ==> n >= 1)
    && arrived == echoed + if sent then Window(slots, first, n)[1..] else Window(slots, first, n)
  }

  lemma QueuedPut(
    slots: seq<Datagram>, first: nat, n: nat, sent: bool, echoed: seq<Datagram>, arrived: seq<Datagram>, d: Datagram)
    requires Queued(slots, first, n, sent, echoed, arrived) && n < QSIZE
    ensures Queued(slots[Wrap(first + n, QSIZE) := d], first, n + 1, sent, echoed, arrived + [d])
    ensures Window(slots[Wrap(first + n, QSIZE) := d], first, n + 1) == Window(slots, first, n) + [d]
  {
    hide Window;
    WindowPut(slots, first, n, d);
    var w := Window(slots, first, n);
    if sent {
      assert (w + [d])[1..] == w[1..] + [d];
    }
  }

  lemma QueuedSend(slots: seq<Datagram>, first: nat, n: nat, echoed: seq<Datagram>, arrived: seq<Datagram>)
    requires Queued(slots, first, n, false, echoed, arrived) && n >= 1
    ensures Queued(slots, first, n, true, echoed + [slots[first]], arrived)
  {
    hide Window;
    WindowTake(slots, first, n);
    var w := Window(slots, first, n);
    assert echoed + w == (echoed + [w[0]]) + w[1..];
  }

  lemma QueuedDrop(slots: seq<Datagram>, first: nat, n: nat, echoed: seq<Datagram>, arrived: seq<Datagram>)
    requires Queued(slots, first, n, true, echoed, arrived)
    ensures Queued(slots, Wrap(first + 1, QSIZE), n - 1, false, echoed, arrived)
  {
    hide Window;
    WindowTake(slots, first, n);
  }

  /** Nothing lost, doubled or reordered, and what is being sent is intact. */
  ghost predicate Inv(s: Echo) {
    && Bounds(s)
    && Queued(s.dg, First(s), s.nqueue, FirstIsSent(s), s.echoed, s.arrived)
    && (s.pc == Sending ==> s.dg[s.iget] == s.begun)
    && (s.pc == Loaded ==> s.loaded == s.nqueue)
  }

  lemma InitInv()
    ensures Inv(Init())
  {}

  /** Reading one more datagram extends the counted entries and overwrites none of them. */
  lemma ReadKeeps(s: Echo, d: Datagram)
    requires Inv(s) && s.pc != Loaded && s.nqueue < QSIZE
    ensures Inv(ReadOne(s, d)) && Held(ReadOne(s, d)) == Held(s) + [d]
  {
    hide Window, Queued;
    QueuedPut(s.dg, First(s), s.nqueue, FirstIsSent(s), s.echoed, s.arrived, d);
  }

  /**
    The handler quits exactly when the datagrams would bring the count to eight; otherwise it has
    queued them behind the others.
  */
  lemma {:induction false} HandlerKeeps(s: Echo, arrivals: seq<Datagram>, nread: nat)
    requires Inv(s) && s.pc != Loaded && nread <= s.nqueue
    ensures Handler(s, arrivals, nread).quit <==> s.quit || s.nqueue + |arrivals| >= QSIZE
    ensures s.nqueue + |arrivals| < QSIZE ==>
      var s' := Handler(s, arrivals, nread);
      && Inv(s') && Held(s') == Held(s) + arrivals && s'.arrived == s.arrived + arrivals
      && s'.nqueue == s.nqueue + |arrivals| && s'.echoed == s.echoed
      && nread + |arrivals| <= QSIZE
      && s'.cntread == s.cntread[nread + |arrivals| := s.cntread[nread + |arrivals|] + 1]
    decreases |arrivals|
  {
    hide Inv, Held, ReadOne;
    if s.nqueue < QSIZE {
      if arrivals == [] {
        CountOnly(s, nread);
        HeldPlusNothing(s);
      } else {
        var d, rest := arrivals[0], arrivals[1..];
        ReadKeeps(s, d);
        ReadFacts(s, d);
        HandlerKeeps(ReadOne(s, d), rest, nread + 1);
        assert arrivals == [d] + rest;
        assert Bounds(s);
        assert Held(s) + ([d] + rest) == (Held(s) + [d]) + rest;
        assert s.arrived + ([d] + rest) == (s.arrived + [d]) + rest;
      }
    } else {
      BoundsOf(s);
    }
  }

  lemma BoundsOf(s: Echo)
    requires Inv(s)
    ensures Bounds(s)
  {}

  lemma ReadFacts(s: Echo, d: Datagram)
    requires Inv(s) && s.nqueue < QSIZE
    ensures var s' := ReadOne(s, d);
      && Shape(s') && s'.nqueue == s.nqueue + 1 && s'.pc == s.pc && s'.quit == s.quit
      && s'.arrived == s.arrived + [d] && s'.cntread == s.cntread && s'.echoed == s.echoed
    ensures Bounds(s)
  {}

  /** The histogram does not enter into it. */
  lemma CountOnly(s: Echo, nread: nat)
    requires Inv(s) && nread <= s.nqueue
    ensures var s' := s.(cntread := s.cntread[nread := s.cntread[nread] + 1]);
      Inv(s') && Bounds(s) && Held(s') == Held(s)
  {
    hide Window, Queued;
  }

  lemma HeldPlusNothing(s: Echo)
    requires Bounds(s)
    ensures Held(s) + [] == Held(s)
  {}

  lemma StatementKeeps(s: Echo)
    requires Inv(s)
    ensures Inv(Statement(s)) && Statement(s).nqueue <= s.nqueue && Statement(s).arrived == s.arrived
      && Statement(s).quit == s.quit
    ensures Statement(s).echoed == if s.pc == Sending then s.echoed + [s.begun] else s.echoed
  {
    hide Window, Queued;
    if s.pc == Sending {
      QueuedSend(s.dg, First(s), s.nqueue, s.echoed, s.arrived);
    } else if s.pc == Loaded {
      QueuedDrop(s.dg, First(s), s.nqueue, s.echoed, s.arrived);
    }
  }

  // ---- every run ----

  lemma {:induction false} RunsKeepInv(tr: seq<Echo>, es: seq<Event>, k: nat)
    requires Run(tr, es) && k < |tr| && !tr[k].quit
    ensures Inv(tr[k]) && tr[k].nqueue < QSIZE
  {
    hide Inv, Handler, Statement, Deliverable;
    if k == 0 {
      InitInv();
    } else {
      assert Stepped(tr[k - 1], es[k - 1], tr[k - 1 + 1]);
      RunsKeepInv(tr, es, k - 1);
      match es[k - 1]
      case Step => StatementKeeps(tr[k - 1]);
      case Signal(arrivals) =>
        NotLoaded(tr[k - 1]);
        HandlerKeeps(tr[k - 1], arrivals, 0);
    }
  }

  /** The mask keeps the handler out of the decrement. */
  lemma NotLoaded(s: Echo)
    requires Deliverable(s)
    ensures s.pc != Loaded && s.pc != Blocked
  {}

  /**
    In every run without the overflow exit the datagrams are echoed in arrival order, each exactly
    once; those not yet echoed are the unsent entries of the ring; and `iput` is as many slots ahead
    of `iget` as there are unsent entries, one more between the return of Sendto and the advance of `iget`.
  */
  lemma EchoedInOrder(tr: seq<Echo>, es: seq<Event>, k: nat)
    requires Run(tr, es) && k < |tr| && !tr[k].quit
    ensures var s := tr[k];
      && Bounds(s)
      && s.echoed <= s.arrived && s.arrived[|s.echoed|..] == Unsent(s)
      && |s.arrived| - |s.echoed| < QSIZE
      && s.iput == Wrap(s.iget + (if s.pc == Sent then 1 else 0) + |Unsent(s)|, QSIZE)
  {
    hide Run;
    RunsKeepInv(tr, es, k);
  }

  /**
    In every run a signal leaves the queued datagrams, and the one being sent, as they were, and is
    fatal exactly when the count would reach eight.
  */
  lemma SignalOverwritesNothing(tr: seq<Echo>, es: seq<Event>, k: nat, arrivals: seq<Datagram>)
    requires Run(tr, es) && k < |es| && es[k] == Signal(arrivals)
    ensures tr[k + 1].quit <==> tr[k].nqueue + |arrivals| >= QSIZE
    ensures Bounds(tr[k])
    ensures !tr[k + 1].quit ==> Bounds(tr[k + 1]) && Held(tr[k + 1]) == Held(tr[k]) + arrivals
    ensures !tr[k + 1].quit ==> |arrivals| < QSIZE
  {
    hide Inv, Handler, Deliverable, Held;
    assert Stepped(tr[k], es[k], tr[k + 1]);
    RunsKeepInv(tr, es, k);
    BoundsOf(tr[k]);
    NotLoaded(tr[k]);
    HandlerKeeps(tr[k], arrivals, 0);
    if !tr[k + 1].quit { BoundsOf(tr[k + 1]); }
  }

  /** How many statements of the main loop it is to the end of the next send. */
  function ToSend(pc: Pc): nat {
    match pc
    case Sending => 1
    case Unblocked => 2
    case Head => 3
    case Start => 4
    case Loaded => 4
    case Blocked => 5
    case Advanced => 6
    case Sent => 7
  }

  /**
    A queued datagram is sent: in every run, while one is unsent, each statement of the main loop comes
    one nearer to sending, or has just sent the oldest, and no signal throws it back.
  */
  lemma UnsentIsSent(tr: seq<Echo>, es: seq<Event>, k: nat)
    requires Run(tr, es) && k < |es|
    ensures Bounds(tr[k])
    ensures es[k] == Step && Unsent(tr[k]) != [] ==>
      if ToSend(tr[k].pc) == 1 then tr[k + 1].echoed == tr[k].echoed + [Unsent(tr[k])[0]]
      else ToSend(tr[k + 1].pc) == ToSend(tr[k].pc) - 1 && tr[k + 1].echoed == tr[k].echoed
    ensures es[k].Signal? ==> tr[k + 1].pc == tr[k].pc && tr[k + 1].echoed == tr[k].echoed
  {
    assert Stepped(tr[k], es[k], tr[k + 1]);
    RunsKeepInv(tr, es, k);
    hide Run, Handler, Queued;
    if es[k].Signal? { HandlerLeaves(tr[k], es[k].arrivals, 0); }
  }

  lemma {:induction false} HandlerLeaves(s: Echo, arrivals: seq<Datagram>, nread: nat)
    requires Shape(s) && nread <= s.nqueue
    ensures var s' := Handler(s, arrivals, nread); s'.pc == s.pc && s'.echoed == s.echoed && s'.iget == s.iget
    decreases |arrivals|
  {
    if s.nqueue >= QSIZE || arrivals == [] {
    } else {
      HandlerLeaves(ReadOne(s, arrivals[0]), arrivals[1..], nread + 1);
    }
  }

  // ---- the static variables themselves ----

  class DgEcho {
    const dg: array<Datagram>
    const cntread: array<nat>
    var iget: nat
    var iput: nat
    var nqueue: nat
    var loaded: nat
    var pc: Pc
    ghost var begun: Datagram
    ghost var arrived: seq<Datagram>
    ghost var echoed: seq<Datagram>
    ghost var quit: bool

    ghost function Val(): Echo
      reads this, dg, cntread
    {
      Echo(dg[..], cntread[..], iget, iput, nqueue, loaded, pc, begun, arrived, echoed, quit)
    }

    constructor ()
      ensures Val() == Init() && fresh(dg) && fresh(cntread)
    {
      dg := new Datagram[QSIZE](i => []);
      cntread := new nat[QSIZE + 1](i => 0);
      iget, iput, nqueue, loaded := 0, 0, 0, 0;
      pc, begun, arrived, echoed, quit := Start, [], [], [], false;
    }

    /** The signal handler. */
    method SigIo(arrivals: seq<Datagram>) returns (overflow: bool)
      requires Shape(Val()) && !quit
      modifies this`iput, this`nqueue, this`arrived, this`quit, dg, cntread
      ensures Val() == Handler(old(Val()), arrivals, 0) && overflow == quit
    {
      hide Handler;
      var nread := 0;
      assert arrivals[0..] == arrivals;
      while true
        invariant 0 <= nread <= |arrivals| && nread <= nqueue && !quit
        invariant Shape(Val())
        invariant Handler(Val(), arrivals[nread..], nread) == Handler(old(Val()), arrivals, 0)
        decreases |arrivals| - nread
      {
        HandlerStep(Val(), arrivals, nread);
        if nqueue >= QSIZE {
          quit := true;
          return true;
        }
        if nread == |arrivals| {
          break;
        }
        ghost var slots := dg[..];
        dg[iput] := arrivals[nread];
        assert dg[..] == slots[iput := arrivals[nread]];
        arrived := arrived + [arrivals[nread]];
        nread := nread + 1;
        nqueue := nqueue + 1;
        iput := iput + 1;
        if iput >= QSIZE {
          iput := 0;
        }
      }
      ghost var counts := cntread[..];
      cntread[nread] := cntread[nread] + 1;
      assert cntread[..] == counts[nread := counts[nread] + 1];
      overflow := false;
    }

    /** One statement of the main loop. */
    method MainStep()
      requires Shape(Val())
      modifies this`iget, this`nqueue, this`loaded, this`pc, this`begun, this`echoed
      ensures Val() == Statement(old(Val()))
    {
      match pc {
        case Start => pc := Head;
        case Head =>
          if nqueue > 0 {
            pc := Unblocked;
          }
        case Unblocked =>
          begun := dg[iget];
          pc := Sending;
        case Sending =>
          echoed := echoed + [dg[iget]];
          pc := Sent;
        case Sent =>
          iget := iget + 1;
          if iget >= QSIZE {
            iget := 0;
          }
          pc := Advanced;
        case Advanced => pc := Blocked;
        case Blocked =>
          loaded := nqueue;
          pc := Loaded;
        case Loaded =>
          nqueue := if loaded > 0 then loaded - 1 else 0;
          pc := Head;
      }
    }
  }

  lemma HandlerStep(s: Echo, arrivals: seq<Datagram>, nread: nat)
    requires Shape(s) && nread <= s.nqueue && nread <= |arrivals|
    ensures s.nqueue >= QSIZE ==> Handler(s, arrivals[nread..], nread) == s.(quit := true)
    ensures s.nqueue < QSIZE && nread == |arrivals| ==>
      Handler(s, arrivals[nread..], nread) == s.(cntread := s.cntread[nread := s.cntread[nread] + 1])
    ensures s.nqueue < QSIZE && nread < |arrivals| ==>
      Handler(s, arrivals[nread..], nread) == Handler(ReadOne(s, arrivals[nread]), arrivals[nread + 1..], nread + 1)
  {
    if nread < |arrivals| {
      assert arrivals[nread..][1..] == arrivals[nread + 1..];
    }
  }
}
