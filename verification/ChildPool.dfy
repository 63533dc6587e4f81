/**
  serv05/child05: a parent accepts connections and passes each descriptor to an idle child over a
  stream pipe; the child serves it and writes one byte back. Parent and children interleave freely.
*/
module ChildPool {

  /**
    The parent's table entry (`busy`, `count`) and the child with its pipe: descriptors under way to
    it, a request in service, ready bytes on the way back.
  */
  datatype Child = Child(busy: bool, count: nat, inPipe: nat, serving: bool, ready: nat)

  /** Where the parent is in its loop; `done` collects the pipe descriptors read in this pass. */
  datatype Pc =
    | Head
    | Selected(listen: bool, rset: set<nat>, nsel: int)
    | Scanning(i: nat, rset: set<nat>, done: set<nat>, nsel: int)

  /** `skipped` is what the last finished pass left unread of its `rset`; `quit` is "no available children". */
  datatype State = State(children: seq<Child>, navail: int, accepted: nat, pc: Pc, skipped: set<nat>, quit: bool)

  datatype Event =
    | Select(pending: bool)  // the listening socket is readable if a connection is pending and it was asked for
    | Accept                 // the new-connection part of the pass
    | Scan                   // one turn of the loop over the children
    | Receive(c: nat)        // child: read_fd returns
    | Finish(c: nat)         // child: web_child done, ready byte written

  function Init(n: nat): State {
    State(seq(n, _ => Child(false, 0, 0, false, 0)), n, 0, Head, {}, false)
  }

  /** select reports every pipe that has a byte to read. */
  function ReadySet(cs: seq<Child>): set<nat> {
    set i: nat | i < |cs| && cs[i].ready > 0
  }

  /** The first entry with status 0, or the number of entries. */
  function FirstIdle(cs: seq<Child>): (i: nat)
    ensures i <= |cs|
    ensures i < |cs| ==> !cs[i].busy
    ensures forall k :: 0 <= k < i ==> cs[k].busy
  {
    if cs == [] then 0
    else
      var i := FirstIdle(cs[..|cs| - 1]);
      if i < |cs| - 1 then i else if cs[|cs| - 1].busy then |cs| else |cs| - 1
  }

  /** The search loop over the table. */
  method FindAvailable(cptr: array<Child>) returns (i: nat)
    ensures i == FirstIdle(cptr[..])
  {
    i := 0;
    while i < cptr.Length
      invariant i <= cptr.Length
      invariant forall k :: 0 <= k < i ==> cptr[k].busy
    {
      if !cptr[i].busy {
        break;
      }
      i := i + 1;
    }
    FirstIdleUnique(cptr[..], i);
  }

  lemma FirstIdleUnique(cs: seq<Child>, i: nat)
    requires i <= |cs| && (i < |cs| ==> !cs[i].busy) && forall k :: 0 <= k < i ==> cs[k].busy
    ensures FirstIdle(cs) == i
  {
    var j := FirstIdle(cs);
    assert j < |cs| ==> !cs[j].busy;
  }

  predicate Enabled(s: State, e: Event) {
    !s.quit && match e
    case Select(pending) => s.pc.Head? && ((pending && s.navail > 0) || ReadySet(s.children) != {})
    case Accept => s.pc.Selected?
    case Scan => s.pc.Scanning?
    case Receive(c) => c < |s.children| && s.children[c].inPipe > 0 && !s.children[c].serving
    case Finish(c) => c < |s.children| && s.children[c].serving
  }

  function Selects(s: State, pending: bool): State {
    var listen := pending && s.navail > 0;
    var rset := ReadySet(s.children);
    s.(pc := Selected(listen, rset, |rset| + if listen then 1 else 0))
  }

  function Accepts(s: State): State
    requires s.pc.Selected?
  {
    var Selected(listen, rset, nsel) := s.pc;
    if !listen then s.(pc := Scanning(0, rset, {}, nsel))
    else
      var i := FirstIdle(s.children);
      if i == |s.children| then s.(quit := true)
      else
        var c := s.children[i];
        var s1 := s.(children := s.children[i := c.(busy := true, count := c.count + 1, inPipe := c.inPipe + 1)],
                     navail := s.navail - 1, accepted := s.accepted + 1);
        if nsel - 1 == 0 then s1.(pc := Head, skipped := rset)
        else s1.(pc := Scanning(0, rset, {}, nsel - 1))
  }

  function Scans(s: State): State
    requires s.pc.Scanning?
  {
    var Scanning(i, rset, done, nsel) := s.pc;
    if i >= |s.children| then s.(pc := Head, skipped := rset - done)
    else if i !in rset then s.(pc := Scanning(i + 1, rset, done, nsel))
    else
      var c := s.children[i];
      var s1 := s.(children := s.children[i := c.(busy := false, ready := if c.ready > 0 then c.ready - 1 else 0)],
                   navail := s.navail + 1);
      if nsel - 1 == 0 then s1.(pc := Head, skipped := rset - (done + {i}))
      else s1.(pc := Scanning(i + 1, rset, done + {i}, nsel - 1))
  }

  function Next(s: State, e: Event): State
    requires Enabled(s, e)
  {
    match e
    case Select(pending) => Selects(s, pending)
    case Accept => Accepts(s)
    case Scan => Scans(s)
    case Receive(c) =>
      var child := s.children[c];
      s.(children := s.children[c := child.(inPipe := child.inPipe - 1, serving := true)])
    case Finish(c) =>
      var child := s.children[c];
      s.(children := s.children[c := child.(serving := false, ready := child.ready + 1)])
  }

  // ---- counting ----

  function Idle(cs: seq<Child>): nat {
    if cs == [] then 0 else Idle(cs[..|cs| - 1]) + (if cs[|cs| - 1].busy then 0 else 1)
  }

  function Served(cs: seq<Child>): nat {
    if cs == [] then 0 else Served(cs[..|cs| - 1]) + cs[|cs| - 1].count
  }

  lemma {:induction false} Updated(cs: seq<Child>, i: nat, c: Child)
    requires i < |cs|
    ensures Idle(cs[i := c]) == Idle(cs) - (if cs[i].busy then 0 else 1) + (if c.busy then 0 else 1)
    ensures Served(cs[i := c]) == Served(cs) - cs[i].count + c.count
  {
    var d := cs[i := c];
    if i < |cs| - 1 {
      Updated(cs[..|cs| - 1], i, c);
      assert d[..|d| - 1] == cs[..|cs| - 1][i := c];
    } else {
      assert d[..|d| - 1] == cs[..|cs| - 1];
    }
  }

  lemma {:induction false} SomeIdle(cs: seq<Child>)
    requires Idle(cs) > 0
    ensures exists i :: 0 <= i < |cs| && !cs[i].busy
  {
    if !cs[|cs| - 1].busy {
    } else {
      SomeIdle(cs[..|cs| - 1]);
      var i :| 0 <= i < |cs| - 1 && !cs[..|cs| - 1][i].busy;
      assert !cs[i].busy;
    }
  }

  lemma {:induction false} AllIdle(n: nat)
    ensures Idle(Init(n).children) == n && Served(Init(n).children) == 0
  {
    if n == 0 {
    } else {
      AllIdle(n - 1);
      assert Init(n).children[..n - 1] == Init(n - 1).children;
    }
  }

  /** The part of the selected set the scan has not reached. */
  function Rest(rset: set<nat>, i: nat): set<nat> {
    set j | j in rset && j >= i
  }

  lemma RestStep(rset: set<nat>, i: nat)
    ensures i in rset ==> |Rest(rset, i)| == |Rest(rset, i + 1)| + 1
    ensures i in rset ==> rset - Rest(rset, i + 1) == (rset - Rest(rset, i)) + {i}
    ensures i !in rset ==> Rest(rset, i) == Rest(rset, i + 1)
    ensures Rest(rset, 0) == rset
  {
    if i in rset {
      assert Rest(rset, i) == Rest(rset, i + 1) + {i};
    } else {
      assert Rest(rset, i) == Rest(rset, i + 1);
    }
    assert Rest(rset, 0) == rset;
  }

  // ---- what every step keeps ----

  /**
    A busy child owns exactly one of: a descriptor in the pipe, a request in service, a ready byte;
    an idle one owns none.
  */
  predicate Token(c: Child) {
    c.inPipe + (if c.serving then 1 else 0) + c.ready == if c.busy then 1 else 0
  }

  /** The bytes select announced and the scan has not reached are still there to read. */
  predicate Announced(s: State, rset: set<nat>, i: nat) {
    forall j :: j in rset && j >= i ==> j < |s.children| && s.children[j].ready == 1
  }

  predicate PcOk(s: State) {
    match s.pc
    case Head => true
    case Selected(listen, rset, nsel) =>
      && Announced(s, rset, 0)
      && nsel == |rset| + (if listen then 1 else 0) > 0
      && (listen ==> s.navail > 0)
    case Scanning(i, rset, done, nsel) =>
      && i <= |s.children|
      && Announced(s, rset, i)
      && nsel == |Rest(rset, i)| > 0
      && done == rset - Rest(rset, i)
  }

  predicate Inv(s: State) {
    && (forall i :: 0 <= i < |s.children| ==> Token(s.children[i]))
    && s.navail == Idle(s.children)
    && s.accepted == Served(s.children)
    && PcOk(s)
    && s.skipped == {} && !s.quit
  }

  lemma SelectKeeps(s: State, pending: bool)
    requires Inv(s) && Enabled(s, Select(pending))
    ensures Inv(Selects(s, pending))
  {
    hide Idle, Served;
    forall j | j in ReadySet(s.children) ensures s.children[j].ready == 1 { assert Token(s.children[j]); }
  }

  lemma AcceptKeeps(s: State)
    requires Inv(s) && s.pc.Selected?
    ensures Inv(Accepts(s))
  {
    hide Idle, Served, FirstIdle;
    var Selected(listen, rset, nsel) := s.pc;
    RestStep(rset, 0);
    if listen {
      SomeIdle(s.children);
      var i := FirstIdle(s.children);
      var c := s.children[i];
      var c' := c.(busy := true, count := c.count + 1, inPipe := c.inPipe + 1);
      assert Token(c);
      Updated(s.children, i, c');
      assert i !in rset;
      assert Token(c');
    }
  }

  /** The loop never runs off the table: with descriptors left it is always left through the break. */
  lemma ScanInTable(s: State)
    requires Inv(s) && s.pc.Scanning?
    ensures s.pc.i < |s.children|
  {
    var j :| j in Rest(s.pc.rset, s.pc.i);
  }

  lemma ScanPast(s: State)
    requires Inv(s) && s.pc.Scanning? && s.pc.i !in s.pc.rset
    ensures Inv(Scans(s))
  {
    ScanInTable(s);
    hide Idle, Served, Rest, Token;
    RestStep(s.pc.rset, s.pc.i);
  }

  lemma ScanReadTable(s: State)
    requires Inv(s) && s.pc.Scanning? && s.pc.i in s.pc.rset
    ensures var s' := Scans(s);
      && (forall k :: 0 <= k < |s'.children| ==> Token(s'.children[k]))
      && s'.navail == Idle(s'.children) && s'.accepted == Served(s'.children) && !s'.quit
  {
    ScanInTable(s);
    hide Idle, Served, Rest;
    var c := s.children[s.pc.i];
    assert Token(c) && c.ready == 1;
    Updated(s.children, s.pc.i, c.(busy := false, ready := 0));
  }

  lemma ScanReadPc(s: State)
    requires Inv(s) && s.pc.Scanning? && s.pc.i in s.pc.rset
    ensures PcOk(Scans(s)) && Scans(s).skipped == {}
  {
    ScanInTable(s);
    hide Idle, Served, Rest, Token;
    var Scanning(i, rset, done, nsel) := s.pc;
    RestStep(rset, i);
    if nsel == 1 { assert Rest(rset, i + 1) == {}; }
  }

  lemma ScanReadBoth(s: State)
    requires Inv(s) && s.pc.Scanning? && s.pc.i in s.pc.rset
    ensures Inv(Scans(s))
  {
    hide Idle, Served, Token, PcOk, Scans;
    ScanReadTable(s);
    ScanReadPc(s);
  }

  lemma ScanKeeps(s: State)
    requires Inv(s) && s.pc.Scanning?
    ensures Inv(Scans(s))
  {
    hide Inv;
    if s.pc.i in s.pc.rset { ScanReadBoth(s); } else { ScanPast(s); }
  }

  lemma ChildKeeps(s: State, e: Event)
    requires Inv(s) && Enabled(s, e) && (e.Receive? || e.Finish?)
    ensures Inv(Next(s, e))
  {
    hide Idle, Served;
    var c := s.children[e.c];
    assert Token(c);
    Updated(s.children, e.c, Next(s, e).children[e.c]);
  }

  lemma StepKeeps(s: State, e: Event)
    requires Inv(s) && Enabled(s, e)
    ensures Inv(Next(s, e))
  {
    hide Inv;
    match e
    case Select(p) => SelectKeeps(s, p);
    case Accept => AcceptKeeps(s);
    case Scan => ScanKeeps(s);
    case _ => ChildKeeps(s, e);
  }

  predicate Stepped(s: State, e: Event, s': State) {
    Enabled(s, e) && s' == Next(s, e)
  }

  predicate Run(tr: seq<State>, es: seq<Event>, n: nat) {
    && |tr| == |es| + 1
    && tr[0] == Init(n)
    && forall i :: 0 <= i < |es| ==> Stepped(tr[i], es[i], tr[i + 1])
  }

  lemma {:induction false} RunsKeepInv(tr: seq<State>, es: seq<Event>, n: nat, k: nat)
    requires Run(tr, es, n) && k < |tr|
    ensures Inv(tr[k])
  {
    hide Inv, Next, Enabled;
    if k == 0 {
      InitInv(n);
    } else {
      RunsKeepInv(tr, es, n, k - 1);
      assert Stepped(tr[k - 1], es[k - 1], tr[k - 1 + 1]);
      StepKeeps(tr[k - 1], es[k - 1]);
    }
  }

  lemma InitInv(n: nat)
    ensures Inv(Init(n))
  {
    AllIdle(n);
  }

  /**
    In every run and at every point: the available count is the number of children with status 0,
    the "no available children" exit has not been taken, every accepted connection is counted at
    exactly one child, each busy child owns one token and no idle child any, and no finished pass
    left a selected pipe unread.
  */
  lemma PoolIsConsistent(tr: seq<State>, es: seq<Event>, n: nat, k: nat)
    requires Run(tr, es, n) && k < |tr|
    ensures var s := tr[k];
      && s.navail == Idle(s.children)
      && !s.quit
      && s.accepted == Served(s.children)
      && (forall i :: 0 <= i < |s.children| ==> Token(s.children[i]))
      && s.skipped == {}
  {
    RunsKeepInv(tr, es, n, k);
  }

  /** The scan never blocks on a read: whatever pipe it reads still holds the byte select announced. */
  lemma ScanNeverBlocks(tr: seq<State>, es: seq<Event>, n: nat, k: nat)
    requires Run(tr, es, n) && k < |tr| && tr[k].pc.Scanning? && tr[k].pc.i in tr[k].pc.rset
    ensures tr[k].pc.i < |tr[k].children| && tr[k].children[tr[k].pc.i].ready == 1
  {
    RunsKeepInv(tr, es, n, k);
  }

  // ---- what the steps of a run do ----

  predicate LeastIdle(cs: seq<Child>, i: nat) {
    i < |cs| && !cs[i].busy && forall j :: 0 <= j < i ==> cs[j].busy
  }

  /**
    Select reports exactly the pipes with a byte, and the listening socket exactly if there is a
    pending connection and an available child.
  */
  lemma SelectReports(tr: seq<State>, es: seq<Event>, n: nat, k: nat)
    requires Run(tr, es, n) && k < |es| && es[k].Select?
    ensures var s, s' := tr[k], tr[k + 1];
      && s'.children == s.children && s'.navail == s.navail && s'.accepted == s.accepted
      && s'.pc.Selected? && (s'.pc.listen <==> es[k].pending && s.navail > 0)
      && (forall i: nat :: i in s'.pc.rset <==> i < |s.children| && s.children[i].ready > 0)
  {
    assert Stepped(tr[k], es[k], tr[k + 1]);
  }

  /**
    A reported connection is accepted in that very pass: the available child of least index becomes
    busy, is counted and has the descriptor in its pipe; nothing else changes. Otherwise no child does.
  */
  lemma AcceptDispatches(tr: seq<State>, es: seq<Event>, n: nat, k: nat) returns (i: nat)
    requires Run(tr, es, n) && k < |es| && es[k] == Accept
    ensures var s, s' := tr[k], tr[k + 1];
      s.pc.Selected? &&
      if s.pc.listen then
        && LeastIdle(s.children, i)
        && s'.children == s.children[i := Child(true, s.children[i].count + 1, 1, false, 0)]
        && s'.accepted == s.accepted + 1 && s'.navail == s.navail - 1
      else s'.children == s.children && s'.accepted == s.accepted && s'.navail == s.navail
  {
    var s := tr[k];
    RunsKeepInv(tr, es, n, k);
    assert Stepped(tr[k], es[k], tr[k + 1]);
    hide Idle, Served, FirstIdle;
    i := FirstIdle(s.children);
    if s.pc.listen {
      SomeIdle(s.children);
      assert Token(s.children[i]);
    }
  }

  /** A reported ready byte is read in that pass: its child becomes available; nothing else changes. */
  lemma ScanFrees(tr: seq<State>, es: seq<Event>, n: nat, k: nat)
    requires Run(tr, es, n) && k < |es| && es[k] == Scan
    ensures var s, s' := tr[k], tr[k + 1];
      s.pc.Scanning? && s.pc.i < |s.children| && s'.accepted == s.accepted &&
      if s.pc.i in s.pc.rset then
        && s'.children == s.children[s.pc.i := Child(false, s.children[s.pc.i].count, 0, false, 0)]
        && s'.navail == s.navail + 1
      else s'.children == s.children && s'.navail == s.navail
  {
    var s := tr[k];
    RunsKeepInv(tr, es, n, k);
    assert Stepped(tr[k], es[k], tr[k + 1]);
    ScanInTable(s);
    assert Token(s.children[s.pc.i]);
  }

  /** A child takes its descriptor out of the pipe, serves it and writes the ready byte. */
  lemma ChildServes(tr: seq<State>, es: seq<Event>, n: nat, k: nat)
    requires Run(tr, es, n) && k < |es| && (es[k].Receive? || es[k].Finish?)
    ensures var s, s' := tr[k], tr[k + 1]; var c := es[k].c;
      && c < |s.children| && s'.pc == s.pc && s'.navail == s.navail && s'.accepted == s.accepted
      && s.children[c].busy
      && s'.children == s.children[c :=
           if es[k].Receive? then Child(true, s.children[c].count, 0, true, 0)
           else Child(true, s.children[c].count, 0, false, 1)]
  {
    RunsKeepInv(tr, es, n, k);
    assert Stepped(tr[k], es[k], tr[k + 1]);
    hide Idle, Served;
    assert Token(tr[k].children[es[k].c]);
  }

  /** A busy child is never stuck: it can take its descriptor, or finish its request, or its byte wakes the parent. */
  lemma BusyMovesOn(tr: seq<State>, es: seq<Event>, n: nat, k: nat, c: nat)
    requires Run(tr, es, n) && k < |tr| && c < |tr[k].children| && tr[k].children[c].busy
    ensures var s := tr[k];
      || Enabled(s, Receive(c))
      || Enabled(s, Finish(c))
      || (s.children[c].ready == 1 && (s.pc.Head? ==> Enabled(s, Select(false)) && c in ReadySet(s.children)))
  {
    RunsKeepInv(tr, es, n, k);
    hide Idle, Served;
    assert Token(tr[k].children[c]);
    if tr[k].children[c].ready > 0 { assert c in ReadySet(tr[k].children); }
  }

  /** The parent itself is never stuck in a pass. */
  lemma ParentMovesOn(tr: seq<State>, es: seq<Event>, n: nat, k: nat)
    requires Run(tr, es, n) && k < |tr|
    ensures var s := tr[k];
      && (s.pc.Selected? ==> Enabled(s, Accept))
      && (s.pc.Scanning? ==> Enabled(s, Scan))
      && (s.pc.Head? && s.navail > 0 ==> Enabled(s, Select(true)))
  {
    RunsKeepInv(tr, es, n, k);
  }

  /** The same on the table: find the available child, mark and count it, pass it the descriptor. */
  method Dispatch(cptr: array<Child>, navail: int, ghost s: State) returns (left: int, quit: bool)
    requires s.children == cptr[..] && s.navail == navail && s.pc.Selected? && s.pc.listen && !s.quit
    modifies cptr
    ensures quit <==> forall k :: 0 <= k < |s.children| ==> s.children[k].busy
    ensures cptr[..] == Accepts(s).children && left == Accepts(s).navail && quit == Accepts(s).quit
  {
    hide FirstIdle;
    left := navail;
    var i := FindAvailable(cptr);
    quit := i == cptr.Length;
    if !quit {
      var c := cptr[i];
      cptr[i] := c.(busy := true, count := c.count + 1, inPipe := c.inPipe + 1);
      left := left - 1;
    }
  }
}
