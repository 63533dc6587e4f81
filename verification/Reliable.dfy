/**
  `dg_send_recv` between a client, an echo server and a network that loses, duplicates,
  delays and reorders: a state machine over every interleaving of their steps.
*/
module Reliable {
  import opened Machine
  import opened Rtt

  const HDR := 8  // sizeof(struct hdr)

  datatype Packet = Packet(seqno: nat, ts: nat, data: seq<int>)

  /** A datagram in the network, with the transmission it stems from (for reasoning only). */
  datatype Msg = Msg(pkt: Packet, tx: nat)

  /** One `Sendmsg`: for which call, when, what. */
  datatype Tx = Tx(call: nat, time: nat, data: seq<int>)

  /** One successful return: what was returned, and what `rtt_stop` was given, when. */
  datatype Done = Done(call: nat, payload: seq<int>, room: nat, result: seq<int>, tx: nat, at: nat, ms: nat)

  datatype Phase =
    | Idle
    | Sending(payload: seq<int>, room: nat)
    | Waiting(payload: seq<int>, room: nat)
    | Got(payload: seq<int>, room: nat, msg: Msg)

  /**
    `calls` counts the calls ever made; the static sequence number is its low 32 bits. Messages
    are never removed from the two directions: one that is lost is simply never delivered.
  */
  datatype State = State(
    now: nat, calls: nat, rttinit: bool, rtt: Rtt, phase: Phase,
    toServer: set<Msg>, toClient: set<Msg>, log: seq<Tx>, done: seq<Done>)

  datatype Event =
    | Tick(ms: nat)                        // time passes
    | Call(payload: seq<int>, room: nat)   // dg_send_recv is entered
    | Send                                 // sendagain
    | Serve(m: Msg)                        // the echo server handles a datagram
    | Receive(m: Msg)                      // Recvmsg returns an echo
    | Stray(n: nat)                        // Recvmsg returns a datagram shorter than the header
    | Alarm                                // SIGALRM jumps back
    | Finish                               // alarm(0), rtt_stop, return

  function Init(): State {
    State(0, 0, false, Rtt(0.0, 0.0, 0.0, 0.0, 0, 0), Idle, {}, {}, [], [])
  }

  function Seqno(s: State): nat {
    s.calls % WORD
  }

  /** What survives of a payload through the server's buffer. */
  function Echoed(data: seq<int>): seq<int> {
    if |data| <= MAXLINE - HDR then data else data[..MAXLINE - HDR]
  }

  /** What survives through the client's buffer as well. */
  function Delivered(data: seq<int>, room: nat): seq<int> {
    if |Echoed(data)| <= room then Echoed(data) else Echoed(data)[..room]
  }

  function Least(a: nat, b: nat, c: nat): nat {
    if a <= b && a <= c then a else if b <= c then b else c
  }

  predicate Enabled(s: State, e: Event) {
    match e
    case Tick(_) => true
    case Call(_, _) => s.phase.Idle? && s.calls + 1 < WORD  // fewer than 2^32 requests
    case Send => s.phase.Sending?
    case Serve(m) => m in s.toServer
    case Receive(m) => s.phase.Waiting? && m in s.toClient
    case Stray(n) => s.phase.Waiting? && n < HDR
    case Alarm => s.phase.Waiting? || s.phase.Got?
    case Finish => s.phase.Got?
  }

  function Enter(s: State, payload: seq<int>, room: nat): State {
    var r := if s.rttinit then s.rtt else InitRtt(s.rtt, s.now);
    s.(rttinit := true, rtt := NewPack(r), calls := s.calls + 1, phase := Sending(payload, room))
  }

  function Transmit(s: State): State
    requires s.phase.Sending?
  {
    var m := Msg(Packet(Seqno(s), Ts(s.rtt.base, s.now), s.phase.payload), |s.log|);
    s.(toServer := s.toServer + {m},
       log := s.log + [Tx(s.calls, s.now, s.phase.payload)],
       phase := Waiting(s.phase.payload, s.phase.room))
  }

  function TimeUp(s: State): State
    requires s.phase.Waiting? || s.phase.Got?
  {
    var r := Timeout(s.rtt);
    if GivesUp(r) then s.(rtt := r, rttinit := false, phase := Idle)
    else s.(rtt := r, phase := Sending(s.phase.payload, s.phase.room))
  }

  /** The 32-bit difference handed to `rtt_stop`. */
  function Sample(s: State): nat
    requires s.phase.Got?
  {
    (Ts(s.rtt.base, s.now) - s.phase.msg.pkt.ts) % WORD
  }

  function Return(s: State): State
    requires s.phase.Got?
  {
    var p := s.phase;
    var data := p.msg.pkt.data;
    var d := Done(s.calls, p.payload, p.room, if |data| <= p.room then data else data[..p.room],
                  p.msg.tx, s.now, Sample(s));
    s.(rtt := Stop(s.rtt, Sample(s)), phase := Idle, done := s.done + [d])
  }

  function Next(s: State, e: Event): State
    requires Enabled(s, e)
  {
    match e
    case Tick(ms) => s.(now := s.now + ms)
    case Call(payload, room) => Enter(s, payload, room)
    case Send => Transmit(s)
    case Serve(m) => s.(toClient := s.toClient + {m.(pkt := m.pkt.(data := Echoed(m.pkt.data)))})
    case Receive(m) => if m.pkt.seqno != Seqno(s) then s else s.(phase := Got(s.phase.payload, s.phase.room, m))
    case Stray(_) => s
    case Alarm => TimeUp(s)
    case Finish => Return(s)
  }

  // ---- what every step keeps ----

  function SendsOf(log: seq<Tx>, call: nat): nat {
    if log == [] then 0 else SendsOf(log[..|log| - 1], call) + (if log[|log| - 1].call == call then 1 else 0)
  }

  predicate LogOk(s: State) {
    && (forall i :: 0 <= i < |s.log| ==> 1 <= s.log[i].call <= s.calls && s.log[i].time <= s.now)
    && (!s.phase.Idle? ==> s.calls >= 1)
    && (!s.phase.Idle? ==>
          forall i :: 0 <= i < |s.log| && s.log[i].call == s.calls ==> s.log[i].data == s.phase.payload)
  }

  /** A message carries the sequence number of its call and, for the current call, a stamp on the current base. */
  predicate Genuine(s: State, m: Msg) {
    && m.tx < |s.log|
    && m.pkt.seqno == s.log[m.tx].call % WORD
    && (s.log[m.tx].call == s.calls ==> m.pkt.ts == Ts(s.rtt.base, s.log[m.tx].time))
  }

  predicate NetOk(s: State) {
    && s.calls < WORD
    && (forall m :: m in s.toServer ==> Genuine(s, m) && m.pkt.data == s.log[m.tx].data)
    && (forall m :: m in s.toClient ==> Genuine(s, m) && m.pkt.data == Echoed(s.log[m.tx].data))
    && (s.phase.Got? ==> s.phase.msg in s.toClient && s.phase.msg.pkt.seqno == Seqno(s))
  }

  /** A call starts with the clamped srtt + 4 rttvar; while it runs that is doubled once per retransmission. */
  predicate RtoOk(s: State) {
    && (s.phase.Idle? && s.rttinit ==> s.rtt.rto == MinMax(Calc(s.rtt.srtt, s.rtt.rttvar)))
    && (!s.phase.Idle? ==> s.rttinit && 0 <= s.rtt.nrexmt <= MAXNREXMT && BackedOff(s.rtt))
  }

  predicate SendsOk(s: State) {
    && (s.phase.Sending? ==> SendsOf(s.log, s.calls) == s.rtt.nrexmt)
    && (s.phase.Waiting? || s.phase.Got? ==> SendsOf(s.log, s.calls) == s.rtt.nrexmt + 1)
  }

  /** The right payload came back, and the sample is the time since the very transmission that was answered. */
  predicate DoneOk(s: State, d: Done) {
    && 1 <= d.call <= s.calls
    && d.tx < |s.log|
    && s.log[d.tx].call == d.call
    && s.log[d.tx].data == d.payload
    && d.result == Delivered(d.payload, d.room)
    && s.log[d.tx].time <= d.at <= s.now
    && d.ms == (d.at - s.log[d.tx].time) % WORD
  }

  /** Every call returns at most once. */
  predicate OrderOk(s: State) {
    && (forall i, j :: 0 <= i < j < |s.done| ==> s.done[i].call < s.done[j].call)
    && (!s.phase.Idle? ==> forall i :: 0 <= i < |s.done| ==> s.done[i].call < s.calls)
  }

  predicate Bounded(s: State, m: real) {
    (forall i :: 0 <= i < |s.done| ==> s.done[i].ms as real / 1000.0 <= m) ==> Within(s.rtt, m)
  }

  ghost predicate Inv(s: State) {
    && LogOk(s) && NetOk(s) && RtoOk(s) && SendsOk(s) && OrderOk(s)
    && (forall c :: SendsOf(s.log, c) <= MAXNREXMT + 1)
    && (forall i :: 0 <= i < |s.done| ==> DoneOk(s, s.done[i]))
  }

  lemma {:induction false} NoSendsYet(log: seq<Tx>, call: nat)
    requires forall i :: 0 <= i < |log| ==> log[i].call < call
    ensures SendsOf(log, call) == 0
  {
    if log == [] {
    } else {
      NoSendsYet(log[..|log| - 1], call);
    }
  }

  lemma SendsSnoc(log: seq<Tx>, t: Tx, c: nat)
    ensures SendsOf(log + [t], c) == SendsOf(log, c) + (if t.call == c then 1 else 0)
  {
    assert (log + [t])[..|log|] == log;
  }

  /** With fewer than 2^32 calls a matching sequence number means a message of this very call. */
  lemma MatchIsCurrent(s: State, m: Msg)
    requires LogOk(s) && s.calls < WORD && Genuine(s, m) && m.pkt.seqno == Seqno(s)
    ensures s.log[m.tx].call == s.calls
  {}

  lemma EnterKeeps(s: State, payload: seq<int>, room: nat)
    requires Inv(s) && s.phase.Idle? && s.calls + 1 < WORD
    ensures Inv(Enter(s, payload, room))
  {
    hide SendsOf, Ts, Echoed, Delivered;
    var s' := Enter(s, payload, room);
    NoSendsYet(s.log, s'.calls);
    forall m | m in s'.toServer ensures Genuine(s', m) { assert Genuine(s, m); }
    forall m | m in s'.toClient ensures Genuine(s', m) { assert Genuine(s, m); }
    assert Doublings(0) == 1.0;
    forall i | 0 <= i < |s'.done| ensures DoneOk(s', s'.done[i]) { assert DoneOk(s, s.done[i]); }
  }

  lemma TransmitKeeps(s: State)
    requires Inv(s) && s.phase.Sending?
    ensures Inv(Transmit(s))
  {
    hide SendsOf, Ts, Echoed, Delivered, BackedOff;
    var s' := Transmit(s);
    var t := s'.log[|s.log|];
    forall c ensures SendsOf(s'.log, c) <= MAXNREXMT + 1 { SendsSnoc(s.log, t, c); }
    SendsSnoc(s.log, t, s.calls);
    forall m | m in s.toServer + s.toClient ensures Genuine(s', m) && s'.log[m.tx] == s.log[m.tx] {
      assert Genuine(s, m);
    }
    var sent := Msg(Packet(Seqno(s), Ts(s.rtt.base, s.now), s.phase.payload), |s.log|);
    assert Genuine(s', sent);
    forall m | m in s'.toServer ensures Genuine(s', m) && m.pkt.data == s'.log[m.tx].data {
      if m != sent { assert m in s.toServer; }
    }
    assert LogOk(s') && NetOk(s') && RtoOk(s') && SendsOk(s') && OrderOk(s');
    forall i | 0 <= i < |s'.done| ensures DoneOk(s', s'.done[i]) { assert DoneOk(s, s.done[i]); }
  }

  lemma TimeUpKeeps(s: State)
    requires Inv(s) && (s.phase.Waiting? || s.phase.Got?)
    ensures Inv(TimeUp(s))
  {
    hide SendsOf, Ts, Echoed, Delivered, BackedOff;
    var s' := TimeUp(s);
    TimeoutBacksOff(s.rtt);
    forall m | m in s.toServer + s.toClient ensures Genuine(s', m) { assert Genuine(s, m); }
    forall i | 0 <= i < |s'.done| ensures DoneOk(s', s'.done[i]) { assert DoneOk(s, s.done[i]); }
  }

  lemma ReturnKeeps(s: State)
    requires Inv(s) && s.phase.Got?
    ensures Inv(Return(s))
  {
    hide SendsOf, Ts, Echoed, BackedOff;
    var s' := Return(s);
    var m := s.phase.msg;
    assert Genuine(s, m) && m.pkt.data == Echoed(s.log[m.tx].data);
    MatchIsCurrent(s, m);
    var d := s'.done[|s.done|];
    TsElapsed(s.rtt.base, s.log[m.tx].time, s.now);
    assert DoneOk(s', d);
    forall x | x in s.toServer + s.toClient ensures Genuine(s', x) { assert Genuine(s, x); }
    forall i | 0 <= i < |s'.done| ensures DoneOk(s', s'.done[i]) {
      if i < |s.done| { assert DoneOk(s, s.done[i]); }
    }
  }

  lemma QuietKeeps(s: State, e: Event)
    requires Inv(s) && Enabled(s, e) && (e.Tick? || e.Serve? || e.Receive? || e.Stray?)
    ensures Inv(Next(s, e))
  {
    hide SendsOf, Ts, Echoed, Delivered, BackedOff;
    var s' := Next(s, e);
    forall m | m in s.toServer + s.toClient ensures Genuine(s', m) { assert Genuine(s, m); }
    if e.Serve? {
      assert Genuine(s, e.m);
      assert Genuine(s', e.m.(pkt := e.m.pkt.(data := Echoed(e.m.pkt.data))));
    }
    forall i | 0 <= i < |s'.done| ensures DoneOk(s', s'.done[i]) { assert DoneOk(s, s.done[i]); }
  }

  lemma StepKeeps(s: State, e: Event)
    requires Inv(s) && Enabled(s, e)
    ensures Inv(Next(s, e))
  {
    match e
    case Call(p, r) => EnterKeeps(s, p, r);
    case Send => TransmitKeeps(s);
    case Alarm => TimeUpKeeps(s);
    case Finish => ReturnKeeps(s);
    case _ => QuietKeeps(s, e);
  }

  lemma StepBounded(s: State, e: Event, m: real)
    requires Bounded(s, m) && m >= 0.75 && Enabled(s, e)
    ensures Bounded(Next(s, e), m)
  {
    hide Ts, Echoed, Stop;
    var s' := Next(s, e);
    if forall i :: 0 <= i < |s'.done| ==> s'.done[i].ms as real / 1000.0 <= m {
      forall i | 0 <= i < |s.done| ensures s.done[i].ms as real / 1000.0 <= m {
        assert s'.done[i] == s.done[i];
      }
      if e.Finish? {
        assert s'.done[|s.done|].ms == Sample(s);
        StopWithin(s.rtt, Sample(s), m);
      }
    }
  }

  // ---- every run ----

  predicate Stepped(s: State, e: Event, s': State) {
    Enabled(s, e) && s' == Next(s, e)
  }

  /** A run: from the start through enabled events in any order. */
  predicate Run(tr: seq<State>, es: seq<Event>) {
    && |tr| == |es| + 1
    && tr[0] == Init()
    && forall i :: 0 <= i < |es| ==> Stepped(tr[i], es[i], tr[i + 1])
  }

  lemma {:induction false} RunsKeepInv(tr: seq<State>, es: seq<Event>, k: nat)
    requires Run(tr, es) && k < |tr|
    ensures Inv(tr[k])
  {
    hide Inv, Next, Enabled;
    if k == 0 {
      InitInv();
    } else {
      RunsKeepInv(tr, es, k - 1);
      assert Stepped(tr[k - 1], es[k - 1], tr[k - 1 + 1]);
      StepKeeps(tr[k - 1], es[k - 1]);
    }
  }

  lemma InitInv()
    ensures Inv(Init())
  {}

  /**
    In every run: a call that returned got back the echo of its own payload, in the very room it
    offered; it was transmitted at most four times; and the estimator was fed the milliseconds
    since the transmission that was answered, exactly when that was less than 2^32 ms ago and
    modulo 2^32 otherwise, across retransmissions, wrap-around and re-initialised bases.
  */
  lemma RequestsAreAnswered(tr: seq<State>, es: seq<Event>, k: nat, i: nat)
    requires Run(tr, es) && k < |tr| && i < |tr[k].done|
    ensures var s := tr[k]; var d := s.done[i];
      && d.result == Delivered(d.payload, d.room)
      && d.result <= d.payload && |d.result| == Least(|d.payload|, MAXLINE - HDR, d.room)
      && d.tx < |s.log| && s.log[d.tx].call == d.call && s.log[d.tx].data == d.payload
      && SendsOf(s.log, d.call) <= 4
      && s.log[d.tx].time <= d.at
      && d.ms == (d.at - s.log[d.tx].time) % WORD
      && (d.at - s.log[d.tx].time < WORD ==> d.ms == d.at - s.log[d.tx].time)
  {
    hide Run, SendsOf, LogOk, NetOk, RtoOk, SendsOk, OrderOk;
    RunsKeepInv(tr, es, k);
    assert DoneOk(tr[k], tr[k].done[i]);
  }

  /** In every run each call returns at most once. */
  lemma AnsweredOnce(tr: seq<State>, es: seq<Event>, k: nat, i: nat, j: nat)
    requires Run(tr, es) && k < |tr| && i < |tr[k].done| && j < |tr[k].done|
    requires tr[k].done[i].call == tr[k].done[j].call
    ensures i == j
  {
    hide Run, SendsOf, DoneOk, LogOk, NetOk, RtoOk, SendsOk;
    RunsKeepInv(tr, es, k);
    assert OrderOk(tr[k]);
  }

  /**
    In every run each transmission is made with a timeout in [2, 60] * 2^k, k the retransmissions so
    far, at most 3.
  */
  lemma SendsBackOff(tr: seq<State>, es: seq<Event>, k: nat)
    requires Run(tr, es) && k < |tr| && Enabled(tr[k], Send)
    ensures var s := tr[k];
      && 0 <= s.rtt.nrexmt <= 3 && BackedOff(s.rtt) && 2 <= Start(s.rtt) <= 480
      && 2.0 * Doublings(s.rtt.nrexmt) <= s.rtt.rto <= 60.0 * Doublings(s.rtt.nrexmt)
      && s.rtt.nrexmt == SendsOf(s.log, s.calls)
      && (s.rtt.nrexmt == 0 ==> 2.0 <= s.rtt.rto <= 60.0)
  {
    hide Run, SendsOf, DoneOk, LogOk, NetOk, OrderOk;
    RunsKeepInv(tr, es, k);
    AlarmRange(tr[k].rtt);
    var b := BackedOffIs(tr[k].rtt);
    DoublingsAre();
  }

  /**
    In every run, whenever no call is under way, the timeout of an initialised estimator is the point
    of [2, 60] nearest to srtt + 4 rttvar; during a call it is that, doubled per retransmission.
  */
  lemma TimeoutIsNearest(tr: seq<State>, es: seq<Event>, k: nat) returns (b: real)
    requires Run(tr, es) && k < |tr| && tr[k].rttinit
    ensures var s := tr[k];
      && Nearest(b, s.rtt.srtt + 4.0 * s.rtt.rttvar)
      && s.rtt.rto == if s.phase.Idle? then b else Times(b, Doublings(s.rtt.nrexmt))
  {
    hide Run, SendsOf, DoneOk, LogOk, NetOk, OrderOk;
    RunsKeepInv(tr, es, k);
    b := MinMax(Calc(tr[k].rtt.srtt, tr[k].rtt.rttvar));
    ClampIsNearest(Calc(tr[k].rtt.srtt, tr[k].rtt.rttvar));
  }

  /** In every run, if no sample exceeds m >= 0.75 seconds, neither estimator leaves [0, m]. */
  lemma {:induction false} EstimatorsStayBounded(tr: seq<State>, es: seq<Event>, k: nat, m: real)
    requires Run(tr, es) && k < |tr| && m >= 0.75
    ensures Bounded(tr[k], m)
  {
    hide Bounded, Next, Enabled;
    if k == 0 {
      InitBounded(m);
    } else {
      EstimatorsStayBounded(tr, es, k - 1, m);
      assert Stepped(tr[k - 1], es[k - 1], tr[k - 1 + 1]);
      StepBounded(tr[k - 1], es[k - 1], m);
    }
  }

  lemma InitBounded(m: real)
    requires m >= 0.0
    ensures Bounded(Init(), m)
  {}

  // ---- dg_send_recv itself ----

  /** Waiting for a reply, or holding a matching one with the alarm still set. */
  predicate InCall(s: State) {
    s.phase.Waiting? || s.phase.Got?
  }

  /** How the call reacts to one thing the world does; a timeout is followed by the next transmission. */
  function React(s: State, e: Event): State {
    if !Enabled(s, e) || e.Call? || e.Send? then s
    else
      var s1 := Next(s, e);
      if e.Alarm? && s1.phase.Sending? then Next(s1, Send) else s1
  }

  /** The world's script played to the client until the call returns. */
  function Drive(s: State, script: seq<Event>): State
    decreases |script|
  {
    if script == [] || !InCall(s) then s else Drive(React(s, script[0]), script[1..])
  }

  lemma DriveStep(s: State, script: seq<Event>, i: nat)
    requires i < |script| && InCall(s)
    ensures Drive(s, script[i..]) == Drive(React(s, script[i]), script[i + 1..])
  {
    assert script[i..][1..] == script[i + 1..];
  }

  lemma DriveOver(s: State, script: seq<Event>)
    requires !InCall(s) || script == []
    ensures Drive(s, script) == s
  {}

  const GAVE_UP := -1
  const STILL_WAITING := -2

  /** The static variables of dg_send_recv.c and the network it talks to; `st` is the state machine's view of them. */
  class Client {
    var clock: nat
    var seqno: nat             // sendhdr.seq
    var rttinit: bool
    const rttinfo: RttInfo
    var toServer: set<Msg>
    var toClient: set<Msg>
    var sent: nat              // transmissions so far, which name the messages
    ghost var st: State

    ghost predicate Coupled()
      reads this, rttinfo
    {
      && Inv(st)
      && clock == st.now && seqno == Seqno(st) && rttinit == st.rttinit && rttinfo.Val() == st.rtt
      && toServer == st.toServer && toClient == st.toClient && sent == |st.log|
    }

    /** The static storage before the first call: all zero. */
    constructor ()
      ensures Coupled() && st == Init() && fresh(rttinfo)
    {
      rttinfo := new RttInfo();
      clock, seqno, rttinit, toServer, toClient, sent := 0, 0, false, {}, {}, 0;
      st := Init();
      new;
      InitInv();
    }

    /** From the entry to the label `sendagain`. */
    method Begin(payload: seq<int>, room: nat)
      requires Coupled() && st.phase.Idle? && st.calls + 1 < WORD
      modifies this`seqno, this`rttinit, this`st, rttinfo
      ensures Coupled() && st == Next(old(st), Call(payload, room))
    {
      hide Inv;
      if !rttinit {
        rttinfo.InitAt(clock);
        rttinit := true;
      }
      seqno := (seqno + 1) % WORD;
      rttinfo.NewPacket();
      StepKeeps(st, Call(payload, room));
      st := Next(st, Call(payload, room));
    }

    /** `sendagain`: stamp and send. */
    method SendPacket(payload: seq<int>)
      requires Coupled() && st.phase.Sending? && st.phase.payload == payload
      modifies this`toServer, this`sent, this`st
      ensures Coupled() && st == Next(old(st), Send)
    {
      hide Inv;
      var ts := Ts(rttinfo.base, clock);
      toServer := toServer + {Msg(Packet(seqno, ts, payload), sent)};
      sent := sent + 1;
      StepKeeps(st, Send);
      st := Next(st, Send);
    }

    /**
      The network and the clock between two wake-ups of the client; a datagram of another call or
      too short is dropped.
    */
    method Background(e: Event)
      requires Coupled() && InCall(st) && (e.Tick? || e.Serve? || e.Stray? || e.Receive?)
      requires e.Receive? && st.phase.Waiting? ==> e.m in toClient && e.m.pkt.seqno != seqno
      modifies this`clock, this`toClient, this`st
      ensures Coupled() && st == if Enabled(old(st), e) then Next(old(st), e) else old(st)
    {
      hide Inv;
      ghost var on := Enabled(st, e);
      if on { StepKeeps(st, e); }
      match e {
        case Tick(ms) => clock := clock + ms;
        case Serve(m) =>
          if m in toServer {
            toClient := toClient + {m.(pkt := m.pkt.(data := Echoed(m.pkt.data)))};
          }
        case _ =>
      }
      st := if on then Next(st, e) else st;
    }

    /** SIGALRM: back off and send again, or give up. */
    method Expire(payload: seq<int>) returns (gaveUp: bool)
      requires Coupled() && InCall(st) && st.phase.payload == payload
      modifies this`rttinit, this`toServer, this`sent, this`st, rttinfo
      ensures Coupled() && gaveUp == GivesUp(Timeout(old(st.rtt)))
      ensures gaveUp ==> st == Next(old(st), Alarm) && st.phase.Idle? && !rttinit
      ensures !gaveUp ==> st == Next(Next(old(st), Alarm), Send)
    {
      hide Inv;
      StepKeeps(st, Alarm);
      st := Next(st, Alarm);
      var rc := rttinfo.TimedOut();
      gaveUp := rc < 0;
      if gaveUp {
        rttinit := false;
      } else {
        SendPacket(payload);
      }
    }

    /** Recvmsg returns a datagram with the current sequence number: what fits goes into the caller's buffer. */
    method Accept(m: Msg, room: nat) returns (inbuff: seq<int>)
      requires Coupled() && st.phase.Waiting? && m in toClient && m.pkt.seqno == seqno && room == st.phase.room
      modifies this`st
      ensures Coupled() && st == Next(old(st), Receive(m))
      ensures inbuff == if |m.pkt.data| <= room then m.pkt.data else m.pkt.data[..room]
    {
      hide Inv;
      StepKeeps(st, Receive(m));
      st := Next(st, Receive(m));
      inbuff := if |m.pkt.data| <= room then m.pkt.data else m.pkt.data[..room];
    }

    /** After a matching reply: stop the timer and update the estimators. */
    method Conclude(m: Msg)
      requires Coupled() && st.phase.Got? && st.phase.msg == m
      modifies this`st, rttinfo
      ensures Coupled() && st == Next(old(st), Finish)
    {
      hide Inv;
      rttinfo.StopAfter((Ts(rttinfo.base, clock) - m.pkt.ts) % WORD);
      StepKeeps(st, Finish);
      st := Next(st, Finish);
    }

    /**
      One thing the world does while the call is in its loop: `matched` says that `got` is a matching
      reply, with what fits of it in the caller's buffer, and that the alarm is still set.
    */
    method ReactTo(e: Event, payload: seq<int>, room: nat, matched: bool, got: Msg, buff: seq<int>)
      returns (o: Outcome, matched': bool, got': Msg, buff': seq<int>)
      requires Coupled() && st.phase == CallPhase(payload, room, matched, got)
      requires matched ==> buff == Delivered(payload, room)
      modifies this, rttinfo
      ensures Coupled() && st == React(old(st), e) && st.calls == old(st.calls)
      ensures o == Returned <==> e.Finish? && matched
      ensures o == Returned ==> st.phase.Idle? && buff' == Delivered(payload, room)
      ensures o == Returned ==> |st.done| == |old(st.done)| + 1 && st.done[|st.done| - 1].call == st.calls
      ensures o != Returned ==> st.done == old(st.done)
      ensures o == GaveUp ==> st.phase.Idle? && !rttinit && SendsOf(st.log, st.calls) == 4
      ensures o == Looping ==> st.phase == CallPhase(payload, room, matched', got')
      ensures o == Looping && matched' ==> buff' == Delivered(payload, room)
    {
      hide Inv, SendsOf, Next, Enabled, React;
      ReactIs(st, e);
      o, matched', got', buff' := Looping, matched, got, buff;
      match e {
        case Tick(_) => Background(e);
        case Serve(_) => Background(e);
        case Stray(_) => Background(e);
        case Receive(m) =>
          if !matched && m in toClient {
            if m.pkt.seqno != seqno {
              Background(e);
            } else {
              ReplyIsEcho(st, m, payload);
              buff' := Accept(m, room);
              matched', got' := true, m;
            }
          }
        case Alarm =>
          FourthIsLast(st);
          var gaveUp := Expire(payload);
          matched' := false;
          o := if gaveUp then GaveUp else Looping;
        case Finish =>
          if matched {
            Conclude(got);
            o := Returned;
          }
        case _ =>
      }
    }

    /**
      The call, against any behaviour of the network and the clock, a timeout after the matching
      reply and before alarm(0) included: it returns the length of the echo of its own payload, or
      gives up after exactly four transmissions, or is not done when the script ends.
    */
    method DgSendRecv(payload: seq<int>, room: nat, script: seq<Event>) returns (n: int, inbuff: seq<int>)
      requires Coupled() && st.phase.Idle? && st.calls + 1 < WORD
      modifies this, rttinfo
      ensures Coupled() && st.calls == old(st.calls) + 1
      ensures st == Drive(Next(Next(old(st), Call(payload, room)), Send), script)
      ensures n >= 0 ==> st.phase.Idle? && inbuff == Delivered(payload, room) && n == |inbuff|
      ensures n >= 0 ==> |st.done| == |old(st.done)| + 1 && st.done[|st.done| - 1].call == st.calls
      ensures n == GAVE_UP ==> st.phase.Idle? && !rttinit && st.done == old(st.done) && SendsOf(st.log, st.calls) == 4
      ensures n < 0 ==> n == GAVE_UP || (n == STILL_WAITING && InCall(st))
    {
      hide Inv, SendsOf, Drive, Next, Enabled, React, Coupled;
      EnterPhase(st, payload, room);
      Begin(payload, room);
      SendPacket(payload);
      inbuff := [];
      var matched, got := false, Msg(Packet(0, 0, []), 0);
      ghost var start := st;
      assert script[0..] == script;
      for i := 0 to |script|
        invariant Coupled() && st.phase == CallPhase(payload, room, matched, got)
        invariant matched ==> inbuff == Delivered(payload, room)
        invariant Drive(st, script[i..]) == Drive(start, script)
        invariant st.calls == old(st.calls) + 1 && st.done == old(st.done)
      {
        DriveStep(st, script, i);
        var o;
        o, matched, got, inbuff := ReactTo(script[i], payload, room, matched, got, inbuff);
        match o {
          case Looping =>
          case GaveUp =>
            DriveOver(st, script[i + 1..]);
            return GAVE_UP, [];
          case Returned =>
            DriveOver(st, script[i + 1..]);
            return |inbuff|, inbuff;
        }
      }
      DriveOver(st, script[|script|..]);
      n := STILL_WAITING;
    }
  }

  datatype Outcome = Looping | GaveUp | Returned

  /** In the loop of the call, before and after a matching reply. */
  function CallPhase(payload: seq<int>, room: nat, matched: bool, got: Msg): Phase {
    if matched then Got(payload, room, got) else Waiting(payload, room)
  }

  lemma EnterPhase(s: State, payload: seq<int>, room: nat)
    requires s.phase.Idle? && s.calls + 1 < WORD
    ensures Enabled(s, Call(payload, room))
    ensures var s1 := Next(s, Call(payload, room));
      && s1.phase == Sending(payload, room) && s1.calls == s.calls + 1 && s1.done == s.done
      && Enabled(s1, Send) && Next(s1, Send).phase == Waiting(payload, room)
      && Next(s1, Send).calls == s.calls + 1 && Next(s1, Send).done == s.done
  {}

  /** The reaction, event by event. */
  lemma ReactIs(s: State, e: Event)
    requires InCall(s)
    ensures e.Tick? || e.Serve? || e.Stray? ==>
      && React(s, e) == (if Enabled(s, e) then Next(s, e) else s)
      && React(s, e).phase == s.phase && React(s, e).calls == s.calls && React(s, e).done == s.done
    ensures e.Receive? && (s.phase.Got? || e.m !in s.toClient) ==> !Enabled(s, e) && React(s, e) == s
    ensures e.Receive? && s.phase.Waiting? && e.m in s.toClient ==>
      && Enabled(s, e) && React(s, e) == Next(s, e) && React(s, e).calls == s.calls && React(s, e).done == s.done
      && React(s, e).phase == if e.m.pkt.seqno == Seqno(s) then Got(s.phase.payload, s.phase.room, e.m) else s.phase
    ensures e.Alarm? ==>
      && Enabled(s, e) && React(s, e).calls == s.calls && React(s, e).done == s.done
      && (if GivesUp(Timeout(s.rtt)) then React(s, e) == Next(s, e) && Next(s, e).phase.Idle? && Next(s, e).log == s.log
          else
            && Next(s, e).phase.Sending? && Enabled(Next(s, e), Send) && React(s, e) == Next(Next(s, e), Send)
            && React(s, e).phase == Waiting(s.phase.payload, s.phase.room))
    ensures e.Finish? && s.phase.Waiting? ==> React(s, e) == s
    ensures e.Finish? && s.phase.Got? ==>
      && Enabled(s, e) && React(s, e) == Next(s, e) && React(s, e).phase.Idle? && React(s, e).calls == s.calls
      && |React(s, e).done| == |s.done| + 1 && React(s, e).done[|s.done|].call == s.calls
    ensures e.Call? || e.Send? ==> React(s, e) == s
  {
    hide Ts, Echoed, Stop;
  }

  /** A reply with the current sequence number carries the echo of the current payload. */
  lemma ReplyIsEcho(s: State, m: Msg, payload: seq<int>)
    requires Inv(s) && !s.phase.Idle? && s.phase.payload == payload && m in s.toClient && m.pkt.seqno == Seqno(s)
    ensures m.pkt.data == Echoed(payload)
  {
    hide SendsOf, RtoOk, SendsOk, OrderOk, DoneOk;
    assert Genuine(s, m);
    MatchIsCurrent(s, m);
  }

  /** The timeout that gives up comes after the fourth transmission. */
  lemma FourthIsLast(s: State)
    requires Inv(s) && InCall(s)
    ensures GivesUp(Timeout(s.rtt)) ==> SendsOf(s.log, s.calls) == 4
  {
    hide SendsOf, LogOk, NetOk, OrderOk, DoneOk;
  }

  // ---- calls do get answered ----

  /**
    Entering a call re-initialises the estimator only the first time or after giving up; else it
    keeps what it learned.
  */
  lemma CallKeepsEstimators(tr: seq<State>, es: seq<Event>, k: nat)
    requires Run(tr, es) && k < |es| && es[k].Call?
    ensures var s, s' := tr[k], tr[k + 1];
      && s'.calls == s.calls + 1 && s'.phase == Sending(es[k].payload, es[k].room) && s'.rttinit
      && s'.rtt.nrexmt == 0 && s'.log == s.log && s'.done == s.done
      && (if s.rttinit then s'.rtt == s.rtt.(nrexmt := 0)
          else s'.rtt.srtt == 0.0 && s'.rtt.rttvar == 0.75 && s'.rtt.rto == 3.0 && s'.rtt.base == s.now / 1000 % WORD)
  {
    hide Ts, Transmit, TimeUp, Return;
    assert Stepped(tr[k], es[k], tr[k + 1]);
  }

  /** The latest transmission, under way to the server, and the server's answer to it. */
  function Latest(s: State): Msg
    requires !s.phase.Idle? && s.log != []
  {
    Msg(Packet(Seqno(s), Ts(s.rtt.base, s.now), s.phase.payload), |s.log| - 1)
  }

  function Answer(m: Msg): Msg {
    m.(pkt := m.pkt.(data := Echoed(m.pkt.data)))
  }

  /** After `n` timeouts of a call that has just made its first transmission. */
  ghost predicate Retried(s: State, s0: State, n: nat) {
    && Inv(s) && s.phase == s0.phase && s.phase.Waiting? && s.calls == s0.calls && s.done == s0.done
    && s.rtt.nrexmt == n && s.log != [] && Latest(s) in s.toServer
  }

  lemma RetryOnce(s: State, s0: State, n: nat)
    requires Retried(s, s0, n) && n < 3
    ensures Retried(React(s, Alarm), s0, n + 1)
  {
    hide Inv, Ts, Echoed;
    StepKeeps(s, Alarm);
    StepKeeps(Next(s, Alarm), Send);
  }

  /** With the server reached at last, the call returns the echo. */
  lemma ReplyEnds(s: State, s0: State, n: nat)
    requires Retried(s, s0, n)
    ensures var s1 := React(s, Serve(Latest(s))); var s2 := React(s1, Receive(Answer(Latest(s))));
      var s3 := React(s2, Finish);
      && InCall(s1) && InCall(s2) && s3.phase.Idle? && |s3.done| == |s0.done| + 1
      && s3.done[|s0.done|].call == s0.calls && s3.done[|s0.done|].payload == s0.phase.payload
      && s3.done[|s0.done|].result == Delivered(s0.phase.payload, s0.phase.room)
  {
    hide Inv, Ts, Echoed, Stop;
  }

  lemma {:induction false} LossesThenReply(s: State, s0: State, n: nat, left: nat)
    requires Retried(s, s0, n) && n + left <= 3
    ensures exists m :: DrivenHome(s, s0, seq(left, _ => Alarm) + [Serve(m), Receive(Answer(m)), Finish])
    decreases left
  {
    hide Inv, Retried, React, Delivered, Answer, Latest;
    if left == 0 {
      assert s.phase.Waiting? by { RetriedWaits(s, s0, n); }
      var m := Home(s, s0, n);
      assert seq(left, _ => Alarm) + [Serve(m), Receive(Answer(m)), Finish] == [Serve(m), Receive(Answer(m)), Finish];
    } else {
      RetriedWaits(s, s0, n);
      RetryOnce(s, s0, n);
      LossesThenReply(React(s, Alarm), s0, n + 1, left - 1);
      var m :| DrivenHome(React(s, Alarm), s0, seq(left - 1, _ => Alarm) + [Serve(m), Receive(Answer(m)), Finish]);
      var script := seq(left, _ => Alarm) + [Serve(m), Receive(Answer(m)), Finish];
      assert script[0] == Alarm && script[1..] == seq(left - 1, _ => Alarm) + [Serve(m), Receive(Answer(m)), Finish];
    }
  }

  /** Played this script, the call returns the echo of its payload. */
  predicate DrivenHome(s: State, s0: State, script: seq<Event>) {
    var s' := Drive(s, script);
    && !s0.phase.Idle? && s'.phase.Idle? && |s'.done| == |s0.done| + 1
    && s'.done[|s0.done|].call == s0.calls && s'.done[|s0.done|].payload == s0.phase.payload
    && s'.done[|s0.done|].result == Delivered(s0.phase.payload, s0.phase.room)
  }

  lemma RetriedWaits(s: State, s0: State, n: nat)
    requires Retried(s, s0, n)
    ensures InCall(s) && s.phase.Waiting?
  {}

  lemma Home(s: State, s0: State, n: nat) returns (m: Msg)
    requires Retried(s, s0, n)
    ensures DrivenHome(s, s0, [Serve(m), Receive(Answer(m)), Finish])
  {
    m := Latest(s);
    ReplyEnds(s, s0, n);
    hide Inv, React, Delivered, Answer, Latest;
    var a := Receive(Answer(m));
    var s1 := React(s, Serve(m));
    var s2 := React(s1, a);
    assert [Serve(m), a, Finish][1..] == [a, Finish] && [a, Finish][1..] == [Finish] && [Finish][1..] == [];
    assert Drive(React(s2, Finish), []) == React(s2, Finish);
    assert Drive(s2, [Finish]) == React(s2, Finish);
    assert Drive(s1, [a, Finish]) == Drive(s2, [Finish]);
  }

  /** A fourth loss in a row ends the call: it gives up, and the next one starts afresh. */
  lemma {:induction false} FourLosses(s: State, s0: State, n: nat)
    requires Retried(s, s0, n) && n <= 3
    ensures var s' := Drive(s, seq(4 - n, _ => Alarm)); s'.phase.Idle? && !s'.rttinit && s'.done == s0.done
    decreases 3 - n
  {
    RetriedWaits(s, s0, n);
    var script := seq(4 - n, _ => Alarm);
    assert script[0] == Alarm && script[1..] == seq(3 - n, _ => Alarm);
    if n == 3 {
      hide Inv, Ts;
      assert script[1..] == [];
    } else {
      hide Inv, Retried, React;
      RetryOnce(s, s0, n);
      FourLosses(React(s, Alarm), s0, n + 1);
    }
  }

  /**
    From every idle state: a call whose first `losses` transmissions, at most three, are lost and whose
    next one is answered in time returns the echo of its payload; after a fourth loss it gives up.
  */
  lemma SurvivesLosses(s: State, payload: seq<int>, room: nat, losses: nat)
    requires Inv(s) && s.phase.Idle? && s.calls + 1 < WORD && losses <= 3
    ensures var s1 := Next(Next(s, Call(payload, room)), Send); var lost := Drive(s1, seq(4, _ => Alarm));
      && s1.phase == Waiting(payload, room) && s1.calls == s.calls + 1 && s1.done == s.done
      && lost.phase.Idle? && !lost.rttinit && lost.done == s.done
      && exists m :: DrivenHome(s1, s1, seq(losses, _ => Alarm) + [Serve(m), Receive(Answer(m)), Finish])
  {
    hide Inv, Ts, React, Drive, DrivenHome;
    StepKeeps(s, Call(payload, room));
    var s0 := Next(s, Call(payload, room));
    StepKeeps(s0, Send);
    var s1 := Next(s0, Send);
    assert Retried(s1, s1, 0);
    hide Next;
    LossesThenReply(s1, s1, 0, losses);
    FourLosses(s1, s1, 0);
  }
}
