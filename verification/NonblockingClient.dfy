/**
  nonblock/strclinonb: stdin to socket and socket to stdout through two buffers with moving
  pointers, and a half-close when stdin is done.
*/
module NonblockingClient {
  import opened Machine

  /**
    A nonblocking read: EWOULDBLOCK, or bytes (none for end of file); it returns no more than it was
    given room for.
  */
  datatype ReadResult = NoData | Bytes(b: seq<int>)

  /** A nonblocking write: EWOULDBLOCK, or how many bytes were taken, at most those offered. */
  datatype WriteResult = NoRoom | Wrote(n: nat)

  /** One pass: what select reports of what was asked for, and how the calls come out. */
  datatype Pass = Pass(
    stdin: bool, sockIn: bool, stdout: bool, sockOut: bool,
    fromStdin: ReadResult, fromSock: ReadResult, toStdout: WriteResult, toSock: WriteResult)

  datatype Status = Running | Finished | Premature

  function Min(a: nat, b: nat): nat {
    if a < b then a else b
  }

  // ---- the loop on values ----

  /** One buffer: the bytes between the pointers, where they start, and all that ever came in and went out. */
  datatype Chan = Chan(window: seq<int>, optr: nat, taken: seq<int>, delivered: seq<int>) {
    function Iptr(): nat {
      optr + |window|
    }

    function Fill(b: seq<int>): Chan {
      this.(window := window + b, taken := taken + b)
    }

    /** The first `n` bytes written out; both pointers go back to the beginning when nothing is left. */
    function Drain(n: nat): Chan
      requires n <= |window|
    {
      Chan(window[n..], if n == |window| then 0 else optr + n, taken, delivered + window[..n])
    }
  }

  /** The client: `fins` counts the calls of Shutdown(SHUT_WR). */
  datatype Client = Client(up: Chan, down: Chan, stdineof: bool, fins: nat, status: Status) {
    /** What select is asked for. */
    predicate WantsStdin() { !stdineof && up.Iptr() < MAXLINE }
    predicate WantsSockIn() { down.Iptr() < MAXLINE }
    predicate WantsSockOut() { up.window != [] }
    predicate WantsStdout() { down.window != [] }

    function ReadStdin(r: ReadResult): Client
      requires up.Iptr() <= MAXLINE
    {
      if r.NoData? then this
      else if r.b == [] then this.(stdineof := true, fins := if up.window == [] then fins + 1 else fins)
      else this.(up := up.Fill(r.b[..Min(|r.b|, MAXLINE - up.Iptr())]))
    }

    function ReadSock(r: ReadResult): Client
      requires down.Iptr() <= MAXLINE
    {
      if r.NoData? then this
      else if r.b == [] then this.(status := if stdineof then Finished else Premature)
      else this.(down := down.Fill(r.b[..Min(|r.b|, MAXLINE - down.Iptr())]))
    }

    function WriteStdout(w: WriteResult): Client {
      if w.NoRoom? || down.window == [] then this else this.(down := down.Drain(Min(w.n, |down.window|)))
    }

    function WriteSock(w: WriteResult): Client {
      if w.NoRoom? || up.window == [] then this
      else
        var up' := up.Drain(Min(w.n, |up.window|));
        this.(up := up', fins := if up'.window == [] && stdineof then fins + 1 else fins)
    }

    function Reads(p: Pass): Client
      requires up.Iptr() <= MAXLINE && down.Iptr() <= MAXLINE
    {
      var c := if p.stdin && WantsStdin() then ReadStdin(p.fromStdin) else this;
      if p.sockIn && WantsSockIn() then c.ReadSock(p.fromSock) else c
    }

    /** A write is tried when select allows it or when the read before it brought data. */
    predicate TriesStdout(p: Pass) {
      (p.stdout && WantsStdout()) || (p.sockIn && WantsSockIn() && Brought(p.fromSock))
    }

    predicate TriesSock(p: Pass) {
      (p.sockOut && WantsSockOut()) || (p.stdin && WantsStdin() && Brought(p.fromStdin))
    }

    function Writes(p: Pass, stdout: bool, sock: bool): Client {
      var c := if stdout then WriteStdout(p.toStdout) else this;
      if sock then c.WriteSock(p.toSock) else c
    }

    /** One turn of the endless loop. */
    function DoPass(p: Pass): Client
      requires up.Iptr() <= MAXLINE && down.Iptr() <= MAXLINE
    {
      var c := Reads(p);
      if c.status != Running then c else c.Writes(p, TriesStdout(p), TriesSock(p))
    }
  }

  predicate Brought(r: ReadResult) {
    r.Bytes? && r.b != []
  }

  // ---- what every pass keeps ----

  /** What came in is what went out and then the window; an empty window is reset; the buffer is not overrun. */
  predicate ChanOk(c: Chan) {
    c.taken == c.delivered + c.window && (c.window == [] ==> c.optr == 0) && c.Iptr() <= MAXLINE
  }

  predicate Inv(c: Client) {
    && ChanOk(c.up) && ChanOk(c.down)
    && c.fins == (if c.stdineof && c.up.window == [] then 1 else 0)
    && (c.status == Finished ==> c.stdineof)
  }

  lemma FillKeeps(c: Chan, b: seq<int>)
    requires ChanOk(c) && 1 <= |b| <= MAXLINE - c.Iptr()
    ensures ChanOk(c.Fill(b))
  {
    assert c.delivered + (c.window + b) == (c.delivered + c.window) + b;
  }

  lemma DrainKeeps(c: Chan, n: nat)
    requires ChanOk(c) && n <= |c.window|
    ensures ChanOk(c.Drain(n))
  {
    assert c.window == c.window[..n] + c.window[n..];
    assert c.delivered + (c.window[..n] + c.window[n..]) == (c.delivered + c.window[..n]) + c.window[n..];
  }

  lemma StdinKeeps(c: Client, r: ReadResult)
    requires Inv(c) && c.WantsStdin()
    ensures Inv(c.ReadStdin(r)) && c.ReadStdin(r).down == c.down && c.ReadStdin(r).status == c.status
  {
    if Brought(r) { FillKeeps(c.up, r.b[..Min(|r.b|, MAXLINE - c.up.Iptr())]); }
  }

  lemma SockKeeps(c: Client, r: ReadResult)
    requires Inv(c) && c.WantsSockIn() && c.status == Running
    ensures Inv(c.ReadSock(r))
  {
    if Brought(r) { FillKeeps(c.down, r.b[..Min(|r.b|, MAXLINE - c.down.Iptr())]); }
  }

  lemma ReadsKeep(c: Client, p: Pass)
    requires Inv(c) && c.status == Running
    ensures Inv(c.Reads(p))
  {
    hide Client.ReadStdin, Client.ReadSock;
    var c1 := c;
    if p.stdin && c.WantsStdin() {
      StdinKeeps(c, p.fromStdin);
      c1 := c.ReadStdin(p.fromStdin);
    }
    if p.sockIn && c.WantsSockIn() {
      SockKeeps(c1, p.fromSock);
    }
  }

  lemma WritesKeep(c: Client, p: Pass, stdout: bool, sock: bool)
    requires Inv(c)
    ensures Inv(c.Writes(p, stdout, sock))
  {
    var c1 := c;
    if stdout && p.toStdout.Wrote? {
      DrainKeeps(c.down, Min(p.toStdout.n, |c.down.window|));
      c1 := c.WriteStdout(p.toStdout);
    }
    if sock && p.toSock.Wrote? {
      DrainKeeps(c1.up, Min(p.toSock.n, |c1.up.window|));
    }
  }

  lemma PassKeeps(c: Client, p: Pass)
    requires Inv(c) && c.status == Running
    ensures Inv(c.DoPass(p))
  {
    ReadsKeep(c, p);
    hide Client.Reads, Client.Writes;
    WritesKeep(c.Reads(p), p, c.TriesStdout(p), c.TriesSock(p));
  }

  function Init(): Client {
    Client(Chan([], 0, [], []), Chan([], 0, [], []), false, 0, Running)
  }

  predicate Stepped(c: Client, p: Pass, c': Client) {
    c.status == Running && c.up.Iptr() <= MAXLINE && c.down.Iptr() <= MAXLINE && c' == c.DoPass(p)
  }

  /** A run: any passes, until the client returns or quits. */
  predicate Run(tr: seq<Client>, ps: seq<Pass>) {
    |tr| == |ps| + 1 && tr[0] == Init() && forall i :: 0 <= i < |ps| ==> Stepped(tr[i], ps[i], tr[i + 1])
  }

  lemma {:induction false} RunsKeepInv(tr: seq<Client>, ps: seq<Pass>, k: nat)
    requires Run(tr, ps) && k < |tr|
    ensures Inv(tr[k])
  {
    if k == 0 {
    } else {
      hide Inv;
      RunsKeepInv(tr, ps, k - 1);
      assert Stepped(tr[k - 1], ps[k - 1], tr[k - 1 + 1]);
      PassKeeps(tr[k - 1], ps[k - 1]);
    }
  }

  /**
    In every run: what went to the socket is a prefix of what stdin gave, what went to stdout is a
    prefix of what the socket gave, and the difference is exactly the buffer window. The FIN is sent
    at most once, exactly when stdin has ended and every byte of it has been written. (On end of file
    from the socket the client leaves without flushing: its window is what stdout may miss.)
  */
  lemma PrefixesAndFin(tr: seq<Client>, ps: seq<Pass>, k: nat)
    requires Run(tr, ps) && k < |tr|
    ensures var c := tr[k];
      && c.up.delivered <= c.up.taken && c.up.taken[|c.up.delivered|..] == c.up.window
      && c.down.delivered <= c.down.taken && c.down.taken[|c.down.delivered|..] == c.down.window
      && c.fins <= 1
      && (c.fins == 1 <==> c.stdineof && c.up.delivered == c.up.taken)
      && (c.status == Finished ==> c.stdineof)
  {
    RunsKeepInv(tr, ps, k);
  }

  /** In every run nothing is written to the socket after the FIN, and nothing is read from stdin after its end. */
  lemma SilentAfterFin(tr: seq<Client>, ps: seq<Pass>, k: nat)
    requires Run(tr, ps) && k < |ps|
    ensures tr[k].stdineof ==> tr[k + 1].stdineof && tr[k + 1].up.taken == tr[k].up.taken
    ensures tr[k].fins == 1 ==> tr[k + 1].fins == 1 && tr[k + 1].up.delivered == tr[k].up.delivered
  {
    RunsKeepInv(tr, ps, k);
    RunsKeepInv(tr, ps, k + 1);
    assert Stepped(tr[k], ps[k], tr[k + 1]);
  }

  /**
    In every run each pass before the end of stdin waits on stdin or on socket writability, and
    every pass on the socket or on stdout.
  */
  lemma AlwaysWaits(tr: seq<Client>, ps: seq<Pass>, k: nat)
    requires Run(tr, ps) && k < |tr|
    ensures !tr[k].stdineof ==> tr[k].WantsStdin() || tr[k].WantsSockOut()
    ensures tr[k].stdineof && tr[k].fins == 0 ==> tr[k].WantsSockOut()
    ensures tr[k].WantsSockIn() || tr[k].WantsStdout()
  {
    RunsKeepInv(tr, ps, k);
  }

  // ---- what a pass moves ----

  /** What a read that select allowed brings, in the room there is. */
  function Brings(ready: bool, r: ReadResult, room: int): seq<int> {
    if ready && r.Bytes? && room > 0 then (if |r.b| <= room then r.b else r.b[..room]) else []
  }

  /** What a write takes of the window it is offered. */
  function Takes(tried: bool, w: WriteResult, window: seq<int>): seq<int> {
    if tried && w.Wrote? then (if w.n <= |window| then window[..w.n] else window) else []
  }

  /**
    In every run each pass moves exactly this: the bytes the two reads bring go into the windows; a
    window that select allows to be written, or that a read has just filled, loses to its output the
    bytes the write takes, from the front. End of file on the socket ends the run, before any write:
    normally exactly if stdin had ended.
  */
  lemma PassMoves(tr: seq<Client>, ps: seq<Pass>, k: nat)
    requires Run(tr, ps) && k < |ps|
    ensures var c, p, c' := tr[k], ps[k], tr[k + 1];
      var up := Brings(p.stdin && !c.stdineof, p.fromStdin, MAXLINE - (c.up.optr + |c.up.window|));
      var down := Brings(p.sockIn, p.fromSock, MAXLINE - (c.down.optr + |c.down.window|));
      var eof := c.stdineof
        || (p.stdin && p.fromStdin == Bytes([]) && c.up.optr + |c.up.window| < MAXLINE);
      var over := p.sockIn && p.fromSock == Bytes([]) && c.down.optr + |c.down.window| < MAXLINE;
      && c'.stdineof == eof && c'.up.taken == c.up.taken + up && c'.down.taken == c.down.taken + down
      && c'.status == (if over then (if eof then Finished else Premature) else Running)
      && c'.up.delivered == c.up.delivered
           + Takes(!over && ((p.sockOut && c.up.window != []) || up != []), p.toSock, c.up.window + up)
      && c'.down.delivered == c.down.delivered
           + Takes(!over && ((p.stdout && c.down.window != []) || down != []), p.toStdout, c.down.window + down)
  {
    RunsKeepInv(tr, ps, k);
    assert Stepped(tr[k], ps[k], tr[k + 1]);
    var c, p := tr[k], ps[k];
    ReadMoves(c, p);
    hide Client.Reads;
    var c1 := c.Reads(p);
    if c1.status == Running {
      WriteMoves(c1, p, c.TriesStdout(p), c.TriesSock(p));
    }
  }

  lemma ReadMoves(c: Client, p: Pass)
    requires Inv(c) && c.status == Running
    ensures var c' := c.Reads(p);
      var up := Brings(p.stdin && !c.stdineof, p.fromStdin, MAXLINE - (c.up.optr + |c.up.window|));
      var down := Brings(p.sockIn, p.fromSock, MAXLINE - (c.down.optr + |c.down.window|));
      var eof := c.stdineof || (p.stdin && p.fromStdin == Bytes([]) && c.up.optr + |c.up.window| < MAXLINE);
      var over := p.sockIn && p.fromSock == Bytes([]) && c.down.optr + |c.down.window| < MAXLINE;
      && c'.stdineof == eof && c'.status == (if over then (if eof then Finished else Premature) else Running)
      && c'.up.taken == c.up.taken + up && c'.up.window == c.up.window + up && c'.up.delivered == c.up.delivered
      && c'.down.taken == c.down.taken + down && c'.down.window == c.down.window + down
      && c'.down.delivered == c.down.delivered
      && (up != [] <==> p.stdin && c.WantsStdin() && Brought(p.fromStdin))
      && (down != [] <==> p.sockIn && c.WantsSockIn() && Brought(p.fromSock))
  {}

  lemma WriteMoves(c: Client, p: Pass, stdout: bool, sock: bool)
    ensures var c' := c.Writes(p, stdout, sock);
      && c'.stdineof == c.stdineof && c'.status == c.status
      && c'.up.taken == c.up.taken && c'.down.taken == c.down.taken
      && c'.up.delivered == c.up.delivered + Takes(sock, p.toSock, c.up.window)
      && c'.down.delivered == c.down.delivered + Takes(stdout, p.toStdout, c.down.window)
  {}

  // ---- the buffers and pointers themselves ----

  class Channel {
    const buf: array<int>
    var iptr: nat
    var optr: nat
    ghost var taken: seq<int>
    ghost var delivered: seq<int>

    ghost predicate Valid()
      reads this
    {
      buf.Length == MAXLINE && optr <= iptr <= MAXLINE
    }

    ghost function Val(): Chan
      requires Valid()
      reads this, buf
    {
      Chan(buf[optr..iptr], optr, taken, delivered)
    }

    constructor ()
      ensures Valid() && fresh(buf) && Val() == Chan([], 0, [], [])
    {
      buf := new int[MAXLINE](i => 0);
      iptr, optr, taken, delivered := 0, 0, [], [];
    }

    /** Bytes arriving at `iptr`. */
    method Fill(b: seq<int>)
      requires Valid() && |b| <= MAXLINE - iptr
      modifies this`iptr, this`taken, buf
      ensures Valid() && Val() == old(Val()).Fill(b)
    {
      ghost var w := buf[optr..iptr];
      forall k | 0 <= k < |b| { buf[iptr + k] := b[k]; }
      assert buf[optr..iptr] == w && buf[iptr..iptr + |b|] == b;
      assert buf[optr..iptr + |b|] == buf[optr..iptr] + buf[iptr..iptr + |b|];
      iptr := iptr + |b|;
      taken := taken + b;
    }

    /** A write of the window that took `n` bytes of it. */
    method Drain(n: nat)
      requires Valid() && n <= iptr - optr
      modifies this`iptr, this`optr, this`delivered
      ensures Valid() && Val() == old(Val()).Drain(n)
    {
      ghost var w := buf[optr..iptr];
      delivered := delivered + w[..n];
      optr := optr + n;
      assert buf[optr..iptr] == w[n..];
      if optr == iptr {
        optr, iptr := 0, 0;
      }
    }
  }

  class StrCli {
    const up: Channel    // stdin to socket: to[], toiptr, tooptr
    const down: Channel  // socket to stdout: fr[], friptr, froptr
    var stdineof: bool
    ghost var fins: nat

    ghost predicate Valid()
      reads this, up, down
    {
      up != down && up.buf != down.buf && up.Valid() && down.Valid()
    }

    ghost function Val(st: Status): Client
      requires Valid()
      reads this, up, down, up.buf, down.buf
    {
      Client(up.Val(), down.Val(), stdineof, fins, st)
    }

    constructor ()
      ensures Valid() && Val(Running) == Init()
      ensures fresh(up) && fresh(down) && fresh(up.buf) && fresh(down.buf)
    {
      up := new Channel();
      down := new Channel();
      stdineof, fins := false, 0;
    }

    method ReadStdin(r: ReadResult)
      requires Valid()
      modifies this`stdineof, this`fins, up`iptr, up`taken, up.buf
      ensures Valid() && Val(Running) == old(Val(Running)).ReadStdin(r)
    {
      if r.Bytes? {
        if r.b == [] {
          stdineof := true;
          if up.optr == up.iptr {
            fins := fins + 1;
          }
        } else {
          up.Fill(r.b[..Min(|r.b|, MAXLINE - up.iptr)]);
        }
      }
    }

    method ReadSock(r: ReadResult) returns (st: Status)
      requires Valid()
      modifies down`iptr, down`taken, down.buf
      ensures Valid() && Val(st) == old(Val(Running)).ReadSock(r)
    {
      st := Running;
      if r.Bytes? {
        if r.b == [] {
          st := if stdineof then Finished else Premature;
        } else {
          down.Fill(r.b[..Min(|r.b|, MAXLINE - down.iptr)]);
        }
      }
    }

    method WriteStdout(w: WriteResult)
      requires Valid()
      modifies down`iptr, down`optr, down`delivered
      ensures Valid() && Val(Running) == old(Val(Running)).WriteStdout(w)
    {
      hide Chan.Drain;
      if down.iptr - down.optr > 0 && w.Wrote? {
        down.Drain(Min(w.n, down.iptr - down.optr));
      }
    }

    method WriteSock(w: WriteResult)
      requires Valid()
      modifies this`fins, up`iptr, up`optr, up`delivered
      ensures Valid() && Val(Running) == old(Val(Running)).WriteSock(w)
    {
      hide Chan.Drain;
      if up.iptr - up.optr > 0 && w.Wrote? {
        up.Drain(Min(w.n, up.iptr - up.optr));
        if up.optr == up.iptr && stdineof {
          fins := fins + 1;
        }
      }
    }

    lemma Sizes(st: Status)
      requires Valid()
      ensures Val(st).up.Iptr() == up.iptr <= MAXLINE && Val(st).down.Iptr() == down.iptr <= MAXLINE
      ensures Val(st).up.window == [] <==> up.optr == up.iptr
      ensures Val(st).down.window == [] <==> down.optr == down.iptr
      ensures Val(st).stdineof == stdineof && Val(st).status == st
    {}

    method DoReads(p: Pass) returns (st: Status)
      requires Valid()
      modifies this`stdineof, this`fins, up`iptr, up`taken, down`iptr, down`taken, up.buf, down.buf
      ensures Valid()
      ensures old(Val(Running)).up.Iptr() <= MAXLINE && old(Val(Running)).down.Iptr() <= MAXLINE
      ensures Val(st) == old(Val(Running)).Reads(p)
    {
      Sizes(Running);
      hide Val, Valid;
      var in2 := p.sockIn && down.iptr < MAXLINE;
      if p.stdin && !stdineof && up.iptr < MAXLINE {
        ReadStdin(p.fromStdin);
      }
      st := Running;
      if in2 {
        st := ReadSock(p.fromSock);
      }
    }

    method DoWrites(p: Pass, stdout: bool, sock: bool)
      requires Valid()
      modifies this`fins, up`iptr, up`optr, up`delivered, down`iptr, down`optr, down`delivered
      ensures Valid() && Val(Running) == old(Val(Running)).Writes(p, stdout, sock)
    {
      hide Val, Valid;
      if stdout {
        WriteStdout(p.toStdout);
      }
      if sock {
        WriteSock(p.toSock);
      }
    }

    /** One turn of the endless loop, in place. */
    method DoPass(p: Pass) returns (st: Status)
      requires Valid()
      modifies this`stdineof, this`fins, up`iptr, up`optr, up`taken, up`delivered,
               down`iptr, down`optr, down`taken, down`delivered, up.buf, down.buf
      ensures Valid()
      ensures old(Val(Running)).up.Iptr() <= MAXLINE && old(Val(Running)).down.Iptr() <= MAXLINE
      ensures Val(st) == old(Val(Running)).DoPass(p)
    {
      Sizes(Running);
      hide Val, Valid, Client.Reads, Client.Writes;
      var stdout := (p.stdout && down.optr != down.iptr) || (p.sockIn && down.iptr < MAXLINE && Brought(p.fromSock));
      var sock := (p.sockOut && up.optr != up.iptr)
        || (p.stdin && !stdineof && up.iptr < MAXLINE && Brought(p.fromStdin));
      st := DoReads(p);
      Sizes(st);
      if st == Running {
        DoWrites(p, stdout, sock);
      }
    }
  }
}
