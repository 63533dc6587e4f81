/**
  lib/readline: `my_read` refills a static buffer, `readline` takes bytes from it one at a time,
  `readlinebuf` shows what is left in it.
*/
module LineReader {
  import opened Machine

  /**
    What a call of read() does: bring some bytes, be interrupted, or fail. When no more are listed
    it reports end of file.
  */
  datatype Chunk = Data(bytes: seq<char>) | Interrupted | Failed

  predicate ChunkOk(c: Chunk) {
    c.Data? ==> 1 <= |c.bytes| <= MAXLINE
  }

  /**
    The bytes still to come, cut where read() fails: one piece more than there are failures. How
    the bytes of a piece come in chunks, and the interruptions, leave no trace in it.
  */
  function Pieces(script: seq<Chunk>): (ps: seq<seq<char>>)
    ensures |ps| >= 1
  {
    if script == [] then [[]]
    else
      var ps := Pieces(script[1..]);
      match script[0]
      case Data(bytes) => Prepend(bytes, ps)
      case Interrupted => ps
      case Failed => [[]] + ps
  }

  /** The bytes in front of the first piece. */
  function Prepend(bytes: seq<char>, ps: seq<seq<char>>): (r: seq<seq<char>>)
    requires |ps| >= 1
    ensures |r| == |ps|
  {
    [bytes + ps[0]] + ps[1..]
  }

  lemma PrependTwice(x: seq<char>, y: seq<char>, ps: seq<seq<char>>)
    requires |ps| >= 1
    ensures Prepend(x, Prepend(y, ps)) == Prepend(x + y, ps)
    ensures Prepend([], ps) == ps
  {
    assert x + (y + ps[0]) == (x + y) + ps[0];
    assert [] + ps[0] == ps[0];
  }

  lemma PiecesCons(c: Chunk, rest: seq<Chunk>)
    ensures c.Data? ==> Pieces([c] + rest) == Prepend(c.bytes, Pieces(rest))
    ensures c.Interrupted? ==> Pieces([c] + rest) == Pieces(rest)
    ensures c.Failed? ==> Pieces([c] + rest) == [[]] + Pieces(rest)
  {
    assert ([c] + rest)[1..] == rest;
  }

  /** Cutting a chunk in two, with interruptions in between, changes nothing. */
  lemma {:induction false} ChunksDoNotMatter(before: seq<Chunk>, x: seq<char>, y: seq<char>, after: seq<Chunk>)
    ensures Pieces(before + [Data(x + y)] + after) == Pieces(before + [Data(x), Interrupted, Data(y)] + after)
  {
    hide Pieces, Prepend;
    var whole, cut := [Data(x + y)], [Data(x), Interrupted, Data(y)];
    if before == [] {
      PrependTwice(x, y, Pieces(after));
      assert before + whole + after == [Data(x + y)] + after;
      assert before + cut + after == [Data(x)] + ([Interrupted] + ([Data(y)] + after));
      PiecesCons(Data(x + y), after);
      PiecesCons(Data(x), [Interrupted] + ([Data(y)] + after));
      PiecesCons(Interrupted, [Data(y)] + after);
      PiecesCons(Data(y), after);
    } else {
      ChunksDoNotMatter(before[1..], x, y, after);
      assert before + whole + after == [before[0]] + (before[1..] + whole + after);
      assert before + cut + after == [before[0]] + (before[1..] + cut + after);
      PiecesCons(before[0], before[1..] + whole + after);
      PiecesCons(before[0], before[1..] + cut + after);
    }
  }

  /** The bytes of all chunks, from the last one back. */
  function AllBytes(script: seq<Chunk>): seq<char> {
    if script == [] then []
    else
      var c := script[|script| - 1];
      AllBytes(script[..|script| - 1]) + if c.Data? then c.bytes else []
  }

  function Failures(script: seq<Chunk>): nat {
    if script == [] then 0 else Failures(script[..|script| - 1]) + if script[|script| - 1].Failed? then 1 else 0
  }

  lemma {:induction false} BytesCons(c: Chunk, rest: seq<Chunk>)
    ensures AllBytes([c] + rest) == (if c.Data? then c.bytes else []) + AllBytes(rest)
    ensures Failures([c] + rest) == (if c.Failed? then 1 else 0) + Failures(rest)
  {
    if rest == [] {
      assert [c] + rest == [c] && [c][..0] == [];
    } else {
      BytesCons(c, rest[..|rest| - 1]);
      assert ([c] + rest)[..|rest|] == [c] + rest[..|rest| - 1];
    }
  }

  /** The pieces hold all bytes in order, and there is one more of them than there are failures. */
  lemma {:induction false} PiecesAre(script: seq<Chunk>)
    ensures Concat(Pieces(script)) == AllBytes(script) && |Pieces(script)| == 1 + Failures(script)
  {
    if script == [] {
      assert Pieces(script)[1..] == [];
    } else {
      var c, rest := script[0], script[1..];
      PiecesAre(rest);
      assert script == [c] + rest;
      BytesCons(c, rest);
      PiecesCons(c, rest);
      hide Pieces, AllBytes, Failures;
      var ps := Pieces(rest);
      if c.Data? {
        assert Prepend(c.bytes, ps)[1..] == ps[1..];
        assert Concat(ps) == ps[0] + Concat(ps[1..]);
      } else if c.Failed? {
        assert ([[]] + ps)[1..] == ps;
      }
    }
  }

  // ---- reading a line byte by byte ----

  /** The first bytes of `u` up to and including a newline, at most `k` of them. */
  function Line(u: seq<char>, k: nat): (l: seq<char>)
    ensures l <= u && |l| <= k
  {
    if k == 0 || u == [] then []
    else if u[0] == '\n' then [u[0]]
    else
      assert u == [u[0]] + u[1..];
      [u[0]] + Line(u[1..], k - 1)
  }

  /** The buffer filled without meeting a newline. */
  predicate Filled(l: seq<char>, k: nat) {
    |l| == k && '\n' !in l
  }

  /** Filled exactly when there are that many bytes and none of them is a newline. */
  lemma {:induction false} FilledIff(u: seq<char>, k: nat)
    ensures Filled(Line(u, k), k) <==> |u| >= k && '\n' !in u[..k]
  {
    if k == 0 || u == [] {
    } else if u[0] == '\n' {
      assert |u| >= k ==> u[..k][0] == '\n';
    } else {
      FilledIff(u[1..], k - 1);
      var l := Line(u[1..], k - 1);
      assert Line(u, k) == [u[0]] + l;
      hide Line;
      if |u| >= k { assert u[..k] == [u[0]] + u[1..][..k - 1]; }
    }
  }

  /** What a call gives: a text, or the error return, which loses the bytes already taken. */
  datatype Result = Text(taken: seq<char>) | Error(taken: seq<char>)

  /** The line is not complete when a failing read() comes. */
  predicate CutOff(ps: seq<seq<char>>, k: nat)
    requires |ps| >= 1
  {
    |ps| > 1 && |ps[0]| < k && '\n' !in ps[0]
  }

  /** One call that stores up to `k` bytes, byte at a time. */
  function ReadOne(ps: seq<seq<char>>, k: nat): Result
    requires |ps| >= 1
  {
    if CutOff(ps, k) then Error(ps[0]) else Text(Line(ps[0], k))
  }

  /** What is left for later calls. */
  function Left(ps: seq<seq<char>>, k: nat): (r: seq<seq<char>>)
    requires |ps| >= 1
    ensures 1 <= |r| <= |ps|
  {
    if CutOff(ps, k) then ps[1..] else [ps[0][|Line(ps[0], k)|..]] + ps[1..]
  }

  /** How many bytes a call with this size may store. */
  function Room(size: nat): nat {
    if size == 0 then 0 else size - 1
  }

  /** The results of successive calls with these sizes. */
  function Reads(ps: seq<seq<char>>, sizes: seq<nat>): (rs: seq<Result>)
    requires |ps| >= 1
    ensures |rs| == |sizes|
    decreases |sizes|
  {
    if sizes == [] then []
    else [ReadOne(ps, Room(sizes[0]))] + Reads(Left(ps, Room(sizes[0])), sizes[1..])
  }

  function Concat(ts: seq<seq<char>>): seq<char> {
    if ts == [] then [] else ts[0] + Concat(ts[1..])
  }

  /** All bytes taken by the calls, stored as text or lost to an error. */
  function Taken(rs: seq<Result>): seq<char> {
    if rs == [] then [] else rs[0].taken + Taken(rs[1..])
  }

  function Errors(rs: seq<Result>): nat {
    if rs == [] then 0 else (if rs[0].Error? then 1 else 0) + Errors(rs[1..])
  }

  lemma ConcatCons(t: seq<char>, ts: seq<seq<char>>)
    ensures Concat([t] + ts) == t + Concat(ts)
  {
    assert ([t] + ts)[1..] == ts;
  }

  lemma TakenCons(r: Result, rs: seq<Result>)
    ensures Taken([r] + rs) == r.taken + Taken(rs)
    ensures Errors([r] + rs) == (if r.Error? then 1 else 0) + Errors(rs)
  {
    assert ([r] + rs)[1..] == rs;
  }

  /** One call moves bytes and makes none: what it took and what is left are what there was. */
  lemma OneCall(ps: seq<seq<char>>, k: nat)
    requires |ps| >= 1
    ensures Concat(ps) == ReadOne(ps, k).taken + Concat(Left(ps, k))
    ensures |Left(ps, k)| == |ps| - (if ReadOne(ps, k).Error? then 1 else 0)
  {
    hide Line, Concat;
    assert ps == [ps[0]] + ps[1..];
    ConcatCons(ps[0], ps[1..]);
    if !CutOff(ps, k) {
      var l := Line(ps[0], k);
      ConcatCons(ps[0][|l|..], ps[1..]);
      assert ps[0] == l + ps[0][|l|..];
      assert (l + ps[0][|l|..]) + Concat(ps[1..]) == l + (ps[0][|l|..] + Concat(ps[1..]));
    }
  }

  /**
    Across calls nothing is doubled or reordered, and nothing is lost but to an error; each error
    uses up one failure of read().
  */
  lemma {:induction false} TakenIsPrefix(ps: seq<seq<char>>, sizes: seq<nat>)
    requires |ps| >= 1
    ensures Taken(Reads(ps, sizes)) <= Concat(ps)
    ensures Errors(Reads(ps, sizes)) < |ps|
    decreases |sizes|
  {
    if sizes == [] {
      assert Taken([]) == [] && Errors([]) == 0;
    } else {
      ReadsUnfold(ps, sizes);
      hide Line, Left, ReadOne, Reads, Concat, Taken, Errors;
      var k := Room(sizes[0]);
      OneCall(ps, k);
      TakenIsPrefix(Left(ps, k), sizes[1..]);
      TakenCons(ReadOne(ps, k), Reads(Left(ps, k), sizes[1..]));
    }
  }

  lemma ReadsUnfold(ps: seq<seq<char>>, sizes: seq<nat>)
    requires |ps| >= 1
    ensures sizes == [] ==> Reads(ps, sizes) == []
    ensures sizes != [] ==>
      Reads(ps, sizes) == [ReadOne(ps, Room(sizes[0]))] + Reads(Left(ps, Room(sizes[0])), sizes[1..])
  {
    hide Line, Left, ReadOne;
  }

  /** Without failures every call gives a text: nothing at all is lost. */
  lemma {:induction false} NoFailureNoLoss(ps: seq<seq<char>>, sizes: seq<nat>, i: nat)
    requires |ps| == 1 && i < |sizes|
    ensures Reads(ps, sizes)[i].Text?
    decreases |sizes|
  {
    ReadsUnfold(ps, sizes);
    if i == 0 {
    } else {
      NoFailureNoLoss(Left(ps, Room(sizes[0])), sizes[1..], i - 1);
    }
  }

  // ---- the static buffer ----

  class Reader {
    var cnt: int                   // read_cnt
    var ptr: nat                   // read_ptr, as an index
    var buf: array<char>           // read_buf
    var script: seq<Chunk>         // how read() will behave from here on
    ghost var received: seq<char>  // every byte read() has brought
    ghost var delivered: seq<char> // every byte my_read has handed out

    ghost predicate Valid()
      reads this, buf
    {
      && buf.Length == MAXLINE
      && -1 <= cnt && ptr + (if cnt > 0 then cnt else 0) <= MAXLINE
      && (forall i :: 0 <= i < |script| ==> ChunkOk(script[i]))
      && received == delivered + Window()
    }

    /** What has been read but not delivered. */
    ghost function Window(): seq<char>
      requires buf.Length == MAXLINE && ptr + (if cnt > 0 then cnt else 0) <= MAXLINE
      reads this, buf
    {
      if cnt > 0 then buf[ptr..ptr + cnt] else []
    }

    /** Everything not yet delivered: the window and what read() will still bring, cut where it fails. */
    ghost function Undelivered(): (ps: seq<seq<char>>)
      requires Valid()
      reads this, buf
      ensures |ps| >= 1
    {
      Prepend(Window(), Pieces(script))
    }

    constructor (script: seq<Chunk>)
      requires forall i :: 0 <= i < |script| ==> ChunkOk(script[i])
      ensures Valid() && fresh(buf) && this.script == script && Undelivered() == Pieces(script)
    {
      buf := new char[MAXLINE](i => '\0');
      cnt, ptr := 0, 0;
      this.script := script;
      received, delivered := [], [];
      new;
      PrependTwice([], [], Pieces(script));
    }

    /**
      The refill loop of `my_read`, past interruptions: the count is negative on a failure, zero at
      the end of file.
    */
    method Refill()
      requires Valid() && cnt <= 0
      modifies this`cnt, this`ptr, this`script, this`received, buf
      ensures Valid() && buf == old(buf) && delivered == old(delivered)
      ensures cnt > 0 <==> old(Undelivered())[0] != []
      ensures cnt > 0 ==> Undelivered() == old(Undelivered())
      ensures cnt == 0 <==> old(Undelivered()) == [[]]
      ensures cnt == 0 ==> Undelivered() == [[]]
      ensures cnt < 0 ==> old(Undelivered()) == [[]] + Undelivered()
    {
      hide Prepend;
      ghost var ps := Pieces(script);
      PrependTwice([], [], ps);
      while true
        invariant Valid() && cnt <= 0 && buf == old(buf) && delivered == old(delivered)
        invariant Pieces(script) == ps
        decreases |script|
      {
        PrependTwice([], [], Pieces(script));
        if script == [] {
          cnt := 0;
          return;
        }
        var c := script[0];
        script := script[1..];
        PrependTwice([], [], Pieces(script));
        match c {
          case Interrupted =>
          case Failed =>
            cnt := -1;
            return;
          case Data(bytes) =>
            Bring(bytes);
            return;
        }
      }
    }

    /** A successful read() of these bytes into the empty buffer. */
    method Bring(bytes: seq<char>)
      requires Valid() && cnt <= 0 && 1 <= |bytes| <= MAXLINE
      modifies this`cnt, this`ptr, this`received, buf
      ensures Valid() && cnt == |bytes| && Undelivered() == Prepend(bytes, Pieces(script))
      ensures Undelivered()[0] != [] && Undelivered() != [[]]
    {
      hide Pieces;
      forall k | 0 <= k < |bytes| { buf[k] := bytes[k]; }
      cnt, ptr := |bytes|, 0;
      assert buf[0..|bytes|] == bytes;
      received := received + bytes;
    }

    /** `my_read`: 1 and a byte, 0 at end of file, -1 exactly when read() fails before another byte. */
    method MyRead() returns (rc: int, c: char)
      requires Valid()
      modifies this, buf
      ensures Valid() && buf == old(buf) && rc in {-1, 0, 1}
      ensures rc == 1 <==> old(Undelivered())[0] != []
      ensures rc == 0 <==> old(Undelivered()) == [[]]
      ensures rc == 1 ==> old(Undelivered()) == Prepend([c], Undelivered()) && delivered == old(delivered) + [c]
      ensures rc == 0 ==> Undelivered() == [[]]
      ensures rc == -1 ==> old(Undelivered()) == [[]] + Undelivered()
    {
      WindowFirst();
      hide Undelivered, Pieces, Prepend;
      c := '\0';
      if cnt <= 0 {
        Refill();
        if cnt < 0 {
          return -1, c;
        }
        if cnt == 0 {
          return 0, c;
        }
      }
      c := TakeByte();
      rc := 1;
    }

    lemma WindowFirst()
      requires Valid()
      ensures cnt > 0 ==> Undelivered()[0] != []
    {}

    method TakeByte() returns (c: char)
      requires Valid() && cnt > 0
      modifies this`cnt, this`ptr, this`delivered
      ensures Valid() && delivered == old(delivered) + [c]
      ensures old(Undelivered()) == Prepend([c], Undelivered())
    {
      hide Pieces, Prepend;
      ghost var w := Window();
      cnt := cnt - 1;
      c := buf[ptr];
      ptr := ptr + 1;
      assert w[0] == c && w[1..] == Window();
      assert w == [w[0]] + w[1..];
      delivered := delivered + [c];
      assert old(delivered) + ([c] + Window()) == delivered + Window();
      PrependTwice([c], Window(), Pieces(script));
    }

    /** `readlinebuf`: the count of, and where to find, the bytes read and not delivered. */
    method ReadlineBuf() returns (n: int, at: nat)
      requires Valid()
      ensures n == cnt
      ensures n > 0 ==> at + n <= buf.Length && received == delivered + buf[at..at + n]
      ensures n <= 0 ==> received == delivered
    {
      n, at := cnt, ptr;
    }

    /**
      `readline`: the stored bytes are the byte-at-a-time line whatever the chunks were. The count
      returned is its length, except that it is one more when the buffer filled without a newline;
      it is -1 exactly when read() fails before the line is complete, and then the `n` bytes taken
      are gone. `n` is where the terminating NUL went.
    */
    method Readline(vptr: array<char>, maxlen: nat) returns (rc: int, n: nat)
      requires Valid() && vptr != buf && 1 <= maxlen <= vptr.Length
      modifies this, buf, vptr
      ensures Valid() && buf == old(buf)
      ensures n < maxlen && vptr[..n] == ReadOne(old(Undelivered()), maxlen - 1).taken
      ensures rc == -1 <==> ReadOne(old(Undelivered()), maxlen - 1).Error?
      ensures rc != -1 ==> vptr[n] == '\0' && rc == n + (if Filled(vptr[..n], maxlen - 1) then 1 else 0)
      ensures Undelivered() == Left(old(Undelivered()), maxlen - 1)
    {
      hide Undelivered, Valid, Line, CutOff, ReadOne, Left, Filled;
      ghost var ps := Undelivered();
      rc, n := TakeLine(vptr, maxlen);
      ghost var text := vptr[..n];
      ReadIs(ps, text, Undelivered(), maxlen - 1, rc);
      if rc >= 0 {
        vptr[n] := '\0';
        assert vptr[..n] == text;
      }
    }

    /** The loop of `readline`: it ends with a newline, a full buffer, the end of the stream or an error. */
    method TakeLine(vptr: array<char>, maxlen: nat) returns (rc: int, n: nat)
      requires Valid() && vptr != buf && 1 <= maxlen <= vptr.Length
      modifies this, buf, vptr
      ensures Valid() && buf == old(buf)
      ensures n < maxlen && Stopped(old(Undelivered()), vptr[..n], Undelivered(), maxlen - 1, rc)
    {
      hide Undelivered, Valid, Prepend;
      var k := 1;
      n := 0;
      ghost var ps := Undelivered();
      PrependTwice([], [], ps);
      while k < maxlen
        invariant 1 <= k <= maxlen && n == k - 1
        invariant Valid() && buf == old(buf)
        invariant ps == Prepend(vptr[..n], Undelivered())
        invariant '\n' !in vptr[..n]
      {
        var c;
        ghost var before, now := vptr[..n], Undelivered();
        rc, c := MyRead();
        assert vptr[..n] == before;
        if rc == 1 {
          vptr[n] := c;
          n := n + 1;
          assert vptr[..n] == before + [c] && vptr[..n - 1] == before;
          PrependTwice(before, [c], Undelivered());
          if c == '\n' {
            return n, n;
          }
        } else {
          NothingMore(before, now);
          return if rc == 0 then k - 1 else -1, n;
        }
        k := k + 1;
      }
      assert n > 0 ==> vptr[..n - 1] == vptr[..n][..n - 1];
      rc := k;
    }

    /**
      Any number of calls, failing ones included: the results depend on the bytes and on where among
      them read() fails, not on how it cut them up.
    */
    method ReadLines(vptr: array<char>, sizes: seq<nat>) returns (results: seq<Result>)
      requires Valid() && vptr != buf
      requires forall i :: 0 <= i < |sizes| ==> 1 <= sizes[i] <= vptr.Length
      modifies this, buf, vptr
      ensures Valid() && results == Reads(old(Undelivered()), sizes)
    {
      hide Undelivered, Valid, Line, Reads, ReadOne, Left, CutOff;
      results := [];
      ghost var ps := Undelivered();
      assert sizes[0..] == sizes;
      for i := 0 to |sizes|
        invariant Valid() && buf == old(buf)
        invariant results + Reads(Undelivered(), sizes[i..]) == Reads(ps, sizes)
      {
        ghost var now := Undelivered();
        var rc, n := Readline(vptr, sizes[i]);
        assert sizes[i..][1..] == sizes[i + 1..];
        ReadsUnfold(now, sizes[i..]);
        var r := if rc == -1 then Error(vptr[..n]) else Text(vptr[..n]);
        assert r == ReadOne(now, sizes[i] - 1);
        assert (results + [r]) + Reads(Undelivered(), sizes[i + 1..]) == results + Reads(now, sizes[i..]);
        results := results + [r];
      }
      ReadsUnfold(Undelivered(), []);
    }
  }

  /** How the loop of `readline` can have stopped, having taken `t` and left `rest`. */
  ghost predicate Stopped(ps: seq<seq<char>>, t: seq<char>, rest: seq<seq<char>>, k: nat, rc: int) {
    && |ps| >= 1 && |rest| >= 1 && |t| <= k
    && '\n' !in t[..if |t| == 0 then 0 else |t| - 1]
    && (if rc == -1 then ps == [t] + rest && |t| < k && '\n' !in t
        else
          && ps == Prepend(t, rest)
          && (|| (rc == |t| > 0 && t[|t| - 1] == '\n')
              || (rc == |t| < k && ps == [t])
              || (rc == |t| + 1 == k + 1 && '\n' !in t)))
  }

  lemma NothingMore(t: seq<char>, ps: seq<seq<char>>)
    requires |ps| >= 1 && ps[0] == []
    ensures Prepend(t, ps) == [t] + ps[1..]
    ensures ps == [[]] ==> Prepend(t, ps) == [t]
  {
    assert t + [] == t;
  }

  /** How the loop stopped decides the result, what is left, and whether the count is right. */
  lemma ReadIs(ps: seq<seq<char>>, t: seq<char>, rest: seq<seq<char>>, k: nat, rc: int)
    requires Stopped(ps, t, rest, k, rc)
    ensures ReadOne(ps, k).taken == t && Left(ps, k) == rest
    ensures rc == -1 <==> ReadOne(ps, k).Error?
    ensures rc != -1 ==> rc == |t| + (if Filled(t, k) then 1 else 0)
  {
    if rc == -1 {
      assert CutOff(ps, k);
      assert ps[1..] == rest;
    } else {
      assert ps[0] == t + rest[0];
      LineUnique(ps[0], t, k);
      hide Line;
      assert !CutOff(ps, k);
      assert ps[0][|t|..] == rest[0] && ps[1..] == rest[1..];
      assert rest == [rest[0]] + rest[1..];
    }
  }

  lemma FirstIsLast(t: seq<char>)
    requires |t| >= 1 && t[0] == '\n' && '\n' !in t[..|t| - 1]
    ensures t == ['\n']
  {
    assert forall i :: 0 <= i < |t| - 1 ==> t[i] in t[..|t| - 1];
  }

  /** A prefix that ends at its first newline, at `k` bytes or at the end of `u` is the line. */
  lemma {:induction false} LineUnique(u: seq<char>, t: seq<char>, k: nat)
    requires t <= u && |t| <= k
    requires '\n' !in t[..if |t| == 0 then 0 else |t| - 1]
    requires (|t| > 0 && t[|t| - 1] == '\n') || |t| == k || |t| == |u|
    ensures Line(u, k) == t
  {
    if k == 0 || u == [] || t == [] {
    } else if u[0] == '\n' {
      FirstIsLast(t);
    } else {
      var t' := t[1..];
      assert t'[..if |t'| == 0 then 0 else |t'| - 1] == t[..|t| - 1][if |t| == 1 then 0 else 1..];
      LineUnique(u[1..], t', k - 1);
      assert Line(u, k) == [u[0]] + Line(u[1..], k - 1);
      assert t == [u[0]] + t';
    }
  }
}
