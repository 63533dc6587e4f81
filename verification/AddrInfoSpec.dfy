/**
  The getaddrinfo result list as values: what one `ga_port` pass does to it, and what a
  whole sequence of passes leaves.
*/
module AddrInfoSpec {

  datatype Family = Inet | Inet6 | Local

  /** An addrinfo structure together with the socket address block it points to. */
  datatype Entry = Entry(family: Family, address: seq<int>, port: int, clone: bool, socktype: int, protocol: int)

  /** One `ga_port` call: a socket type and the port of the service for that type. */
  datatype Call = Call(socktype: int, port: int)

  /** The entry stamped with the type and, for the internet families, the port. */
  function Stamp(e: Entry, c: Call): Entry {
    e.(socktype := c.socktype, port := if e.family.Local? then e.port else c.port)
  }

  /** What a pass makes of one entry: stamped, cloned and the clone stamped, or left alone. */
  function PortOne(e: Entry, c: Call): seq<Entry> {
    if e.clone then
      if e.socktype != 0 then [e, Stamp(e.(clone := false), c)] else [Stamp(e, c)]
    else if e.socktype != c.socktype then [e]
    else [Stamp(e, c)]
  }

  function PortAll(es: seq<Entry>, c: Call): seq<Entry> {
    if es == [] then [] else PortAll(es[..|es| - 1], c) + PortOne(es[|es| - 1], c)
  }

  /** Whether a pass counts the entry in its `nfound`. */
  function FoundOne(e: Entry, c: Call): nat {
    if !e.family.Local? && (e.clone || e.socktype == c.socktype) then 1 else 0
  }

  function Found(es: seq<Entry>, c: Call): nat {
    if es == [] then 0 else Found(es[..|es| - 1], c) + FoundOne(es[|es| - 1], c)
  }

  function Passes(es: seq<Entry>, cs: seq<Call>): seq<Entry> {
    if cs == [] then es else PortAll(Passes(es, cs[..|cs| - 1]), cs[|cs| - 1])
  }

  /** The sum of the `nfound` values of the passes. */
  function Total(es: seq<Entry>, cs: seq<Call>): nat {
    if cs == [] then 0
    else Total(es, cs[..|cs| - 1]) + Found(Passes(es, cs[..|cs| - 1]), cs[|cs| - 1])
  }

  // ---- the list after any number of passes, said without passes ----

  /** The clones of one address, latest call first: each is inserted right behind the original. */
  function Clones(e: Entry, cs: seq<Call>): seq<Entry> {
    if cs == [] then [] else [Stamp(e.(clone := false), cs[|cs| - 1])] + Clones(e, cs[..|cs| - 1])
  }

  /** The entries one address ends up with: the original takes the first call. */
  function Block(e: Entry, cs: seq<Call>): seq<Entry> {
    if cs == [] then [e] else [Stamp(e, cs[0])] + Clones(e, cs[1..])
  }

  function Blocks(es: seq<Entry>, cs: seq<Call>): seq<Entry> {
    if es == [] then [] else Blocks(es[..|es| - 1], cs) + Block(es[|es| - 1], cs)
  }

  predicate Distinct(cs: seq<Call>) {
    && (forall i :: 0 <= i < |cs| ==> cs[i].socktype != 0)
    && (forall i, j :: 0 <= i < j < |cs| ==> cs[i].socktype != cs[j].socktype)
  }

  /** What the host phase builds when the caller names no socket type. */
  predicate Fresh(es: seq<Entry>) {
    forall i :: 0 <= i < |es| ==> es[i].clone && es[i].socktype == 0
  }

  predicate Internet(es: seq<Entry>) {
    forall i :: 0 <= i < |es| ==> !es[i].family.Local?
  }

  lemma {:induction false} PortAllAppend(xs: seq<Entry>, ys: seq<Entry>, c: Call)
    ensures PortAll(xs + ys, c) == PortAll(xs, c) + PortAll(ys, c)
    ensures Found(xs + ys, c) == Found(xs, c) + Found(ys, c)
  {
    hide PortOne, FoundOne;
    if ys == [] {
      assert xs + ys == xs;
    } else {
      var ys' := ys[..|ys| - 1];
      PortAllAppend(xs, ys', c);
      assert (xs + ys)[..|xs + ys| - 1] == xs + ys';
    }
  }

  /** A later pass with a new type leaves the existing clones alone. */
  lemma {:induction false} ClonesKept(e: Entry, cs: seq<Call>, c: Call)
    requires forall i :: 0 <= i < |cs| ==> cs[i].socktype != c.socktype
    ensures PortAll(Clones(e, cs), c) == Clones(e, cs) && Found(Clones(e, cs), c) == 0
  {
    if cs == [] {
    } else {
      var cs' := cs[..|cs| - 1];
      var x := [Stamp(e.(clone := false), cs[|cs| - 1])];
      ClonesKept(e, cs', c);
      PortAllAppend(x, Clones(e, cs'), c);
      PortAllOne(x[0], c);
    }
  }

  lemma PortAllOne(e: Entry, c: Call)
    ensures PortAll([e], c) == PortOne(e, c) && Found([e], c) == FoundOne(e, c)
  {
    assert [e][..0] == [];
    assert PortAll([], c) + PortOne(e, c) == PortOne(e, c);
  }

  lemma {:induction false} BlockPass(e: Entry, cs: seq<Call>, c: Call)
    requires e.clone && e.socktype == 0 && Distinct(cs + [c])
    ensures PortAll(Block(e, cs), c) == Block(e, cs + [c])
    ensures Found(Block(e, cs), c) == if e.family.Local? then 0 else 1
  {
    hide PortAll, Found;
    var all := cs + [c];
    assert all[|cs|] == c;
    if cs == [] {
      PortAllOne(e, c);
      assert all[1..] == [];
    } else {
      var first := Stamp(e, cs[0]);
      forall i | 0 <= i < |cs[1..]| ensures cs[1..][i].socktype != c.socktype {
        assert cs[1..][i] == all[i + 1];
      }
      ClonesKept(e, cs[1..], c);
      PortAllAppend([first], Clones(e, cs[1..]), c);
      PortAllOne(first, c);
      assert first.socktype != 0 by { assert all[0] == cs[0]; }
      assert all[1..] == cs[1..] + [c];
      assert all[1..][..|all[1..]| - 1] == cs[1..];
      assert [first, Stamp(first.(clone := false), c)] + Clones(e, cs[1..])
          == [first] + ([Stamp(e.(clone := false), c)] + Clones(e, cs[1..])) by {
        assert Stamp(first.(clone := false), c) == Stamp(e.(clone := false), c);
      }
    }
  }

  lemma {:induction false} BlocksPass(es: seq<Entry>, cs: seq<Call>, c: Call)
    requires Fresh(es) && Internet(es) && Distinct(cs + [c])
    ensures PortAll(Blocks(es, cs), c) == Blocks(es, cs + [c])
    ensures Found(Blocks(es, cs), c) == |es|
  {
    hide Block, PortOne, FoundOne;
    if es == [] {
    } else {
      var es' := es[..|es| - 1];
      BlocksPass(es', cs, c);
      BlockPass(es[|es| - 1], cs, c);
      PortAllAppend(Blocks(es', cs), Block(es[|es| - 1], cs), c);
    }
  }

  lemma {:induction false} NoCalls(es: seq<Entry>)
    ensures Blocks(es, []) == es
  {
    if es == [] {
    } else {
      var es', e := es[..|es| - 1], es[|es| - 1];
      NoCalls(es');
      assert Block(e, []) == [e] && es == es' + [e];
    }
  }

  /**
    Any number of passes with distinct nonzero socket types over any addresses: every address
    gets its block of one entry per type, in address order, and the counts add up to n * k.
  */
  lemma {:induction false} PassesGiveBlocks(es: seq<Entry>, cs: seq<Call>)
    requires Fresh(es) && Internet(es) && Distinct(cs)
    ensures Passes(es, cs) == Blocks(es, cs)
    ensures Total(es, cs) == |es| * |cs|
  {
    hide PortAll, Found, Blocks, Fresh, Internet;
    if cs == [] {
      NoCalls(es);
    } else {
      var cs', c := cs[..|cs| - 1], cs[|cs| - 1];
      assert cs == cs' + [c];
      PassesGiveBlocks(es, cs');
      BlocksPass(es, cs', c);
      assert |es| * |cs| == |es| * |cs'| + |es|;
    }
  }

  /** The one place in a block that carries call `j`: the original for the first call, else its clone. */
  function PlaceOf(cs: seq<Call>, j: nat): nat
    requires j < |cs|
  {
    if j == 0 then 0 else |cs| - j
  }

  /** A block holds exactly one entry per call, with the address kept and that call's port. */
  lemma BlockIsOnePerType(e: Entry, cs: seq<Call>, i: nat, j: nat)
    requires Distinct(cs) && i < |cs| && j < |cs| && !e.family.Local?
    ensures |Block(e, cs)| == |cs|
    ensures Block(e, cs)[i].socktype == cs[j].socktype <==> i == PlaceOf(cs, j)
    ensures i == PlaceOf(cs, j) ==> Block(e, cs)[i].port == cs[j].port
    ensures Block(e, cs)[i].(port := e.port, socktype := e.socktype, clone := e.clone) == e
    ensures Block(e, cs)[i].clone <==> e.clone && i == 0
  {
    ClonesAt(e, cs[1..]);
    var b := Block(e, cs);
    var own := if i == 0 then 0 else |cs| - i;
    if i > 0 {
      assert b[i] == Clones(e, cs[1..])[i - 1];
      assert b[i] == Stamp(e.(clone := false), cs[1..][|cs| - 1 - i]);
      assert cs[1..][|cs| - 1 - i] == cs[own];
    }
    assert b[i].socktype == cs[own].socktype;
    if own != j {
      var lo, hi := if own < j then own else j, if own < j then j else own;
      assert cs[lo].socktype != cs[hi].socktype;
    }
  }

  lemma {:induction false} ClonesAt(e: Entry, cs: seq<Call>)
    ensures |Clones(e, cs)| == |cs|
    ensures forall i :: 0 <= i < |cs| ==> Clones(e, cs)[i] == Stamp(e.(clone := false), cs[|cs| - 1 - i])
  {
    if cs == [] {
    } else {
      ClonesAt(e, cs[..|cs| - 1]);
    }
  }

  /** When the caller names a type there are no clones: the pass only fills in the port. */
  lemma {:induction false} NamedType(es: seq<Entry>, c: Call)
    requires forall i :: 0 <= i < |es| ==> !es[i].clone && es[i].socktype == c.socktype && !es[i].family.Local?
    ensures PortAll(es, c) == seq(|es|, i requires 0 <= i < |es| => es[i].(port := c.port))
    ensures Found(es, c) == |es|
  {
    if es == [] {
    } else {
      var es' := es[..|es| - 1];
      NamedType(es', c);
      assert seq(|es|, i requires 0 <= i < |es| => es[i].(port := c.port))
          == seq(|es'|, i requires 0 <= i < |es'| => es'[i].(port := c.port)) + [es[|es| - 1].(port := c.port)];
    }
  }

  /** A pass gives no port to Unix domain entries and counts none of them. */
  lemma {:induction false} LocalUntouched(es: seq<Entry>, c: Call)
    requires forall i :: 0 <= i < |es| ==> es[i].family.Local?
    ensures Found(es, c) == 0
    ensures forall x :: x in PortAll(es, c) ==>
      exists e :: e in es && x.family.Local? && x.port == e.port && x.address == e.address
  {
    if es == [] {
    } else {
      var es', e := es[..|es| - 1], es[|es| - 1];
      LocalUntouched(es', c);
      assert e in es;
      forall x | x in PortAll(es, c)
        ensures exists y :: y in es && x.family.Local? && x.port == y.port && x.address == y.address
      {
        if x in PortAll(es', c) {
          var y :| y in es' && x.family.Local? && x.port == y.port && x.address == y.address;
          assert y in es;
        } else {
          assert x in PortOne(e, c);
        }
      }
    }
  }
}
