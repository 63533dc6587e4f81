/**
  The getaddrinfo result list on the heap: nodes linked through `next`, each with its own
  socket address block, built by `ga_aistruct`, walked and grown by `ga_port`, released by
  `freeaddrinfo`.
*/
module AddrInfoList {
  import opened AddrInfoSpec

  const SOCK_STREAM := 1
  const SOCK_DGRAM := 2

  /** sizeof(sun_path), the room for the path and its NUL in a Unix domain address (Linux). */
  const SUN_PATH := 108

  /** A socket address structure. */
  class SockAddr {
    const family: Family
    const address: seq<int>
    var port: int

    constructor (family: Family, address: seq<int>, port: int)
      ensures this.family == family && this.address == address && this.port == port
    {
      this.family, this.address, this.port := family, address, port;
    }
  }

  /** A canonical name, as strdup leaves it. */
  class CanonName {
    const text: string

    constructor (text: string)
      ensures this.text == text
    {
      this.text := text;
    }
  }

  /** An addrinfo structure, of which calloc leaves zero what is not filled in. */
  class Node {
    var next: Node?
    var clone: bool
    var family: Family
    var socktype: int
    var protocol: int
    var addr: SockAddr?
    var canon: CanonName?

    constructor Fill(family: Family, socktype: int, protocol: int, clone: bool)
      ensures this.family == family && this.socktype == socktype && this.protocol == protocol && this.clone == clone
      ensures next == null && addr == null && canon == null
    {
      this.family, this.socktype, this.protocol, this.clone := family, socktype, protocol, clone;
      next, addr, canon := null, null, null;
    }
  }

  /**
    The allocator: how many more requests it will grant, what it has handed out, and what it has
    been given back, in order.
  */
  class Memory {
    var left: nat
    ghost var granted: set<object>
    ghost var freed: seq<object>

    constructor (left: nat)
      ensures this.left == left && granted == {} && freed == []
    {
      this.left, granted, freed := left, {}, [];
    }

    method Grant(o: object)
      requires left > 0 && o !in granted
      modifies this`left, this`granted
      ensures left == old(left) - 1 && granted == old(granted) + {o}
    {
      left, granted := left - 1, granted + {o};
    }

    /** Only what was handed out may be given back, and nothing twice. */
    method Free(o: object)
      requires o in granted && o !in freed
      modifies this`freed
      ensures freed == old(freed) + [o]
    {
      freed := freed + [o];
    }

    /** Handed out and not given back. */
    ghost predicate Holding(os: set<object>)
      reads this
    {
      os <= granted && forall o :: o in os ==> o !in freed
    }
  }

  ghost function EntryOf(n: Node): Entry
    requires n.addr != null
    reads n, n.addr
  {
    Entry(n.family, n.addr.address, n.addr.port, n.clone, n.socktype, n.protocol)
  }

  /** The allocations a pass asks for: a node and a block per clone. */
  function CloneCost(es: seq<Entry>): nat {
    if es == [] then 0 else CloneCost(es[..|es| - 1]) + VisitCost(es[|es| - 1])
  }

  function VisitCost(e: Entry): nat {
    if e.clone && e.socktype != 0 then 2 else 0
  }

  /** The allocations of successive passes. */
  function PassesCost(es: seq<Entry>, cs: seq<Call>): nat {
    if cs == [] then 0 else PassesCost(es, cs[..|cs| - 1]) + CloneCost(Passes(es, cs[..|cs| - 1]))
  }

  datatype Status = Ok | Memory | NoName | Service | AddrFamily | System | Resolver(code: int)

  /** A path that does not fit its Unix domain address. */
  predicate TooLong(e: Entry) {
    e.family.Local? && |e.address| >= SUN_PATH
  }

  /** How `ga_aistruct` ends: the node is allocated before the path is looked at, the block after. */
  function AppendStatus(e: Entry, left: nat): Status {
    if left == 0 then Status.Memory else if TooLong(e) then Service else if left == 1 then Status.Memory else Ok
  }

  /** The requests it makes of the allocator that are granted. */
  function AppendTakes(e: Entry, left: nat): (n: nat)
    ensures n <= left
  {
    if left == 0 then 0 else if left == 1 || TooLong(e) then 1 else 2
  }

  /** A service string: a port number, or a name with the ports the services database gives it. */
  datatype ServiceString = Number(port: int) | Name(tcp: seq<int>, udp: seq<int>)

  /** The `ga_port` calls `ga_serv` makes, in order. */
  function ServiceCalls(hints: int, serv: ServiceString): seq<Call> {
    match serv
    case Number(p) =>
      if hints != 0 then [Call(hints, p)] else [Call(SOCK_STREAM, p), Call(SOCK_DGRAM, p)]
    case Name(tcp, udp) =>
      (if (hints == 0 || hints == SOCK_STREAM) && tcp != [] then [Call(SOCK_STREAM, tcp[0])] else [])
      + (if (hints == 0 || hints == SOCK_DGRAM) && udp != [] then [Call(SOCK_DGRAM, udp[0])] else [])
  }

  /** The node after position `i` of a spine. */
  ghost function NextAt(spine: seq<Node>, i: nat): Node? {
    if i + 1 < |spine| then spine[i + 1] else null
  }

  ghost function Inserted<T>(s: seq<T>, i: nat, c: T): seq<T>
    requires i < |s|
  {
    s[..i + 1] + [c] + s[i + 1..]
  }

  lemma InsertedAt<T>(spine: seq<T>, i: nat, c: T)
    requires i < |spine|
    ensures var s := Inserted(spine, i, c);
      && |s| == |spine| + 1
      && (forall k :: 0 <= k <= i ==> s[k] == spine[k])
      && s[i + 1] == c
      && (forall k :: i + 1 < k < |s| ==> s[k] == spine[k - 1])
      && (forall x :: x in s <==> x in spine || x == c)
  {
    assert spine == spine[..i + 1] + spine[i + 1..];
  }

  lemma NextInserted(spine: seq<Node>, i: nat, c: Node)
    requires i < |spine|
    ensures var s := Inserted(spine, i, c);
      && |s| == |spine| + 1
      && (forall k :: 0 <= k <= i ==> NextAt(s, k) == if k == i then c else NextAt(spine, k))
      && (forall k :: i < k < |s| ==> NextAt(s, k) == NextAt(spine, k - 1))
  {
    hide Inserted;
    InsertedAt(spine, i, c);
  }

  lemma NextAppended(spine: seq<Node>, c: Node)
    ensures |spine| > 0 ==> NextAt(spine + [c], |spine| - 1) == c
    ensures NextAt(spine + [c], |spine|) == null
    ensures forall k :: 0 <= k < |spine| - 1 ==> NextAt(spine + [c], k) == NextAt(spine, k)
  {}

  // ---- what a list owns ----

  /** The nodes, the blocks that are there, and the canonical name. */
  ghost function Things(ns: seq<Node>, bs: seq<SockAddr?>, name: CanonName?): set<object> {
    (set n: Node | n in ns) + (set b: SockAddr | b in bs) + (if name == null then {} else {name})
  }

  lemma InThings(ns: seq<Node>, bs: seq<SockAddr?>, name: CanonName?, o: object)
    ensures o in Things(ns, bs, name) <==>
      (o is Node && o as Node in ns) || (o is SockAddr && o as SockAddr in bs) || (name != null && o == name)
  {}

  lemma ThingsLinked(ns: seq<Node>, bs: seq<SockAddr?>, name: CanonName?, c: Node, ns': seq<Node>, bs': seq<SockAddr?>)
    requires forall n :: n in ns' <==> n in ns || n == c
    requires forall b :: b in bs' <==> b in bs || b == null
    ensures Things(ns', bs', name) == Things(ns, bs, name) + {c}
  {}

  lemma ThingsGiven(ns: seq<Node>, bs: seq<SockAddr?>, name: CanonName?, g: nat, sa: SockAddr)
    requires g < |bs| && bs[g] == null
    ensures Things(ns, bs[g := sa], name) == Things(ns, bs, name) + {sa}
  {
    forall b: SockAddr ensures b in bs[g := sa] <==> b in bs || b == sa {
      assert bs[g := sa][g] == sa;
      if b in bs {
        var k :| 0 <= k < |bs| && bs[k] == b;
        assert bs[g := sa][k] == b;
      }
    }
  }

  lemma ThingsNamed(ns: seq<Node>, bs: seq<SockAddr?>, name: CanonName)
    ensures Things(ns, bs, name) == Things(ns, bs, null) + {name}
  {}

  /** `o` is the node at position `i`, its block or its canonical name. */
  ghost predicate Owned(ns: seq<Node>, bs: seq<SockAddr?>, name: CanonName?, i: nat, o: object)
    requires |ns| == |bs| && i < |ns|
  {
    o == ns[i] || (bs[i] != null && o == bs[i]) || (i == 0 && name != null && o == name)
  }

  lemma ThingsAreOwned(ns: seq<Node>, bs: seq<SockAddr?>, name: CanonName?)
    requires |ns| == |bs| && (name != null ==> ns != [])
    ensures forall o :: o in Things(ns, bs, name) <==> exists i :: 0 <= i < |ns| && Owned(ns, bs, name, i, o)
  {
    hide Things;
    forall o: object ensures o in Things(ns, bs, name) <==> exists i :: 0 <= i < |ns| && Owned(ns, bs, name, i, o) {
      InThings(ns, bs, name, o);
      if o is Node && o as Node in ns {
        var i :| 0 <= i < |ns| && ns[i] == o as Node;
        assert Owned(ns, bs, name, i, o);
      } else if o is SockAddr && o as SockAddr in bs {
        var i :| 0 <= i < |bs| && bs[i] == o as SockAddr;
        assert Owned(ns, bs, name, i, o);
      } else if name != null && o == name {
        assert Owned(ns, bs, name, 0, o);
      }
    }
  }

  /** No node and no block is there twice. */
  ghost predicate Apart(ns: seq<Node>, bs: seq<SockAddr?>)
    requires |ns| == |bs|
  {
    && (forall i, j :: 0 <= i < j < |ns| ==> ns[i] != ns[j])
    && (forall i, j :: 0 <= i < j < |bs| && bs[i] != null ==> bs[i] != bs[j])
  }

  lemma ApartAppended(ns: seq<Node>, bs: seq<SockAddr?>, c: Node)
    requires |ns| == |bs| && Apart(ns, bs) && c !in ns
    ensures Apart(ns + [c], bs + [null])
  {}

  lemma ApartInserted(ns: seq<Node>, bs: seq<SockAddr?>, i: nat, c: Node)
    requires |ns| == |bs| && i < |ns| && Apart(ns, bs) && c !in ns
    ensures |Inserted(ns, i, c)| == |Inserted(bs, i, null)| && Apart(Inserted(ns, i, c), Inserted(bs, i, null))
  {
    hide Inserted;
    InsertedAt(ns, i, c);
    InsertedAt(bs, i, null);
  }

  lemma ApartGiven(ns: seq<Node>, bs: seq<SockAddr?>, g: nat, sa: SockAddr)
    requires |ns| == |bs| && g < |bs| && Apart(ns, bs) && sa !in bs
    ensures Apart(ns, bs[g := sa])
  {}

  class AddrList {
    var head: Node?
    var tail: Node?                  // the node whose `next` the builder fills in; null stands for `head` itself
    ghost var spine: seq<Node>       // the nodes in link order
    ghost var blocks: seq<SockAddr?> // their blocks
    ghost var name: CanonName?       // the canonical name, which only the first node has
    ghost var repr: set<object>      // exactly those

    /** Links spell out the spine, no two nodes share a node or a block, and nothing else belongs to the list. */
    ghost predicate Valid()
      reads this, repr
    {
      && this !in repr
      && |blocks| == |spine|
      && repr == Things(spine, blocks, name)
      && (forall i :: 0 <= i < |spine| ==> spine[i] in repr && spine[i].addr == blocks[i])
      && (forall i :: 0 <= i < |spine| ==> spine[i].canon == if i == 0 then name else null)
      && (forall i :: 0 <= i < |spine| && blocks[i] != null ==> blocks[i] in repr)
      && (name != null ==> spine != [] && name in repr)
      && head == (if spine == [] then null else spine[0])
      && (forall i :: 0 <= i < |spine| ==> spine[i].next == NextAt(spine, i))
      && Apart(spine, blocks)
    }

    /** The list, every block present, has the value `es`. */
    ghost predicate Holds(es: seq<Entry>)
      requires Valid()
      reads this, repr
    {
      |es| == |spine| && forall i :: 0 <= i < |spine| ==> spine[i].addr != null && EntryOf(spine[i]) == es[i]
    }

    /** The same but for the node at `g`, which is new and has no block. */
    ghost predicate HoldsBut(es: seq<Entry>, g: nat)
      requires Valid()
      reads this, repr
    {
      && |es| == |spine| && g < |es| && blocks[g] == null
      && forall i :: 0 <= i < |spine| && i != g ==> spine[i].addr != null && EntryOf(spine[i]) == es[i]
    }

    /**
      What is left when memory runs out while entry `i` of `es` is cloned: with nothing left no
      trace, with one request left a copy without a block.
    */
    ghost predicate CutShort(es: seq<Entry>, i: nat, left: nat)
      requires Valid()
      reads this, repr
    {
      i < |es| && if left == 0 then Holds(es) else HoldsBut(Grown(es, i), i + 1)
    }

    /** `e` at the end of `es`; without a block when only its node could be made, not at all when nothing could. */
    ghost predicate Appended(es: seq<Entry>, e: Entry, left: nat)
      requires Valid()
      reads this, repr
    {
      if left == 0 then Holds(es)
      else if AppendStatus(e, left) == Ok then Holds(es + [e])
      else HoldsBut(es + [e], |es|)
    }

    /**
      A pass that ran out of memory at entry `j`, with `left` requests to start with: those in front
      of it are done, those behind it untouched.
    */
    ghost predicate PassCut(es: seq<Entry>, c: Call, j: nat, left: nat)
      requires Valid()
      reads this, repr
    {
      && j < |es| && CloneCost(es[..j]) <= left < CloneCost(es[..j + 1])
      && CutShort(PortAll(es[..j], c) + es[j..], |PortAll(es[..j], c)|, left - CloneCost(es[..j]))
    }

    constructor ()
      ensures Valid() && Holds([]) && AtTail() && repr == {} && name == null
    {
      head, tail, spine, blocks, name, repr := null, null, [], [], null, {};
    }

    ghost predicate AtTail()
      requires Valid()
      reads this, repr
    {
      tail == if spine == [] then null else spine[|spine| - 1]
    }

    /** Link a new node, still without a block, through the tail pointer. */
    method LinkLast(ai: Node)
      requires Valid() && AtTail() && ai !in repr && ai.addr == null && ai.next == null && ai.canon == null
      modifies this`head, this`tail, this`spine, this`blocks, this`repr, (if tail == null then {} else {tail})`next
      ensures Valid() && AtTail() && repr == old(repr) + {ai} && spine == old(spine) + [ai]
      ensures blocks == old(blocks) + [null] && name == old(name)
    {
      hide NextAt, Things, Apart;
      NextAppended(spine, ai);
      ApartAppended(spine, blocks, ai);
      if spine != [] { OtherNodes(|spine| - 1); }
      ThingsLinked(spine, blocks, name, ai, spine + [ai], blocks + [null]);
      if tail == null { head := ai; } else { tail.next := ai; }
      tail := ai;
      spine, blocks, repr := spine + [ai], blocks + [null], repr + {ai};
    }

    method LinkEntry(ai: Node, ghost es: seq<Entry>, ghost e: Entry)
      requires Valid() && AtTail() && Holds(es) && ai !in repr && ai.addr == null && ai.next == null && ai.canon == null
      modifies this`head, this`tail, this`spine, this`blocks, this`repr, (if tail == null then {} else {tail})`next
      ensures Valid() && AtTail() && repr == old(repr) + {ai} && spine == old(spine) + [ai] && name == old(name)
      ensures |spine| == |es| + 1 && HoldsBut(es + [e], |es|)
    {
      ghost var was := spine;
      assert forall k :: 0 <= k < |was| ==> was[k] in repr && was[k].addr != null && was[k].addr in repr;
      hide Valid, AtTail;
      LinkLast(ai);
      LinkShape();
      forall k | 0 <= k < |was| ensures spine[k].addr != null && EntryOf(spine[k]) == (es + [e])[k] {
        assert spine[k] == was[k];
      }
    }

    lemma LinkShape()
      requires Valid()
      ensures |blocks| == |spine|
      ensures forall i :: 0 <= i < |spine| ==> spine[i] in repr && spine[i].addr == blocks[i]
    {}

    /** Link a new node, still without a block, behind position `i`. */
    method LinkAfter(ai: Node, c: Node, ghost i: nat)
      requires Valid() && i < |spine| && spine[i] == ai && c !in repr && c.addr == null && c.canon == null
      modifies this`spine, this`blocks, this`repr, ai`next, c`next
      ensures Valid() && repr == old(repr) + {c} && spine == Inserted(old(spine), i, c)
      ensures blocks == Inserted(old(blocks), i, null)
    {
      hide NextAt, Inserted, Things, Apart;
      ghost var was, wasBlocks := spine, blocks;
      NextInserted(was, i, c);
      ApartInserted(was, wasBlocks, i, c);
      OtherNodes(i);
      InsertedAt(was, i, c);
      InsertedAt(wasBlocks, i, null);
      c.next := ai.next;
      ai.next := c;
      spine, blocks, repr := Inserted(was, i, c), Inserted(wasBlocks, i, null), repr + {c};
      ThingsLinked(was, wasBlocks, name, c, spine, blocks);
      forall k | 0 <= k < |spine| ensures spine[k].next == NextAt(spine, k) {
        if k <= i {
          assert spine[k] == was[k];
          assert k < i ==> was[k].next == NextAt(was, k);
        } else if k == i + 1 {
          assert spine[k] == c;
          assert c.next == NextAt(was, i);
        } else {
          assert spine[k] == was[k - 1];
          assert was[k - 1].next == NextAt(was, k - 1);
        }
      }
    }

    /** Linking touches no value: the old entries move up to make room. */
    method LinkCopy(ai: Node, c: Node, ghost i: nat, ghost es: seq<Entry>)
      requires Valid() && Holds(es) && i < |spine| && spine[i] == ai && c !in repr && c.addr == null && c.canon == null
      modifies this`spine, this`blocks, this`repr, ai`next, c`next
      ensures Valid() && repr == old(repr) + {c}
      ensures |spine| == |es| + 1 && spine[i + 1] == c && HoldsBut(Grown(es, i), i + 1)
    {
      hide Valid, NextAt, Inserted, Things;
      ghost var was, wasBlocks := spine, blocks;
      LinkShape();
      LinkAfter(ai, c, i);
      InsertedAt(was, i, c);
      InsertedAt(wasBlocks, i, null);
      LinkShape();
      ghost var out := Grown(es, i);
      forall k | 0 <= k < |spine| && k != i + 1 ensures spine[k].addr != null && EntryOf(spine[k]) == out[k] {
        if k <= i { assert spine[k] == was[k]; } else { assert spine[k] == was[k - 1]; }
      }
    }

    lemma BlocksInRepr()
      requires Valid()
      ensures forall b: SockAddr :: b in blocks ==> b in repr
    {
      hide NextAt, Apart;
    }

    lemma OtherNodes(g: nat)
      requires Valid() && g < |spine|
      ensures forall i :: 0 <= i < |spine| && i != g ==> spine[i] != spine[g]
    {
      hide NextAt, Things;
      forall i | 0 <= i < |spine| && i != g ensures spine[i] != spine[g] {
        if i < g { assert spine[i] != spine[g]; } else { assert spine[g] != spine[i]; }
      }
    }

    lemma OtherBlocks(g: nat)
      requires Valid() && g < |spine|
      ensures forall i :: 0 <= i < |spine| && i != g && blocks[g] != null ==> blocks[i] != blocks[g]
    {
      hide NextAt, Things;
      forall i | 0 <= i < |spine| && i != g && blocks[g] != null ensures blocks[i] != blocks[g] {
        if i < g { assert blocks[i] != null ==> blocks[i] != blocks[g]; } else { assert blocks[g] != blocks[i]; }
      }
    }

    /** Hang a new block on the node that has none. */
    method GiveBlock(n: Node, sa: SockAddr, ghost g: nat, ghost es: seq<Entry>)
      requires Valid() && g < |spine| && HoldsBut(es, g) && spine[g] == n && sa !in repr
      requires es[g] == Entry(n.family, sa.address, sa.port, n.clone, n.socktype, n.protocol)
      modifies this`repr, this`blocks, n`addr
      ensures Valid() && Holds(es) && repr == old(repr) + {sa} && n.addr == sa
      ensures old(AtTail()) ==> AtTail()
    {
      hide NextAt, Things, Apart;
      BlocksInRepr();
      OtherNodes(g);
      ApartGiven(spine, blocks, g, sa);
      ThingsGiven(spine, blocks, name, g, sa);
      n.addr := sa;
      repr, blocks := repr + {sa}, blocks[g := sa];
    }

    /**
      `ga_aistruct`: append through the tail pointer. On failure the old list is still there, perhaps
      with a node without a block at its end.
    */
    method AiStruct(mem: Memory, hints: int, protocol: int, address: seq<int>, family: Family, ghost es: seq<Entry>)
      returns (rc: Status)
      requires Valid() && Holds(es) && AtTail() && mem !in repr
      modifies this`head, this`tail, this`spine, this`blocks, this`repr
      modifies (if tail == null then {} else {tail})`next, mem`left, mem`granted
      ensures Valid() && AtTail() && fresh(repr - old(repr)) && repr >= old(repr) && mem !in repr && name == old(name)
      ensures mem.granted == old(mem.granted) + (repr - old(repr))
      ensures var e, left := Entry(family, address, 0, hints == 0, hints, protocol), old(mem.left);
        && rc == AppendStatus(e, left)
        && mem.left == left - AppendTakes(e, left)
        && old(spine) <= spine && Appended(es, e, left) && (left == 0 ==> repr == old(repr))
    {
      hide Valid, NextAt, Holds, HoldsBut, AtTail;
      if mem.left == 0 { return Status.Memory; }
      var ai := new Node.Fill(family, hints, protocol, hints == 0);
      mem.Grant(ai);
      ghost var e := Entry(family, address, 0, hints == 0, hints, protocol);
      Sizes(es);
      LinkEntry(ai, es, e);
      if family.Local? && |address| >= SUN_PATH { return Service; }
      if mem.left == 0 { return Status.Memory; }
      var sa := new SockAddr(family, address, 0);
      mem.Grant(sa);
      GiveBlock(ai, sa, |es|, es + [e]);
      rc := Ok;
    }

    lemma Sizes(es: seq<Entry>)
      requires Valid() && Holds(es)
      ensures |spine| == |es|
    {}

    /** `ga_clone`: a copy of `ai` with its own block, linked right behind it. */
    method Clone(mem: Memory, ai: Node, ghost i: nat, ghost es: seq<Entry>) returns (c: Node?)
      requires Valid() && Holds(es) && i < |spine| && spine[i] == ai && mem !in repr
      modifies this`spine, this`blocks, this`repr, ai`next, mem`left, mem`granted
      ensures Valid() && fresh(repr - old(repr)) && repr >= old(repr) && mem !in repr
      ensures mem.granted == old(mem.granted) + (repr - old(repr))
      ensures mem.left == if old(mem.left) >= 2 then old(mem.left) - 2 else 0
      ensures c != null <==> old(mem.left) >= 2
      ensures c != null ==> |spine| == |es| + 1 && spine[i + 1] == c && c.addr != null && fresh(c.addr)
      ensures c != null ==> Holds(Grown(es, i))
      ensures c == null ==> CutShort(es, i, old(mem.left))
    {
      hide Valid, NextAt, Inserted, Holds, HoldsBut, Grown;
      NodeFacts(es, i);
      if mem.left == 0 { return null; }
      c := new Node.Fill(ai.family, ai.socktype, ai.protocol, false);
      mem.Grant(c);
      LinkCopy(ai, c, i, es);
      if mem.left == 0 { return null; }
      var sa := new SockAddr(ai.addr.family, ai.addr.address, ai.addr.port);
      mem.Grant(sa);
      GrownAt(es, i);
      GiveBlock(c, sa, i + 1, Grown(es, i));
    }

    /** Hang the canonical name on the first node. */
    method SetName(n: CanonName, ghost es: seq<Entry>)
      requires Valid() && Holds(es) && spine != [] && name == null && n !in repr
      modifies this`name, this`repr, repr
      ensures Valid() && Holds(es) && repr == old(repr) + {n} && name == n
    {
      hide NextAt, Things, Apart;
      OtherNodes(0);
      ThingsNamed(spine, blocks, n);
      head.canon := n;
      name, repr := n, repr + {n};
    }

    /** The two assignments of `ga_port` to the entry it settled on. */
    method StampAt(ai: Node, c: Call, ghost i: nat, ghost es: seq<Entry>) returns (counted: nat)
      requires Valid() && Holds(es) && i < |spine| && spine[i] == ai
      modifies ai`socktype, ai.addr`port
      ensures Valid() && Holds(es[i := Stamp(es[i], c)])
      ensures counted == if es[i].family.Local? then 0 else 1
    {
      hide NextAt, Things, Apart;
      OtherNodes(i);
      OtherBlocks(i);
      ai.socktype := c.socktype;
      counted := 0;
      if !ai.family.Local? {
        ai.addr.port := c.port;
        counted := 1;
      }
    }

    /** The body of `ga_port`'s loop for the entry at position `i`; `last` is where the walk goes on. */
    method Visit(mem: Memory, ai: Node, c: Call, ghost i: nat, ghost cur: seq<Entry>)
      returns (last: Node?, counted: nat, ghost at: nat)
      requires Valid() && Holds(cur) && i < |spine| == |cur| && spine[i] == ai && mem !in repr
      modifies this`spine, this`blocks, this`repr, repr, mem`left, mem`granted
      ensures Valid() && fresh(repr - old(repr)) && repr >= old(repr) && mem !in repr
      ensures mem.granted == old(mem.granted) + (repr - old(repr))
      ensures last == null <==> old(mem.left) < VisitCost(cur[i])
      ensures last == null ==> CutShort(cur, i, old(mem.left)) && mem.left == 0
      ensures last != null ==> mem.left == old(mem.left) - VisitCost(cur[i])
      ensures last != null ==> Holds(Spliced(cur, i, c)) && |spine| == |Spliced(cur, i, c)|
      ensures last != null ==> at < |spine| && spine[at] == last && at + 1 == i + |PortOne(cur[i], c)|
      ensures last != null ==> counted == FoundOne(cur[i], c)
    {
      hide Valid, NextAt, Holds, Stamp, CutShort;
      NodeFacts(cur, i);
      last, counted, at := ai, 0, i;
      if ai.clone {
        if ai.socktype != 0 {
          last := Clone(mem, ai, i, cur);
          if last == null {
            return;
          }
          ghost var grown := Grown(cur, i);
          NodeFacts(grown, i + 1);
          at := i + 1;
          counted := StampAt(last, c, i + 1, grown);
          assert grown[i + 1 := Stamp(grown[i + 1], c)] == Spliced(cur, i, c);
        } else {
          counted := StampAt(ai, c, i, cur);
          assert cur[i := Stamp(cur[i], c)] == Spliced(cur, i, c);
        }
      } else if ai.socktype != c.socktype {
        assert cur == Spliced(cur, i, c);
      } else {
        counted := StampAt(ai, c, i, cur);
        assert cur[i := Stamp(cur[i], c)] == Spliced(cur, i, c);
      }
    }

    /** `ga_port`: one walk over the list, growing it on the way; `j` is where it stopped. */
    method Port(mem: Memory, c: Call, ghost es: seq<Entry>) returns (nfound: int, ghost j: nat)
      requires Valid() && Holds(es) && mem !in repr
      modifies this`spine, this`blocks, this`repr, repr, mem`left, mem`granted
      ensures Valid() && fresh(repr - old(repr)) && repr >= old(repr) && mem !in repr
      ensures mem.granted == old(mem.granted) + (repr - old(repr))
      ensures nfound == -1 <==> old(mem.left) < CloneCost(es)
      ensures nfound == -1 ==> PassCut(es, c, j, old(mem.left)) && mem.left == 0
      ensures nfound != -1 ==>
        nfound == Found(es, c) && Holds(PortAll(es, c)) && mem.left == old(mem.left) - CloneCost(es)
    {
      hide *;
      nfound, j := 0, 0;
      var ai := head;
      ghost var i := 0;
      ghost var cur := es;
      WalkStart(es, c);
      NodeFacts(es, 0);
      while ai != null
        invariant Valid() && Holds(cur) && fresh(repr - old(repr)) && repr >= old(repr) && mem !in repr
        invariant mem.granted == old(mem.granted) + (repr - old(repr))
        invariant 0 <= j <= |es| && 0 <= i && Walked(es, c, j, i, cur)
        invariant |spine| == |cur| && i <= |cur| && ai == (if i < |spine| then spine[i] else null)
        invariant nfound == Found(es[..j], c)
        invariant mem.left == old(mem.left) - CloneCost(es[..j])
        decreases |es| - j
      {
        WalkStep(es, c, j, i, cur);
        CostGrows(es, j + 1);
        var counted;
        ghost var at;
        ai, counted, at := Visit(mem, ai, c, i, cur);
        if ai == null {
          CutWalk(es, c, j, i, cur, old(mem.left));
          return -1, j;
        }
        nfound := nfound + counted;
        cur := Spliced(cur, i, c);
        LinkFacts(at);
        ai := ai.next;
        i, j := at + 1, j + 1;
      }
      WalkEnd(es, c, j, i, cur);
    }

    lemma CutWalk(es: seq<Entry>, c: Call, j: nat, i: nat, cur: seq<Entry>, left: nat)
      requires Valid() && j < |es| && Walked(es, c, j, i, cur) && CloneCost(es[..j]) <= left < CloneCost(es[..j + 1])
      requires CutShort(cur, i, left - CloneCost(es[..j]))
      ensures PassCut(es, c, j, left)
    {
      hide Valid, CutShort, PortAll, CloneCost;
    }

    lemma LinkFacts(i: nat)
      requires Valid()
      ensures head == (if spine == [] then null else spine[0])
      ensures i < |spine| ==> spine[i].next == (if i + 1 < |spine| then spine[i + 1] else null)
    {}

    lemma NodeFacts(es: seq<Entry>, i: nat)
      requires Valid() && Holds(es) && i <= |spine|
      ensures |spine| == |es| && this !in repr && head == (if spine == [] then null else spine[0])
      ensures i < |spine| ==>
        && spine[i].next == (if i + 1 < |spine| then spine[i + 1] else null)
        && spine[i] in repr && spine[i].addr != null && spine[i].addr in repr
        && EntryOf(spine[i]) == es[i]
        && spine[i].clone == es[i].clone && spine[i].socktype == es[i].socktype
    {
      hide Things;
    }

    /** The service phase ran out of memory in pass `k` at entry `j`. */
    ghost predicate ServiceCut(es: seq<Entry>, cs: seq<Call>, k: nat, j: nat, left: nat)
      requires Valid()
      reads this, repr
    {
      && k < |cs| && PassesCost(es, cs[..k]) <= left
      && PassCut(Passes(es, cs[..k]), cs[k], j, left - PassesCost(es, cs[..k]))
    }

    lemma ServiceCutAt(es: seq<Entry>, cs: seq<Call>, all: seq<Call>, j: nat, left: nat)
      requires Valid() && |cs| < |all| && all[..|cs|] == cs && PassesCost(es, cs) <= left
      requires PassCut(Passes(es, cs), all[|cs|], j, left - PassesCost(es, cs))
      ensures ServiceCut(es, all, |cs|, j, left)
      ensures PassesCost(es, cs + [all[|cs|]]) <= PassesCost(es, all)
    {
      hide Valid, PassCut, Passes, PassesCost;
      CostOfCalls(es, all);
      assert all[..|cs| + 1] == cs + [all[|cs|]];
    }

    /** The next of the passes `all`, after `cs`; `start` is what memory there was before the first. */
    method Pass(mem: Memory, c: Call, ghost es: seq<Entry>, ghost cs: seq<Call>, ghost all: seq<Call>, ghost start: nat)
      returns (rc: int, ghost j: nat)
      requires Valid() && Holds(Passes(es, cs)) && mem !in repr
      requires |cs| < |all| && all[..|cs|] == cs && all[|cs|] == c && mem.left == start - PassesCost(es, cs)
      modifies this`spine, this`blocks, this`repr, repr, mem`left, mem`granted
      ensures Valid() && fresh(repr - old(repr)) && repr >= old(repr) && mem !in repr
      ensures mem.granted == old(mem.granted) + (repr - old(repr))
      ensures rc >= -1
      ensures rc == -1 <==> start < PassesCost(es, cs + [c])
      ensures rc == -1 ==> ServiceCut(es, all, |cs|, j, start) && start < PassesCost(es, all)
      ensures rc >= 0 ==> Holds(Passes(es, cs + [c])) && rc == Total(es, cs + [c]) - Total(es, cs)
      ensures rc >= 0 ==> mem.left == start - PassesCost(es, cs + [c])
    {
      hide *;
      PassesSnoc(es, cs, c);
      rc, j := Port(mem, c, Passes(es, cs));
      if rc == -1 { ServiceCutAt(es, cs, all, j, start); }
    }

    /** `ga_serv`: the passes the service string and the hinted socket type call for. */
    method Serv(mem: Memory, hints: int, serv: ServiceString, ghost es: seq<Entry>)
      returns (rc: Status, ghost k: nat, ghost j: nat)
      requires Valid() && Holds(es) && mem !in repr
      modifies this`spine, this`blocks, this`repr, repr, mem`left, mem`granted
      ensures Valid() && fresh(repr - old(repr)) && repr >= old(repr) && mem !in repr
      ensures mem.granted == old(mem.granted) + (repr - old(repr))
      ensures rc == ServiceStatus(es, hints, serv, old(mem.left))
      ensures rc == Status.Memory ==> ServiceCut(es, ServiceCalls(hints, serv), k, j, old(mem.left))
      ensures rc != Status.Memory ==> Holds(Passes(es, ServiceCalls(hints, serv)))
      ensures rc != Status.Memory ==> mem.left == old(mem.left) - PassesCost(es, ServiceCalls(hints, serv))
    {
      hide Valid, Holds, Passes, Total, PassesCost, ServiceCut, PassCut;
      ghost var all, left := ServiceCalls(hints, serv), mem.left;
      var nfound := 0;
      ghost var cs: seq<Call> := [];
      k, j := 0, 0;
      PassesStart(es);
      match serv {
        case Number(p) =>
          var t1 := if hints != 0 then hints else SOCK_STREAM;
          var r1;
          r1, j := Pass(mem, Call(t1, p), es, cs, all, left);
          if r1 < 0 { return Status.Memory, |cs|, j; }
          nfound, cs := nfound + r1, cs + [Call(t1, p)];
          if hints == 0 {
            var r2;
            r2, j := Pass(mem, Call(SOCK_DGRAM, p), es, cs, all, left);
            if r2 < 0 { return Status.Memory, |cs|, j; }
            nfound, cs := nfound + r2, cs + [Call(SOCK_DGRAM, p)];
          }
        case Name(tcp, udp) =>
          if (hints == 0 || hints == SOCK_STREAM) && tcp != [] {
            var r1;
            r1, j := Pass(mem, Call(SOCK_STREAM, tcp[0]), es, cs, all, left);
            if r1 < 0 { return Status.Memory, |cs|, j; }
            nfound, cs := nfound + r1, cs + [Call(SOCK_STREAM, tcp[0])];
          }
          if (hints == 0 || hints == SOCK_DGRAM) && udp != [] {
            var r2;
            r2, j := Pass(mem, Call(SOCK_DGRAM, udp[0]), es, cs, all, left);
            if r2 < 0 { return Status.Memory, |cs|, j; }
            nfound, cs := nfound + r2, cs + [Call(SOCK_DGRAM, udp[0])];
          }
      }
      assert cs == all;
      if nfound == 0 {
        return if hints == 0 then NoName else Service, k, j;
      }
      rc := Ok;
    }

    /**
      `freeaddrinfo`, also on a list an allocation failure left incomplete: no double release, no
      use after release.
    */
    method FreeAll(mem: Memory)
      requires Valid() && mem !in repr && mem.Holding(repr)
      modifies mem`freed
      ensures |blocks| == |spine| && mem.freed == old(mem.freed) + Released(spine, blocks, name, 0)
      ensures forall o :: o in mem.freed <==> o in old(mem.freed) || o in repr
    {
      hide *;
      LinkShape();
      AllLive(mem);
      LinkFacts(0);
      var ai := head;
      ghost var i := 0;
      while ai != null
        invariant 0 <= i <= |spine| && ai == (if i < |spine| then spine[i] else null)
        invariant Live(spine, blocks, name, mem.granted, mem.freed, i)
        invariant mem.freed + Released(spine, blocks, name, i) == old(mem.freed) + Released(spine, blocks, name, 0)
        decreases |spine| - i
      {
        LinkFacts(i);
        ReleasedStep(spine, blocks, name, mem.granted, mem.freed, i);
        ai := FreeOne(mem, ai, i);
        i := i + 1;
      }
      NothingReleased(spine, blocks, name);
      FreedExactlyOnce();
    }

    /** One turn of `freeaddrinfo`: the link is fetched before the node goes. */
    method FreeOne(mem: Memory, ai: Node, ghost i: nat) returns (ainext: Node?)
      requires Valid() && i < |spine| && ai == spine[i]
      requires forall o :: o in ReleasedOne(spine, blocks, name, i) ==> o in mem.granted && o !in mem.freed
      modifies mem`freed
      ensures mem.freed == old(mem.freed) + ReleasedOne(spine, blocks, name, i) && ainext == ai.next
    {
      hide Valid, NextAt, Things;
      FieldFacts(i);
      if ai.addr != null {
        mem.Free(ai.addr);
      }
      if ai.canon != null {
        mem.Free(ai.canon);
      }
      assert ai as object !in mem.freed;
      ainext := ai.next;
      mem.Free(ai);
    }

    lemma FieldFacts(i: nat)
      requires Valid() && i < |spine|
      ensures spine[i].addr == blocks[i] && spine[i].canon == if i == 0 then name else null
    {}

    lemma AllLive(mem: Memory)
      requires Valid() && mem.Holding(repr)
      ensures |blocks| == |spine| && Live(spine, blocks, name, mem.granted, mem.freed, 0)
    {
      hide Things, NextAt;
    }

    /** Each node, each block and the name is given back exactly once, and nothing else is. */
    lemma FreedExactlyOnce()
      requires Valid()
      ensures var r := Released(spine, blocks, name, 0);
        && (forall o :: o in r <==> o in repr)
        && (forall x, y :: 0 <= x < y < |r| ==> r[x] != r[y])
    {
      hide NextAt, Released, Things;
      ThingsAreOwned(spine, blocks, name);
      ReleasedAll(spine, blocks, name, 0);
      ReleasedOnce(spine, blocks, name, 0);
    }
  }

  /** A copy of entry `i`, not marked for cloning, right behind it. */
  function Grown(es: seq<Entry>, i: nat): seq<Entry>
    requires i < |es|
  {
    es[..i + 1] + [es[i].(clone := false)] + es[i + 1..]
  }

  lemma GrownAt(es: seq<Entry>, i: nat)
    requires i < |es|
    ensures |Grown(es, i)| == |es| + 1 && Grown(es, i)[i + 1] == es[i].(clone := false)
  {}

  /**
    How the service phase ends: out of memory exactly when the clones need more than there is, else
    by whether anything was found.
  */
  function ServiceStatus(es: seq<Entry>, hints: int, serv: ServiceString, left: nat): Status {
    var cs := ServiceCalls(hints, serv);
    if left < PassesCost(es, cs) then Status.Memory
    else if Total(es, cs) > 0 then Ok
    else if hints == 0 then NoName
    else Service
  }

  // ---- releasing ----

  /** What `freeaddrinfo` gives back for one node: its block and name (if any), then the node. */
  ghost function ReleasedOne(ns: seq<Node>, bs: seq<SockAddr?>, name: CanonName?, k: nat): seq<object>
    requires |ns| == |bs| && k < |ns|
  {
    (if bs[k] != null then [bs[k] as object] else [])
      + (if k == 0 && name != null then [name as object] else []) + [ns[k] as object]
  }

  ghost function Released(ns: seq<Node>, bs: seq<SockAddr?>, name: CanonName?, k: nat): seq<object>
    requires |ns| == |bs| && k <= |ns|
    decreases |ns| - k
  {
    if k == |ns| then [] else ReleasedOne(ns, bs, name, k) + Released(ns, bs, name, k + 1)
  }

  /** Nothing from position `i` on has been given back, and no two positions share anything. */
  ghost predicate Live(
    ns: seq<Node>, bs: seq<SockAddr?>, name: CanonName?, granted: set<object>, freed: seq<object>, i: nat)
    requires |ns| == |bs|
  {
    && (forall k, o :: i <= k < |ns| && o in ReleasedOne(ns, bs, name, k) ==> o in granted && o !in freed)
    && (forall j, k, o :: i <= j < k < |ns| && o in ReleasedOne(ns, bs, name, j) ==> o !in ReleasedOne(ns, bs, name, k))
  }

  lemma ReleasedStep(
    ns: seq<Node>, bs: seq<SockAddr?>, name: CanonName?, granted: set<object>, freed: seq<object>, i: nat)
    requires |ns| == |bs| && i < |ns| && Live(ns, bs, name, granted, freed, i)
    ensures forall o :: o in ReleasedOne(ns, bs, name, i) ==> o in granted && o !in freed
    ensures Live(ns, bs, name, granted, freed + ReleasedOne(ns, bs, name, i), i + 1)
    ensures freed + Released(ns, bs, name, i) == (freed + ReleasedOne(ns, bs, name, i)) + Released(ns, bs, name, i + 1)
  {
    hide ReleasedOne;
  }

  lemma NothingReleased(ns: seq<Node>, bs: seq<SockAddr?>, name: CanonName?)
    requires |ns| == |bs|
    ensures Released(ns, bs, name, |ns|) == []
  {}

  lemma OwnedIs(ns: seq<Node>, bs: seq<SockAddr?>, name: CanonName?, i: nat)
    requires |ns| == |bs| && i < |ns|
    ensures forall o :: Owned(ns, bs, name, i, o) <==>
      o == ns[i] || (bs[i] != null && o == bs[i]) || (i == 0 && name != null && o == name)
    ensures forall o :: Owned(ns, bs, name, i, o) <==> o in ReleasedOne(ns, bs, name, i)
    ensures var r := ReleasedOne(ns, bs, name, i); forall x, y :: 0 <= x < y < |r| ==> r[x] != r[y]
  {}

  /** A node goes last, after its block and its name. */
  lemma NodeGoesLast(ns: seq<Node>, bs: seq<SockAddr?>, name: CanonName?, i: nat)
    requires |ns| == |bs| && i < |ns|
    ensures var r := ReleasedOne(ns, bs, name, i);
      && r[|r| - 1] == ns[i]
      && (bs[i] != null ==> |r| >= 2 && r[0] == bs[i])
      && |r| == 1 + (if bs[i] != null then 1 else 0) + (if i == 0 && name != null then 1 else 0)
  {}

  lemma {:induction false} ReleasedAll(ns: seq<Node>, bs: seq<SockAddr?>, name: CanonName?, k: nat)
    requires |ns| == |bs| && k <= |ns|
    ensures forall i, o :: k <= i < |ns| && Owned(ns, bs, name, i, o) ==> o in Released(ns, bs, name, k)
    ensures forall o :: o in Released(ns, bs, name, k) ==> exists i :: k <= i < |ns| && Owned(ns, bs, name, i, o)
    decreases |ns| - k
  {
    hide Owned, ReleasedOne;
    if k == |ns| {
    } else {
      ReleasedAll(ns, bs, name, k + 1);
      OwnedIs(ns, bs, name, k);
      forall o | o in Released(ns, bs, name, k)
        ensures exists i :: k <= i < |ns| && Owned(ns, bs, name, i, o)
      {
        if o !in Released(ns, bs, name, k + 1) { assert Owned(ns, bs, name, k, o); }
      }
    }
  }

  lemma {:induction false} ReleasedOnce(ns: seq<Node>, bs: seq<SockAddr?>, name: CanonName?, k: nat)
    requires |ns| == |bs| && k <= |ns|
    requires forall i, j :: 0 <= i < j < |ns| ==> ns[i] != ns[j]
    requires forall i, j :: 0 <= i < j < |ns| && bs[i] != null ==> bs[i] != bs[j]
    ensures forall x, y :: 0 <= x < y < |Released(ns, bs, name, k)| ==>
      Released(ns, bs, name, k)[x] != Released(ns, bs, name, k)[y]
    decreases |ns| - k
  {
    hide ReleasedOne;
    if k == |ns| {
    } else {
      ReleasedOnce(ns, bs, name, k + 1);
      ReleasedAll(ns, bs, name, k + 1);
      OwnedIs(ns, bs, name, k);
      var h, r := ReleasedOne(ns, bs, name, k), Released(ns, bs, name, k + 1);
      forall y | 0 <= y < |r| ensures !Owned(ns, bs, name, k, r[y]) {
        assert r[y] in r;
        var i :| k + 1 <= i < |ns| && Owned(ns, bs, name, i, r[y]);
        assert ns[k] != ns[i];
      }
      assert Released(ns, bs, name, k) == h + r;
      forall x, y | 0 <= x < y < |h + r| ensures (h + r)[x] != (h + r)[y] {
        if x < |h| <= y { assert h[x] in h && !Owned(ns, bs, name, k, r[y - |h|]); }
      }
    }
  }

  /** The list value after the entry at `i` has been handled. */
  function Spliced(cur: seq<Entry>, i: nat, c: Call): seq<Entry>
    requires i < |cur|
  {
    cur[..i] + PortOne(cur[i], c) + cur[i + 1..]
  }

  /** The walk has handled `j` entries and stands at position `i` of the list value `cur`. */
  ghost predicate Walked(es: seq<Entry>, c: Call, j: nat, i: nat, cur: seq<Entry>) {
    j <= |es| && cur == PortAll(es[..j], c) + es[j..] && i == |PortAll(es[..j], c)|
  }

  lemma WalkStart(es: seq<Entry>, c: Call)
    ensures Walked(es, c, 0, 0, es) && Found(es[..0], c) == 0 && CloneCost(es[..0]) == 0
  {}

  lemma WalkStep(es: seq<Entry>, c: Call, j: nat, i: nat, cur: seq<Entry>)
    requires Walked(es, c, j, i, cur) && i < |cur|
    ensures j < |es|
    ensures Walked(es, c, j + 1, i + |PortOne(cur[i], c)|, Spliced(cur, i, c))
    ensures Found(es[..j + 1], c) == Found(es[..j], c) + FoundOne(cur[i], c)
    ensures CloneCost(es[..j + 1]) == CloneCost(es[..j]) + VisitCost(cur[i])
  {
    hide PortOne, FoundOne, VisitCost;
    var done := PortAll(es[..j], c);
    assert j < |es|;
    assert es[..j + 1][..j] == es[..j];
    assert PortAll(es[..j + 1], c) == done + PortOne(es[j], c);
    assert cur[..i] == done && cur[i + 1..] == es[j + 1..];
  }

  lemma WalkEnd(es: seq<Entry>, c: Call, j: nat, i: nat, cur: seq<Entry>)
    requires Walked(es, c, j, i, cur) && i == |cur|
    ensures j == |es| && es[..j] == es && cur == PortAll(es, c)
  {
    assert es[..|es|] == es;
  }

  lemma {:induction false} CostGrows(es: seq<Entry>, j: nat)
    ensures j <= |es| ==> CloneCost(es[..j]) <= CloneCost(es)
    decreases |es|
  {
    if j < |es| {
      CostGrows(es[..|es| - 1], j);
      assert es[..|es| - 1][..j] == es[..j];
    } else if j == |es| {
      assert es[..j] == es;
    }
  }

  lemma PassesStart(es: seq<Entry>)
    ensures Passes(es, []) == es && Total(es, []) == 0 && PassesCost(es, []) == 0
  {}

  lemma PassesSnoc(es: seq<Entry>, cs: seq<Call>, c: Call)
    ensures Passes(es, cs + [c]) == PortAll(Passes(es, cs), c)
    ensures Total(es, cs + [c]) == Total(es, cs) + Found(Passes(es, cs), c)
    ensures PassesCost(es, cs + [c]) == PassesCost(es, cs) + CloneCost(Passes(es, cs))
  {
    assert (cs + [c])[..|cs|] == cs;
  }

  lemma {:induction false} CostOfCalls(es: seq<Entry>, cs: seq<Call>)
    ensures forall k :: 0 <= k <= |cs| ==> PassesCost(es, cs[..k]) <= PassesCost(es, cs)
  {
    hide CloneCost, Passes;
    if cs == [] {
    } else {
      var cs' := cs[..|cs| - 1];
      CostOfCalls(es, cs');
      forall k | 0 <= k <= |cs| ensures PassesCost(es, cs[..k]) <= PassesCost(es, cs) {
        if k < |cs| { assert cs[..k] == cs'[..k]; } else { assert cs[..k] == cs; }
      }
    }
  }

  /** With no socket type named, the service phase gives every address one entry per protocol found. */
  lemma ServiceGivesBlocks(es: seq<Entry>, serv: ServiceString)
    requires Fresh(es) && Internet(es)
    ensures Passes(es, ServiceCalls(0, serv)) == Blocks(es, ServiceCalls(0, serv))
    ensures Total(es, ServiceCalls(0, serv)) == |es| * |ServiceCalls(0, serv)|
  {
    hide Passes, Blocks, Total;
    assert Distinct(ServiceCalls(0, serv));
    PassesGiveBlocks(es, ServiceCalls(0, serv));
  }

  // ---- how much memory the passes need ----

  lemma {:induction false} CloneCostAppend(xs: seq<Entry>, ys: seq<Entry>)
    ensures CloneCost(xs + ys) == CloneCost(xs) + CloneCost(ys)
  {
    hide VisitCost;
    if ys == [] {
      assert xs + ys == xs;
    } else {
      CloneCostAppend(xs, ys[..|ys| - 1]);
      assert (xs + ys)[..|xs + ys| - 1] == xs + ys[..|ys| - 1];
    }
  }

  lemma CloneCostOne(e: Entry)
    ensures CloneCost([e]) == VisitCost(e)
  {
    assert [e][..0] == [];
  }

  lemma {:induction false} ClonesCost(e: Entry, cs: seq<Call>)
    ensures CloneCost(Clones(e, cs)) == 0
  {
    hide CloneCost;
    if cs == [] {
      assert CloneCost([]) == 0 by { CloneCostNone(); }
    } else {
      var x := Stamp(e.(clone := false), cs[|cs| - 1]);
      ClonesCost(e, cs[..|cs| - 1]);
      CloneCostAppend([x], Clones(e, cs[..|cs| - 1]));
      CloneCostOne(x);
    }
  }

  lemma CloneCostNone()
    ensures CloneCost([]) == 0
  {}

  lemma BlockCost(e: Entry, cs: seq<Call>)
    requires e.clone && e.socktype == 0 && Distinct(cs)
    ensures CloneCost(Block(e, cs)) == if cs == [] then 0 else 2
  {
    hide CloneCost, Clones;
    if cs == [] {
      CloneCostOne(e);
    } else {
      ClonesCost(e, cs[1..]);
      CloneCostAppend([Stamp(e, cs[0])], Clones(e, cs[1..]));
      CloneCostOne(Stamp(e, cs[0]));
    }
  }

  lemma {:induction false} BlocksCost(es: seq<Entry>, cs: seq<Call>)
    requires Fresh(es) && Distinct(cs)
    ensures CloneCost(Blocks(es, cs)) == if cs == [] then 0 else 2 * |es|
  {
    hide CloneCost, Block;
    if es == [] {
      CloneCostNone();
    } else {
      var es', e := es[..|es| - 1], es[|es| - 1];
      BlocksCost(es', cs);
      BlockCost(e, cs);
      CloneCostAppend(Blocks(es', cs), Block(e, cs));
    }
  }

  /** The passes ask for a node and a block per address and type after the first. */
  lemma {:induction false} PassesCostIs(es: seq<Entry>, cs: seq<Call>)
    requires Fresh(es) && Internet(es) && Distinct(cs)
    ensures PassesCost(es, cs) == if cs == [] then 0 else 2 * (|es| * (|cs| - 1))
  {
    hide CloneCost, Passes, Fresh, Internet;
    if cs == [] {
    } else {
      var cs' := cs[..|cs| - 1];
      PassesCostIs(es, cs');
      PassesGiveBlocks(es, cs');
      BlocksCost(es, cs');
      if cs' != [] { assert |es| * (|cs| - 1) == |es| * (|cs'| - 1) + |es|; } else { assert |es| * 0 == 0; }
    }
  }

  // ---- what the service phase leaves, said without its passes ----

  /** The entries of one pass, by their places. */
  lemma {:induction false} BlocksOne(es: seq<Entry>, c: Call)
    ensures |Blocks(es, [c])| == |es|
    ensures forall i :: 0 <= i < |es| ==> Blocks(es, [c])[i] == Stamp(es[i], c)
  {
    if es == [] {
    } else {
      BlocksSnoc(es, [c]);
      BlockSmall(es[|es| - 1], [c]);
      hide Blocks, Block, Stamp;
      BlocksOne(es[..|es| - 1], c);
    }
  }

  lemma {:induction false} BlocksTwice(es: seq<Entry>, c: Call, c': Call)
    ensures |Blocks(es, [c, c'])| == 2 * |es|
  {
    if es == [] {
    } else {
      hide *;
      BlocksSnoc(es, [c, c']);
      BlockSmall(es[|es| - 1], [c, c']);
      BlocksTwice(es[..|es| - 1], c, c');
    }
  }

  /** The entries of two passes. */
  lemma {:induction false} BlocksTwo(es: seq<Entry>, c: Call, c': Call, i: nat)
    requires i < |es|
    ensures |Blocks(es, [c, c'])| == 2 * |es|
    ensures Blocks(es, [c, c'])[2 * i] == Stamp(es[i], c)
    ensures Blocks(es, [c, c'])[2 * i + 1] == Stamp(es[i].(clone := false), c')
  {
    hide *;
    var es', e := es[..|es| - 1], es[|es| - 1];
    BlocksTwice(es, c, c');
    BlocksTwice(es', c, c');
    BlocksSnoc(es, [c, c']);
    if i == |es| - 1 {
      BlockSmall(e, [c, c']);
    } else {
      BlocksTwo(es', c, c', i);
    }
  }

  lemma BlocksSnoc(es: seq<Entry>, cs: seq<Call>)
    requires es != []
    ensures Blocks(es, cs) == Blocks(es[..|es| - 1], cs) + Block(es[|es| - 1], cs)
  {}

  lemma BlockSmall(e: Entry, cs: seq<Call>)
    requires |cs| == 1 || |cs| == 2
    ensures |cs| == 1 ==> Block(e, cs) == [Stamp(e, cs[0])]
    ensures |cs| == 2 ==> Block(e, cs) == [Stamp(e, cs[0]), Stamp(e.(clone := false), cs[1])]
  {
    if |cs| == 2 {
      assert cs[1..] == [cs[1]] && [cs[1]][..0] == [];
      assert Clones(e, [cs[1]]) == [Stamp(e.(clone := false), cs[1])] + Clones(e, []);
    }
  }

  /**
    No socket type named: every address has a stream entry exactly when the service is a number or
    has a TCP port, with that port, and behind it a datagram entry exactly when it is a number or has
    a UDP port, with that one.
  */
  lemma ServiceNoHint(es: seq<Entry>, serv: ServiceString)
    requires Fresh(es) && Internet(es)
    ensures var out, found := Passes(es, ServiceCalls(0, serv)), Total(es, ServiceCalls(0, serv));
      match serv
      case Number(p) =>
        && |out| == 2 * |es| && found == 2 * |es|
        && (forall i :: 0 <= i < |es| ==> out[2 * i] == es[i].(socktype := SOCK_STREAM, port := p))
        && (forall i :: 0 <= i < |es| ==> out[2 * i + 1] == es[i].(clone := false, socktype := SOCK_DGRAM, port := p))
      case Name(tcp, udp) =>
        if tcp != [] && udp != [] then
          && |out| == 2 * |es| && found == 2 * |es|
          && (forall i :: 0 <= i < |es| ==> out[2 * i] == es[i].(socktype := SOCK_STREAM, port := tcp[0]))
          && (forall i :: 0 <= i < |es| ==>
                out[2 * i + 1] == es[i].(clone := false, socktype := SOCK_DGRAM, port := udp[0]))
        else if tcp != [] then
          && |out| == |es| && found == |es|
          && (forall i :: 0 <= i < |es| ==> out[i] == es[i].(socktype := SOCK_STREAM, port := tcp[0]))
        else if udp != [] then
          && |out| == |es| && found == |es|
          && (forall i :: 0 <= i < |es| ==> out[i] == es[i].(socktype := SOCK_DGRAM, port := udp[0]))
        else out == es && found == 0
  {
    hide Passes, Total, PassesCost, Fresh, Internet;
    match serv
    case Number(p) => TwoCalls(es, Call(SOCK_STREAM, p), Call(SOCK_DGRAM, p));
    case Name(tcp, udp) =>
      PassesStart(es);
      if tcp != [] && udp != [] {
        TwoCalls(es, Call(SOCK_STREAM, tcp[0]), Call(SOCK_DGRAM, udp[0]));
        assert ServiceCalls(0, serv) == [Call(SOCK_STREAM, tcp[0]), Call(SOCK_DGRAM, udp[0])];
      } else if tcp != [] {
        OneCall(es, Call(SOCK_STREAM, tcp[0]));
        assert ServiceCalls(0, serv) == [Call(SOCK_STREAM, tcp[0])];
      } else if udp != [] {
        OneCall(es, Call(SOCK_DGRAM, udp[0]));
        assert ServiceCalls(0, serv) == [Call(SOCK_DGRAM, udp[0])];
      }
  }

  lemma OneCall(es: seq<Entry>, c: Call)
    requires Fresh(es) && Internet(es) && c.socktype != 0
    ensures var out := Passes(es, [c]);
      && |out| == |es| && Total(es, [c]) == |es| && PassesCost(es, [c]) == 0
      && forall i :: 0 <= i < |es| ==> out[i] == es[i].(socktype := c.socktype, port := c.port)
  {
    PassesGiveBlocks(es, [c]);
    PassesCostIs(es, [c]);
    BlocksOne(es, c);
    hide Passes, Blocks, PassesCost, Total;
  }

  lemma TwoCalls(es: seq<Entry>, c: Call, c': Call)
    requires Fresh(es) && Internet(es) && c.socktype != 0 && c'.socktype != 0 && c.socktype != c'.socktype
    ensures var out := Passes(es, [c, c']);
      && |out| == 2 * |es| && Total(es, [c, c']) == 2 * |es| && PassesCost(es, [c, c']) == 2 * |es|
      && (forall i :: 0 <= i < |es| ==> out[2 * i] == es[i].(socktype := c.socktype, port := c.port))
      && (forall i :: 0 <= i < |es| ==>
            out[2 * i + 1] == es[i].(clone := false, socktype := c'.socktype, port := c'.port))
  {
    PassesGiveBlocks(es, [c, c']);
    PassesCostIs(es, [c, c']);
    BlocksTwice(es, c, c');
    hide Passes, Blocks, PassesCost, Total;
    forall i | 0 <= i < |es|
      ensures Blocks(es, [c, c'])[2 * i] == Stamp(es[i], c)
      ensures Blocks(es, [c, c'])[2 * i + 1] == Stamp(es[i].(clone := false), c')
    {
      BlocksTwo(es, c, c', i);
    }
  }

  /**
    A socket type named: a number, or a name with a port for that type's protocol, puts that port into
    every entry; any other name changes nothing.
  */
  lemma ServiceHint(es: seq<Entry>, t: int, serv: ServiceString)
    requires t != 0 && forall i :: 0 <= i < |es| ==> !es[i].clone && es[i].socktype == t && !es[i].family.Local?
    ensures var out, found := Passes(es, ServiceCalls(t, serv)), Total(es, ServiceCalls(t, serv));
      match serv
      case Number(p) => |out| == |es| == found && forall i :: 0 <= i < |es| ==> out[i] == es[i].(port := p)
      case Name(tcp, udp) =>
        if t == SOCK_STREAM && tcp != [] then
          |out| == |es| == found && forall i :: 0 <= i < |es| ==> out[i] == es[i].(port := tcp[0])
        else if t == SOCK_DGRAM && udp != [] then
          |out| == |es| == found && forall i :: 0 <= i < |es| ==> out[i] == es[i].(port := udp[0])
        else out == es && found == 0
    ensures PassesCost(es, ServiceCalls(t, serv)) == 0
  {
    hide Passes, Total, PassesCost;
    PassesStart(es);
    match serv
    case Number(p) => NamedCall(es, Call(t, p));
    case Name(tcp, udp) =>
      if t == SOCK_STREAM && tcp != [] {
        NamedCall(es, Call(t, tcp[0]));
        assert ServiceCalls(t, serv) == [Call(t, tcp[0])];
      } else if t == SOCK_DGRAM && udp != [] {
        NamedCall(es, Call(t, udp[0]));
        assert ServiceCalls(t, serv) == [Call(t, udp[0])];
      }
  }

  lemma NamedCall(es: seq<Entry>, c: Call)
    requires forall i :: 0 <= i < |es| ==> !es[i].clone && es[i].socktype == c.socktype && !es[i].family.Local?
    ensures var out := Passes(es, [c]);
      && |out| == |es| && Total(es, [c]) == |es| && PassesCost(es, [c]) == 0
      && forall i :: 0 <= i < |es| ==> out[i] == es[i].(port := c.port)
  {
    hide Passes, Total, PassesCost, PortAll, Found, CloneCost;
    PassesStart(es);
    CloneCostNamed(es);
    assert [] + [c] == [c];
    PassesSnoc(es, [], c);
    NamedType(es, c);
  }

  lemma {:induction false} CloneCostNamed(es: seq<Entry>)
    requires forall i :: 0 <= i < |es| ==> !es[i].clone
    ensures CloneCost(es) == 0
  {
    if es == [] {
    } else {
      CloneCostNamed(es[..|es| - 1]);
    }
  }

  /** The status, no type named: EAI_NONAME exactly when there is no port for either protocol or no address. */
  lemma ServiceStatusNoHint(es: seq<Entry>, serv: ServiceString, left: nat)
    requires Fresh(es) && Internet(es)
    ensures var both := serv.Number? || (serv.tcp != [] && serv.udp != []);
      ServiceStatus(es, 0, serv, left) ==
        if both && left < 2 * |es| then Status.Memory
        else if es != [] && (serv.Number? || serv.tcp != [] || serv.udp != []) then Ok
        else NoName
  {
    hide Passes, Total, PassesCost, Fresh, Internet;
    match serv
    case Number(p) => TwoCalls(es, Call(SOCK_STREAM, p), Call(SOCK_DGRAM, p));
    case Name(tcp, udp) =>
      PassesStart(es);
      if tcp != [] && udp != [] {
        TwoCalls(es, Call(SOCK_STREAM, tcp[0]), Call(SOCK_DGRAM, udp[0]));
        assert ServiceCalls(0, serv) == [Call(SOCK_STREAM, tcp[0]), Call(SOCK_DGRAM, udp[0])];
      } else if tcp != [] {
        OneCall(es, Call(SOCK_STREAM, tcp[0]));
        assert ServiceCalls(0, serv) == [Call(SOCK_STREAM, tcp[0])];
      } else if udp != [] {
        OneCall(es, Call(SOCK_DGRAM, udp[0]));
        assert ServiceCalls(0, serv) == [Call(SOCK_DGRAM, udp[0])];
      }
  }

  /** The status, a type named: EAI_SERVICE exactly when there is no port for it or no address. */
  lemma ServiceStatusHint(es: seq<Entry>, t: int, serv: ServiceString, left: nat)
    requires t != 0 && forall i :: 0 <= i < |es| ==> !es[i].clone && es[i].socktype == t && !es[i].family.Local?
    ensures ServiceStatus(es, t, serv, left) ==
      if es != [] && (serv.Number? || (t == SOCK_STREAM && serv.tcp != []) || (t == SOCK_DGRAM && serv.udp != []))
      then Ok else Service
  {
    ServiceHint(es, t, serv);
    hide Passes, Total, PassesCost;
  }
}
