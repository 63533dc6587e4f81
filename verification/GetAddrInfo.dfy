/**
  The whole of `getaddrinfo`, given what the host lookups answer: the list is built, named and
  completed, or on an error released again.
*/
module GetAddrInfo {
  import opened AddrInfoSpec
  import opened AddrInfoList

  /** What host lookups answer: never a Unix domain address. */
  type InetFamily = f: Family | !f.Local? witness Inet

  /** What one turn of the host search comes to. */
  datatype Lookup =
    | Skipped                                                           // nothing for this family
    | Literal(family: InetFamily, address: seq<int>)                    // an address written out
    | Host(name: string, family: InetFamily, addresses: seq<seq<int>>)  // a host found by name
    | Fatal(code: int)                                                  // an error that ends the call

  datatype Option<T> = None | Some(value: T)

  /** The caller's hints, and the host string that stands in when no canonical name is found. */
  datatype Query = Query(socktype: int, protocol: int, canonical: bool, host: string, serv: Option<ServiceString>)

  // ---- what the host search gives, and what memory it needs ----

  function NewEntry(q: Query, family: InetFamily, address: seq<int>): Entry {
    Entry(family, address, 0, q.socktype == 0, q.socktype, q.protocol)
  }

  function NewEntries(q: Query, family: InetFamily, addresses: seq<seq<int>>): (es: seq<Entry>)
    ensures |es| == |addresses|
  {
    seq(|addresses|, i requires 0 <= i < |addresses| => NewEntry(q, family, addresses[i]))
  }

  function LookupEntries(q: Query, l: Lookup): seq<Entry> {
    match l
    case Literal(family, address) => [NewEntry(q, family, address)]
    case Host(_, family, addresses) => NewEntries(q, family, addresses)
    case _ => []
  }

  function HostEntries(q: Query, ls: seq<Lookup>): seq<Entry> {
    if ls == [] then [] else HostEntries(q, ls[..|ls| - 1]) + LookupEntries(q, ls[|ls| - 1])
  }

  /** The name of the first host found. */
  function FirstName(ls: seq<Lookup>): string {
    if ls == [] then "" else if ls[0].Host? then ls[0].name else FirstName(ls[1..])
  }

  /** How the host search stands: what memory is left, and whether a name has been saved. */
  datatype Phase = Going(left: nat, saved: bool) | Stopped(status: Status, saved: bool)

  function TakeTwice(p: Phase, n: nat): Phase {
    if p.Stopped? then p
    else if p.left < 2 * n then Stopped(Status.Memory, p.saved)
    else p.(left := p.left - 2 * n)
  }

  function SaveName(p: Phase, canonical: bool): Phase {
    if p.Stopped? || !canonical || p.saved then p
    else if p.left == 0 then Stopped(Status.Memory, false)
    else Going(p.left - 1, true)
  }

  function NextPhase(p: Phase, l: Lookup, canonical: bool): Phase {
    if p.Stopped? then p
    else match l
      case Skipped => p
      case Fatal(code) => Stopped(Resolver(code), p.saved)
      case Literal(_, _) => TakeTwice(p, 1)
      case Host(_, _, addresses) => TakeTwice(SaveName(p, canonical), |addresses|)
  }

  function HostPhase(ls: seq<Lookup>, left: nat, canonical: bool): Phase {
    if ls == [] then Going(left, false)
    else NextPhase(HostPhase(ls[..|ls| - 1], left, canonical), ls[|ls| - 1], canonical)
  }

  lemma PhaseStart(q: Query, ls: seq<Lookup>, left: nat)
    ensures HostPhase(ls[..0], left, q.canonical) == Going(left, false) && HostEntries(q, ls[..0]) == []
  {}

  lemma PhaseStep(q: Query, ls: seq<Lookup>, k: nat, left: nat)
    requires k < |ls|
    ensures HostPhase(ls[..k + 1], left, q.canonical)
      == NextPhase(HostPhase(ls[..k], left, q.canonical), ls[k], q.canonical)
    ensures HostEntries(q, ls[..k + 1]) == HostEntries(q, ls[..k]) + LookupEntries(q, ls[k])
  {
    hide NextPhase, LookupEntries;
    assert ls[..k + 1][..k] == ls[..k];
  }

  lemma {:induction false} StaysStopped(ls: seq<Lookup>, k: nat, left: nat, canonical: bool)
    requires k <= |ls| && HostPhase(ls[..k], left, canonical).Stopped?
    ensures HostPhase(ls, left, canonical) == HostPhase(ls[..k], left, canonical)
  {
    if k == |ls| {
      assert ls[..k] == ls;
    } else {
      assert ls[..|ls| - 1][..k] == ls[..k];
      StaysStopped(ls[..|ls| - 1], k, left, canonical);
    }
  }

  lemma {:induction false} NameStays(ls: seq<Lookup>, k: nat)
    requires k < |ls| && ls[k].Host? && (forall i :: 0 <= i < k ==> !ls[i].Host?)
    ensures FirstName(ls) == ls[k].name
  {
    if k == 0 {
    } else {
      NameStays(ls[1..], k - 1);
    }
  }

  // ---- the host search ----

  /** One entry per address of a host. */
  method AddAll(
    list: AddrList, mem: Memory, q: Query, family: InetFamily, addresses: seq<seq<int>>, ghost es: seq<Entry>)
    returns (rc: Status)
    requires list.Valid() && list.Holds(es) && list.AtTail() && mem !in list.repr
    modifies list, list.repr, mem`left, mem`granted
    ensures list.Valid() && fresh(list.repr - old(list.repr)) && list.repr >= old(list.repr) && mem !in list.repr
    ensures list.name == old(list.name) && mem.granted == old(mem.granted) + (list.repr - old(list.repr))
    ensures rc == if old(mem.left) >= 2 * |addresses| then Ok else Status.Memory
    ensures rc == Ok ==> list.AtTail() && list.Holds(es + NewEntries(q, family, addresses))
    ensures rc == Ok ==> mem.left == old(mem.left) - 2 * |addresses|
  {
    hide *;
    assert es + NewEntries(q, family, addresses)[..0] == es;
    for i := 0 to |addresses|
      invariant list.Valid() && fresh(list.repr - old(list.repr)) && list.repr >= old(list.repr) && mem !in list.repr
      invariant list.name == old(list.name) && mem.granted == old(mem.granted) + (list.repr - old(list.repr))
      invariant mem.left == old(mem.left) - 2 * i
      invariant list.AtTail() && list.Holds(es + NewEntries(q, family, addresses)[..i])
    {
      ghost var sofar, left := es + NewEntries(q, family, addresses)[..i], mem.left;
      TailInRepr(list);
      NewEntriesAt(q, family, addresses, i);
      FitsAlways(q, family, addresses[i], left);
      rc := list.AiStruct(mem, q.socktype, q.protocol, addresses[i], family, sofar);
      if rc != Ok {
        return;
      }
      AppendedAll(list, sofar, NewEntry(q, family, addresses[i]), left);
      assert sofar + [NewEntry(q, family, addresses[i])] == es + NewEntries(q, family, addresses)[..i + 1];
    }
    assert NewEntries(q, family, addresses)[..|addresses|] == NewEntries(q, family, addresses);
    rc := Ok;
  }

  lemma TailInRepr(list: AddrList)
    requires list.Valid() && list.AtTail()
    ensures list.tail != null ==> list.tail in list.repr
  {}

  lemma NewEntriesAt(q: Query, family: InetFamily, addresses: seq<seq<int>>, i: nat)
    requires i < |addresses|
    ensures NewEntries(q, family, addresses)[i] == NewEntry(q, family, addresses[i])
    ensures NewEntry(q, family, addresses[i])
      == Entry(family, addresses[i], 0, q.socktype == 0, q.socktype, q.protocol)
  {}

  lemma FitsAlways(q: Query, family: InetFamily, address: seq<int>, left: nat)
    ensures var e := NewEntry(q, family, address);
      && AppendStatus(e, left) == (if left >= 2 then Ok else Status.Memory)
      && AppendTakes(e, left) == (if left >= 2 then 2 else left)
  {}

  lemma AppendedAll(list: AddrList, es: seq<Entry>, e: Entry, left: nat)
    requires list.Valid() && list.Appended(es, e, left) && AppendStatus(e, left) == Ok
    ensures list.Holds(es + [e])
  {}

  /** The name a search has saved but not yet hung on the list. */
  ghost function Saved(canon: CanonName?): set<object> {
    if canon == null then {} else {canon}
  }

  /** One turn of the host search. */
  method AddLookup(list: AddrList, mem: Memory, q: Query, l: Lookup, canon: CanonName?, ghost es: seq<Entry>)
    returns (rc: Status, canon': CanonName?)
    requires list.Valid() && list.Holds(es) && list.AtTail() && mem !in list.repr && Saved(canon) !! list.repr
    modifies list, list.repr, mem`left, mem`granted
    ensures list.Valid() && fresh(list.repr - old(list.repr)) && list.repr >= old(list.repr) && mem !in list.repr
    ensures list.name == old(list.name) && Saved(canon') !! list.repr
    ensures canon' != canon ==>
      canon == null && canon' != null && fresh(canon') && q.canonical && l.Host? && canon'.text == l.name
    ensures mem.granted == old(mem.granted) + (list.repr - old(list.repr)) + (Saved(canon') - Saved(canon))
    ensures var p := NextPhase(Going(old(mem.left), canon != null), l, q.canonical);
      && (canon' != null <==> p.saved)
      && (if p.Stopped? then rc == p.status != Ok
          else rc == Ok && mem.left == p.left && list.AtTail() && list.Holds(es + LookupEntries(q, l)))
  {
    hide NewEntries, NewEntry, AddrList.Valid, AddrList.Holds, AddrList.AtTail;
    rc, canon' := Ok, canon;
    match l {
      case Skipped =>
        assert es + [] == es;
      case Fatal(code) =>
        rc := Resolver(code);
      case Literal(family, address) =>
        OneEntry(q, family, address);
        rc := AddAll(list, mem, q, family, [address], es);
      case Host(name, family, addresses) =>
        if q.canonical && canon == null {
          if mem.left == 0 {
            return Status.Memory, null;
          }
          canon' := new CanonName(name);
          mem.Grant(canon');
        }
        rc := AddAll(list, mem, q, family, addresses, es);
    }
  }

  lemma OneEntry(q: Query, family: InetFamily, address: seq<int>)
    ensures NewEntries(q, family, [address]) == [NewEntry(q, family, address)]
  {}

  /** The loop over the host search. */
  method AddHosts(list: AddrList, mem: Memory, q: Query, ls: seq<Lookup>) returns (rc: Status, canon: CanonName?)
    requires list.Valid() && list.Holds([]) && list.AtTail() && mem !in list.repr
    modifies list, list.repr, mem`left, mem`granted
    ensures list.Valid() && fresh(list.repr - old(list.repr)) && list.repr >= old(list.repr) && mem !in list.repr
    ensures list.name == old(list.name) && Saved(canon) !! list.repr && fresh(Saved(canon))
    ensures canon != null ==> canon.text == FirstName(ls)
    ensures mem.granted == old(mem.granted) + (list.repr - old(list.repr)) + Saved(canon)
    ensures var p := HostPhase(ls, old(mem.left), q.canonical);
      && (canon != null <==> p.saved)
      && (if p.Stopped? then rc == p.status != Ok else rc == Ok && mem.left == p.left && list.Holds(HostEntries(q, ls)))
  {
    hide HostPhase, HostEntries, NextPhase, LookupEntries, FirstName, AddrList.Valid, AddrList.Holds, AddrList.AtTail;
    rc, canon := Ok, null;
    PhaseStart(q, ls, mem.left);
    for k := 0 to |ls|
      invariant list.Valid() && fresh(list.repr - old(list.repr)) && list.repr >= old(list.repr) && mem !in list.repr
      invariant list.name == old(list.name) && Saved(canon) !! list.repr && fresh(Saved(canon))
      invariant mem.granted == old(mem.granted) + (list.repr - old(list.repr)) + Saved(canon)
      invariant canon != null ==> canon.text == FirstName(ls)
      invariant canon == null && q.canonical ==> forall i :: 0 <= i < k ==> !ls[i].Host?
      invariant HostPhase(ls[..k], old(mem.left), q.canonical) == Going(mem.left, canon != null)
      invariant rc == Ok && list.AtTail() && list.Holds(HostEntries(q, ls[..k]))
    {
      PhaseStep(q, ls, k, old(mem.left));
      HostSaves(Going(mem.left, canon != null), ls[k], q.canonical);
      ghost var was := canon;
      rc, canon := AddLookup(list, mem, q, ls[k], canon, HostEntries(q, ls[..k]));
      if canon != was { NameStays(ls, k); }
      if rc != Ok {
        StaysStopped(ls, k + 1, old(mem.left), q.canonical);
        return;
      }
    }
    assert ls[..|ls|] == ls;
  }

  lemma HostSaves(p: Phase, l: Lookup, canonical: bool)
    ensures p.Going? && l.Host? && canonical && NextPhase(p, l, canonical).Going? ==> NextPhase(p, l, canonical).saved
  {}

  // ---- the whole call ----

  /** The passes of the service phase. */
  function Calls(q: Query): seq<Call> {
    if q.serv.None? then [] else ServiceCalls(q.socktype, q.serv.value)
  }

  /** What is left of memory when the service phase begins. */
  function NamedLeft(q: Query, p: Phase): int {
    if p.Stopped? then 0 else p.left - if q.canonical && !p.saved then 1 else 0
  }

  /** What the call returns. */
  function Result(q: Query, ls: seq<Lookup>, left: nat): Status {
    var p := HostPhase(ls, left, q.canonical);
    if p.Stopped? then p.status
    else if HostEntries(q, ls) == [] then NoName
    else if NamedLeft(q, p) < 0 then Status.Memory
    else if q.serv.None? then Ok
    else ServiceStatus(HostEntries(q, ls), q.socktype, q.serv.value, NamedLeft(q, p))
  }

  predicate HasHost(ls: seq<Lookup>) {
    exists i :: 0 <= i < |ls| && ls[i].Host?
  }

  predicate HasFatal(ls: seq<Lookup>) {
    exists i :: 0 <= i < |ls| && ls[i].Fatal?
  }

  /** Turn `k` finds the first host, nothing fatal came before it, and there is memory for its name. */
  predicate SavesAt(q: Query, ls: seq<Lookup>, left: nat, k: nat) {
    && k < |ls| && ls[k].Host? && (forall i :: 0 <= i < k ==> !ls[i].Host? && !ls[i].Fatal?)
    && left >= 2 * |HostEntries(q, ls[..k])| + 1
  }

  /**
    A name is saved, and then an answer is fatal, memory does not reach for all the addresses, or
    there is no address at all.
  */
  ghost predicate LosesName(q: Query, ls: seq<Lookup>, left: nat) {
    && q.canonical && (exists k: nat :: SavesAt(q, ls, left, k))
    && (HasFatal(ls) || left < 1 + 2 * |HostEntries(q, ls)| || HostEntries(q, ls) == [])
  }

  /** The memory the whole host search needs. */
  function HostNeeds(q: Query, ls: seq<Lookup>): nat {
    2 * |HostEntries(q, ls)| + if q.canonical && HasHost(ls) then 1 else 0
  }

  lemma NextIs(q: Query, l: Lookup, p: Phase)
    ensures var next := NextPhase(p, l, q.canonical);
      var cost := 2 * |LookupEntries(q, l)| + if q.canonical && l.Host? && !p.saved then 1 else 0;
      && (next.Going? <==> p.Going? && !l.Fatal? && p.left >= cost)
      && (next.Going? ==> next.left == p.left - cost && next.saved == (p.saved || (q.canonical && l.Host?)))
  {
    hide NewEntry, NewEntries;
  }

  /** When the host search gets through, and what is left then. */
  lemma {:induction false} PhaseIs(q: Query, ls: seq<Lookup>, left: nat)
    ensures var p := HostPhase(ls, left, q.canonical);
      && (p.Going? <==> !HasFatal(ls) && left >= HostNeeds(q, ls))
      && (p.Going? ==> p.left == left - HostNeeds(q, ls) && p.saved == (q.canonical && HasHost(ls)))
  {
    if ls == [] {
    } else {
      var ls', l := ls[..|ls| - 1], ls[|ls| - 1];
      assert ls == ls' + [l];
      assert |HostEntries(q, ls)| == |HostEntries(q, ls')| + |LookupEntries(q, l)|;
      assert HostPhase(ls, left, q.canonical) == NextPhase(HostPhase(ls', left, q.canonical), l, q.canonical);
      hide HasFatal, HasHost, HostEntries, HostPhase, NextPhase, LookupEntries;
      PhaseIs(q, ls', left);
      HasSnoc(ls', l);
      NextIs(q, l, HostPhase(ls', left, q.canonical));
    }
  }

  lemma HasSnoc(ls: seq<Lookup>, l: Lookup)
    ensures HasHost(ls + [l]) <==> HasHost(ls) || l.Host?
    ensures HasFatal(ls + [l]) <==> HasFatal(ls) || l.Fatal?
  {
    var all := ls + [l];
    if i :| 0 <= i < |ls| && ls[i].Host? { assert all[i].Host?; }
    if i :| 0 <= i < |ls| && ls[i].Fatal? { assert all[i].Fatal?; }
    assert all[|ls|] == l;
    assert forall i :: 0 <= i < |all| ==> all[i] == if i < |ls| then ls[i] else l;
  }

  lemma SavesAtSnoc(q: Query, ls: seq<Lookup>, l: Lookup, left: nat, k: nat)
    ensures SavesAt(q, ls + [l], left, k) <==>
      || SavesAt(q, ls, left, k)
      || (k == |ls| && l.Host? && !HasHost(ls) && !HasFatal(ls) && left >= 2 * |HostEntries(q, ls)| + 1)
  {
    hide HostEntries;
    var all := ls + [l];
    if k < |ls| {
      assert all[..k] == ls[..k];
    } else if k == |ls| {
      assert all[..k] == ls;
      assert forall i :: 0 <= i < k ==> all[i] == ls[i];
    }
  }

  /** When a name is saved. */
  lemma {:induction false} SavedIs(q: Query, ls: seq<Lookup>, left: nat)
    ensures HostPhase(ls, left, q.canonical).saved <==> q.canonical && exists k: nat :: SavesAt(q, ls, left, k)
  {
    if ls == [] {
    } else {
      var ls', l := ls[..|ls| - 1], ls[|ls| - 1];
      assert ls == ls' + [l];
      assert HostPhase(ls, left, q.canonical) == NextPhase(HostPhase(ls', left, q.canonical), l, q.canonical);
      SavedIs(q, ls', left);
      PhaseIs(q, ls', left);
      hide HostEntries, HostPhase, SavesAt, HasHost, HasFatal;
      SavedOnce(q, ls', l, left);
    }
  }

  /** What one more turn adds to the places where a name is saved. */
  lemma SavedOnce(q: Query, ls: seq<Lookup>, l: Lookup, left: nat)
    ensures (exists k: nat :: SavesAt(q, ls + [l], left, k)) <==>
      || (exists k: nat :: SavesAt(q, ls, left, k))
      || (l.Host? && !HasHost(ls) && !HasFatal(ls) && left >= 2 * |HostEntries(q, ls)| + 1)
  {
    hide HostEntries, SavesAt, HasHost, HasFatal;
    if k: nat :| SavesAt(q, ls + [l], left, k) { SavesAtSnoc(q, ls, l, left, k); }
    if k: nat :| SavesAt(q, ls, left, k) { SavesAtSnoc(q, ls, l, left, k); }
    SavesAtSnoc(q, ls, l, left, |ls|);
  }

  /** The name is lost exactly when it is saved and the search then fails or finds nothing. */
  lemma LosesIs(q: Query, ls: seq<Lookup>, left: nat)
    ensures var p := HostPhase(ls, left, q.canonical);
      LosesName(q, ls, left) <==> p.saved && (p.Stopped? || HostEntries(q, ls) == [])
  {
    SavedIs(q, ls, left);
    PhaseIs(q, ls, left);
    hide HostEntries, HostPhase;
    if k: nat :| SavesAt(q, ls, left, k) { assert HasHost(ls); }
  }

  /** The canonical name goes to the first entry: the one saved, or the host string. */
  method NameFirst(list: AddrList, mem: Memory, q: Query, canon: CanonName?, ghost es: seq<Entry>) returns (rc: Status)
    requires list.Valid() && list.Holds(es) && es != [] && list.name == null
    requires mem !in list.repr && Saved(canon) !! list.repr
    requires canon != null ==> q.canonical
    modifies list`name, list`repr, list.repr, mem`left, mem`granted
    ensures list.Valid() && fresh(list.repr - old(list.repr) - Saved(canon)) && mem !in list.repr
    ensures list.repr >= old(list.repr) + Saved(canon)
    ensures mem.granted == old(mem.granted) + (list.repr - old(list.repr) - Saved(canon))
    ensures rc == if q.canonical && canon == null && old(mem.left) == 0 then Status.Memory else Ok
    ensures list.Holds(es)
    ensures mem.left == old(mem.left) - if q.canonical && canon == null && old(mem.left) > 0 then 1 else 0
    ensures rc == Ok ==> (list.name != null <==> q.canonical)
    ensures rc == Ok && q.canonical ==> list.name.text == if canon == null then q.host else canon.text
  {
    list.Sizes(es);
    hide *;
    rc := Ok;
    if q.canonical {
      if canon != null {
        list.SetName(canon, es);
      } else {
        if mem.left == 0 {
          return Status.Memory;
        }
        var n := new CanonName(q.host);
        mem.Grant(n);
        list.SetName(n, es);
      }
    }
  }

  lemma HeadIs(list: AddrList, es: seq<Entry>)
    requires list.Valid() && list.Holds(es)
    ensures list.head == null <==> es == []
  {
    hide Things, Apart;
  }

  /** Host search, canonical name, service; `lost` is a saved name that did not get onto the list. */
  method Build(list: AddrList, mem: Memory, q: Query, ls: seq<Lookup>) returns (rc: Status, ghost lost: CanonName?)
    requires list.Valid() && list.Holds([]) && list.AtTail() && list.repr == {} && list.name == null
    modifies list, mem`left, mem`granted
    ensures list.Valid() && fresh(list.repr) && mem !in list.repr && Saved(lost) !! list.repr && fresh(Saved(lost))
    ensures rc == Result(q, ls, old(mem.left))
    ensures mem.granted == old(mem.granted) + list.repr + Saved(lost)
    ensures lost != null <==> LosesName(q, ls, old(mem.left))
    ensures rc == Ok ==> lost == null && list.Holds(Passes(HostEntries(q, ls), Calls(q)))
    ensures rc == Ok ==> (list.name != null <==> q.canonical)
    ensures rc == Ok && q.canonical ==> list.name.text == CanonText(q, ls, old(mem.left))
  {
    hide HostPhase, HostEntries, FirstName, ServiceStatus, ServiceCalls, Passes, LosesName;
    hide AddrList.Valid, AddrList.Holds, AddrList.AtTail;
    ghost var es := HostEntries(q, ls);
    LosesIs(q, ls, mem.left);
    var canon;
    rc, canon := AddHosts(list, mem, q, ls);
    if rc != Ok {
      return rc, canon;
    }
    HeadIs(list, es);
    if list.head == null {
      return NoName, canon;
    }
    lost := null;
    ghost var p := HostPhase(ls, old(mem.left), q.canonical);
    SavedWanted(ls, old(mem.left), q.canonical);
    rc := NameFirst(list, mem, q, canon, es);
    if rc != Ok {
      return;
    }
    assert mem.left == NamedLeft(q, p);
    PassesStart(es);
    if q.serv.Some? {
      ghost var k, j;
      rc, k, j := list.Serv(mem, q.socktype, q.serv.value, es);
    }
  }

  /** The canonical name: that of the first host found, or the host string. */
  function CanonText(q: Query, ls: seq<Lookup>, left: nat): string {
    if HostPhase(ls, left, q.canonical).saved then FirstName(ls) else q.host
  }

  lemma {:induction false} SavedWanted(ls: seq<Lookup>, left: nat, canonical: bool)
    ensures HostPhase(ls, left, canonical).saved ==> canonical
  {
    if ls == [] {
    } else {
      SavedWanted(ls[..|ls| - 1], left, canonical);
    }
  }

  /**
    `getaddrinfo`. On success everything allocated is on the list. On an error everything allocated
    has been given back, each thing once, but for a name saved in the host search and not yet hung
    on the list, which is lost.
  */
  method Resolve(list: AddrList, mem: Memory, q: Query, ls: seq<Lookup>) returns (rc: Status, ghost lost: CanonName?)
    requires list.Valid() && list.Holds([]) && list.AtTail() && list.repr == {} && list.name == null
    modifies list, mem
    ensures list.Valid() && fresh(list.repr) && rc == Result(q, ls, old(mem.left))
    ensures mem.granted == old(mem.granted) + list.repr + Saved(lost) && Saved(lost) !! list.repr && fresh(Saved(lost))
    ensures lost != null <==> LosesName(q, ls, old(mem.left))
    ensures rc == Ok ==> lost == null && mem.freed == old(mem.freed) && list.Holds(Passes(HostEntries(q, ls), Calls(q)))
    ensures rc == Ok ==> (list.name != null <==> q.canonical)
    ensures rc == Ok && q.canonical ==> list.name.text == CanonText(q, ls, old(mem.left))
    ensures |list.blocks| == |list.spine|
    ensures rc != Ok ==> mem.freed == old(mem.freed) + Released(list.spine, list.blocks, list.name, 0)
    ensures rc != Ok ==> forall o :: o in mem.granted && o !in old(mem.granted) ==>
      (o in mem.freed <==> o !in Saved(lost))
  {
    hide Result, LosesName, HostEntries, CanonText, Calls, Passes, Released;
    hide AddrList.Valid, AddrList.Holds, AddrList.AtTail;
    rc, lost := Build(list, mem, q, ls);
    list.LinkShape();
    if rc != Ok {
      list.FreeAll(mem);
    }
  }

  /**
    A single host found by name: its saved name is lost exactly when it has no address or memory
    runs out among them.
  */
  lemma NameLost(q: Query, name: string, family: InetFamily, addresses: seq<seq<int>>, left: nat)
    requires q.canonical && left >= 1
    ensures LosesName(q, [Host(name, family, addresses)], left) <==> addresses == [] || left < 1 + 2 * |addresses|
  {
    var l := Host(name, family, addresses);
    LosesIs(q, [l], left);
    assert [l][..0] == [];
    assert HostPhase([], left, true) == Going(left, false);
    assert HostPhase([l], left, true) == NextPhase(Going(left, false), l, true);
    assert HostEntries(q, [l]) == [] + NewEntries(q, family, addresses);
  }

  // ---- the Unix domain special case ----

  /** `family` is the hinted one, None for AF_UNSPEC; `node` what uname() answers, None if it fails. */
  datatype UnixQuery = UnixQuery(
    family: Option<Family>, socktype: int, protocol: int, canonical: bool, path: seq<int>, node: Option<string>)

  function UnixEntry(u: UnixQuery, socktype: int): Entry {
    Entry(Local, u.path, 0, socktype == 0, socktype, u.protocol)
  }

  /** With no type named, a stream entry and then a datagram entry. */
  function UnixEntries(u: UnixQuery): seq<Entry> {
    if u.socktype == 0 then [UnixEntry(u, SOCK_STREAM), UnixEntry(u, SOCK_DGRAM)] else [UnixEntry(u, u.socktype)]
  }

  predicate WrongFamily(u: UnixQuery) {
    u.family.Some? && !u.family.value.Local?
  }

  /** The requests of the allocator the entries and the name need. */
  function UnixNeeds(u: UnixQuery): nat {
    2 * |UnixEntries(u)| + if u.canonical then 1 else 0
  }

  function UnixResult(u: UnixQuery, left: nat): Status {
    if WrongFamily(u) then AddrFamily
    else if |u.path| >= SUN_PATH then (if left == 0 then Status.Memory else Service)
    else if left < 2 * |UnixEntries(u)| then Status.Memory
    else if u.canonical && u.node.None? then System
    else if left < UnixNeeds(u) then Status.Memory
    else Ok
  }

  /** The requests granted before the call ends. */
  function UnixTakes(u: UnixQuery, left: nat): nat {
    if WrongFamily(u) then 0
    else if |u.path| >= SUN_PATH then (if left == 0 then 0 else 1)
    else
      var most := if u.canonical && u.node.None? then 2 * |UnixEntries(u)| else UnixNeeds(u);
      if left < most then left else most
  }

  /** One entry, by `ga_aistruct`. */
  method AddUnix(list: AddrList, mem: Memory, u: UnixQuery, socktype: int, ghost es: seq<Entry>) returns (rc: Status)
    requires list.Valid() && list.Holds(es) && list.AtTail() && mem !in list.repr
    modifies list, list.repr, mem`left, mem`granted
    ensures list.Valid() && fresh(list.repr - old(list.repr)) && list.repr >= old(list.repr) && mem !in list.repr
    ensures list.name == old(list.name) && mem.granted == old(mem.granted) + (list.repr - old(list.repr))
    ensures rc == AppendStatus(UnixEntry(u, socktype), old(mem.left))
    ensures mem.left == old(mem.left) - AppendTakes(UnixEntry(u, socktype), old(mem.left))
    ensures rc == Ok ==> list.AtTail() && list.Holds(es + [UnixEntry(u, socktype)])
    ensures old(mem.left) >= 1 ==> list.repr != {}
    ensures old(mem.left) == 0 ==> list.repr == old(list.repr)
  {
    hide *;
    ghost var left := mem.left;
    TailInRepr(list);
    UnixEntryIs(u, socktype);
    rc := list.AiStruct(mem, socktype, u.protocol, u.path, Local, es);
    if rc == Ok { AppendedAll(list, es, UnixEntry(u, socktype), left); }
    AppendedSome(list, es, UnixEntry(u, socktype), left);
  }

  lemma UnixEntryIs(u: UnixQuery, socktype: int)
    ensures UnixEntry(u, socktype) == Entry(Local, u.path, 0, socktype == 0, socktype, u.protocol)
  {}

  lemma AppendedSome(list: AddrList, es: seq<Entry>, e: Entry, left: nat)
    requires list.Valid() && list.Appended(es, e, left)
    ensures left >= 1 ==> list.repr != {}
  {
    hide Things, Apart;
    if left >= 1 { assert list.spine[0] in list.repr; }
  }

  /**
    `ga_unix`. No error frees anything: whatever was allocated by then, and that is something as soon
    as one request could be granted, is lost with the list.
  */
  method Unix(list: AddrList, mem: Memory, u: UnixQuery) returns (rc: Status)
    requires list.Valid() && list.Holds([]) && list.AtTail() && list.repr == {} && list.name == null
    modifies list, mem`left, mem`granted
    ensures list.Valid() && fresh(list.repr) && mem !in list.repr && mem.granted == old(mem.granted) + list.repr
    ensures rc == UnixResult(u, old(mem.left)) && mem.left == old(mem.left) - UnixTakes(u, old(mem.left))
    ensures list.repr == {} <==> WrongFamily(u) || old(mem.left) == 0
    ensures rc == Ok ==> list.Holds(UnixEntries(u))
    ensures rc == Ok ==> (list.name != null <==> u.canonical)
    ensures rc == Ok && u.canonical ==> u.node == Some(list.name.text)
  {
    hide AddrList.Valid, AddrList.Holds, AddrList.AtTail;
    if u.family.Some? && !u.family.value.Local? {
      return AddrFamily;
    }
    var socktype := u.socktype;
    ghost var es: seq<Entry> := [];
    if socktype == 0 {
      rc := AddUnix(list, mem, u, SOCK_STREAM, es);
      if rc != Ok {
        return;
      }
      es := es + [UnixEntry(u, SOCK_STREAM)];
      socktype := SOCK_DGRAM;
    }
    rc := AddUnix(list, mem, u, socktype, es);
    if rc != Ok {
      return;
    }
    es := es + [UnixEntry(u, socktype)];
    assert es == UnixEntries(u);
    if u.canonical {
      if u.node.None? {
        return System;
      }
      rc := NameFirst(list, mem, Query(0, 0, true, u.node.value, None), null, es);
    }
  }

  // ---- the whole of getaddrinfo ----

  /** The two strings as given, the hinted family, and what the world answers on either path. */
  datatype Request = Request(
    hostname: Option<string>, servname: Option<string>, family: Option<Family>,
    q: Query, ls: seq<Lookup>, node: Option<string>)

  predicate IsUnix(r: Request) {
    && r.hostname.Some? && (r.hostname.value == "/local" || r.hostname.value == "/unix")
    && r.servname.Some? && r.servname.value != "" && r.servname.value[0] == '/'
  }

  function UnixPart(r: Request): UnixQuery
    requires IsUnix(r)
  {
    var path := r.servname.value;
    UnixQuery(r.family, r.q.socktype, r.q.protocol, r.q.canonical,
              seq(|path|, i requires 0 <= i < |path| => path[i] as int), r.node)
  }

  function CallResult(r: Request, left: nat): Status {
    if IsUnix(r) then UnixResult(UnixPart(r), left) else Result(r.q, r.ls, left)
  }

  function CallEntries(r: Request): seq<Entry> {
    if IsUnix(r) then UnixEntries(UnixPart(r)) else Passes(HostEntries(r.q, r.ls), Calls(r.q))
  }

  /**
    Which calls lose memory. On the Unix domain path: those that can allocate at all and then meet a
    path too long, too little memory or a failing uname(). Otherwise those that lose a saved name.
  */
  ghost predicate Leaks(r: Request, left: nat) {
    if IsUnix(r) then
      var u := UnixPart(r);
      && !WrongFamily(u) && left >= 1
      && (|u.path| >= SUN_PATH || left < UnixNeeds(u) || (u.canonical && u.node.None?))
    else LosesName(r.q, r.ls, left)
  }

  /**
    `getaddrinfo`, past the check of its arguments. On success everything allocated is on the list.
    On an error what was allocated has been given back, but for `lost`, and `lost` is not empty
    exactly for the calls that leak.
  */
  method GetAddrInfo(list: AddrList, mem: Memory, r: Request) returns (rc: Status, ghost lost: set<object>)
    requires list.Valid() && list.Holds([]) && list.AtTail() && list.repr == {} && list.name == null
    modifies list, mem
    ensures list.Valid() && fresh(list.repr) && fresh(lost) && rc == CallResult(r, old(mem.left))
    ensures mem.granted == old(mem.granted) + list.repr + lost
    ensures lost != {} <==> Leaks(r, old(mem.left))
    ensures rc == Ok ==> lost == {} && mem.freed == old(mem.freed) && list.Holds(CallEntries(r))
    ensures rc != Ok ==> forall o :: o in mem.granted && o !in old(mem.granted) ==> (o in mem.freed <==> o !in lost)
  {
    hide Result, LosesName, HostEntries, Calls, Passes, Released, UnixPart;
    hide AddrList.Valid, AddrList.Holds, AddrList.AtTail;
    if IsUnix(r) {
      rc := Unix(list, mem, UnixPart(r));
      lost := if rc == Ok then {} else list.repr;
    } else {
      ghost var name;
      rc, name := Resolve(list, mem, r.q, r.ls);
      lost := Saved(name);
    }
  }

  /** With memory enough, a Unix domain path that fills sun_path is refused, and its node is lost. */
  lemma LongPathLeaks(r: Request, left: nat)
    requires IsUnix(r) && |r.servname.value| >= SUN_PATH && left >= 1
    requires r.family == None || r.family == Some(Local)
    ensures CallResult(r, left) == Service && Leaks(r, left) && UnixTakes(UnixPart(r), left) == 1
  {}

  /** A call and, if it succeeds, `freeaddrinfo`: all that was allocated has been given back, unless the call leaks. */
  method ResolveAndFree(mem: Memory, r: Request) returns (rc: Status, ghost lost: set<object>)
    modifies mem
    ensures rc == CallResult(r, old(mem.left))
    ensures lost != {} <==> Leaks(r, old(mem.left))
    ensures lost <= mem.granted - old(mem.granted)
    ensures forall o :: o in mem.granted && o !in old(mem.granted) ==> (o in mem.freed <==> o !in lost)
  {
    hide AddrList.Valid, AddrList.Holds, AddrList.AtTail, CallResult, CallEntries, Leaks, Released;
    var list := new AddrList();
    rc, lost := GetAddrInfo(list, mem, r);
    if rc == Ok {
      list.FreeAll(mem);
    }
  }

  // ---- what the call comes to, said without its steps ----

  lemma {:induction false} HostEntriesAppend(q: Query, xs: seq<Lookup>, ys: seq<Lookup>)
    ensures HostEntries(q, xs + ys) == HostEntries(q, xs) + HostEntries(q, ys)
  {
    hide LookupEntries;
    if ys == [] {
      assert xs + ys == xs;
    } else {
      HostEntriesAppend(q, xs, ys[..|ys| - 1]);
      assert (xs + ys)[..|xs + ys| - 1] == xs + ys[..|ys| - 1];
    }
  }

  /** One entry per address, in order: an address written out, or the addresses of a host. */
  lemma HostEntriesAre(q: Query, l: Lookup)
    ensures var es := HostEntries(q, [l]);
      match l
      case Literal(f, a) => es == [Entry(f, a, 0, q.socktype == 0, q.socktype, q.protocol)]
      case Host(_, f, addresses) =>
        && |es| == |addresses|
        && forall i :: 0 <= i < |es| ==> es[i] == Entry(f, addresses[i], 0, q.socktype == 0, q.socktype, q.protocol)
      case _ => es == []
  {
    assert [l][..0] == [];
    assert HostEntries(q, [l]) == [] + LookupEntries(q, l);
  }

  /** Exactly when the call succeeds, past the Unix domain case. */
  lemma SucceedsIff(q: Query, ls: seq<Lookup>, left: nat)
    ensures var n := |HostEntries(q, ls)|; var needs := 2 * n + if q.canonical then 1 else 0;
      Result(q, ls, left) == Ok <==>
        && (forall i :: 0 <= i < |ls| ==> !ls[i].Fatal?) && n > 0 && left >= needs
        && (q.serv == None || ServiceStatus(HostEntries(q, ls), q.socktype, q.serv.value, left - needs) == Ok)
  {
    PhaseIs(q, ls, left);
    PhaseFails(ls, left, q.canonical);
    hide HostPhase, HostEntries, ServiceStatus;
  }

  lemma {:induction false} PhaseFails(ls: seq<Lookup>, left: nat, canonical: bool)
    ensures HostPhase(ls, left, canonical).Stopped? ==> HostPhase(ls, left, canonical).status != Ok
  {
    if ls == [] {
    } else {
      PhaseFails(ls[..|ls| - 1], left, canonical);
    }
  }

  /** The first fatal answer is the status, if memory reaches that far. */
  lemma FatalAnswer(q: Query, ls: seq<Lookup>, left: nat, k: nat)
    requires k < |ls| && ls[k].Fatal? && forall i :: 0 <= i < k ==> !ls[i].Fatal?
    requires left >= HostNeeds(q, ls[..k])
    ensures Result(q, ls, left) == Resolver(ls[k].code)
  {
    PhaseIs(q, ls[..k], left);
    PhaseStep(q, ls, k, left);
    hide HostPhase, HostEntries;
    StaysStopped(ls, k + 1, left, q.canonical);
  }

  /** The Unix domain case: the status and, on success, the entries. */
  lemma UnixOutcome(u: UnixQuery, left: nat)
    ensures var n := if u.socktype == 0 then 2 else 1;
      UnixResult(u, left) ==
        if u.family == Some(Inet) || u.family == Some(Inet6) then AddrFamily
        else if left == 0 then Status.Memory
        else if |u.path| >= 108 then Service
        else if left < 2 * n then Status.Memory
        else if u.canonical && u.node == None then System
        else if u.canonical && left < 2 * n + 1 then Status.Memory
        else Ok
    ensures UnixEntries(u) ==
      var e := Entry(Local, u.path, 0, false, u.socktype, u.protocol);
      if u.socktype == 0 then [e.(socktype := 1), e.(socktype := 2)] else [e]
  {}
}
