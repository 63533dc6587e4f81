/**
  tcpcliserv/tcpservselect01: one process serving all clients with select; the descriptor table
  `client[]`, the set `allset` and the bounds `maxi` and `maxfd`.
*/
module SelectServer {

  const FD_SETSIZE := 1024

  /**
    One return of select and what the calls it leads to bring: the readable set, the descriptor
    accept would give, the clients at end of file.
  */
  datatype Ready = Ready(rset: set<int>, connfd: int, eof: set<int>)

  /**
    `all` is the listening descriptor and the live entries of the table `t`, where -1 marks a free
    slot; live entries are distinct, and `maxi` and `maxfd` bound their slots and their numbers.
  */
  ghost predicate TableOk(t: seq<int>, listenfd: int, all: set<int>, maxi: int, maxfd: int) {
    && |t| == FD_SETSIZE
    && listenfd >= 0 && listenfd in all
    && (forall i :: 0 <= i < |t| ==> t[i] >= -1 && t[i] != listenfd)
    && (forall i, j :: 0 <= i < j < |t| && t[i] >= 0 ==> t[i] != t[j])
    && (forall i :: 0 <= i < |t| && t[i] >= 0 ==> t[i] in all)
    && (forall fd :: fd in all && fd != listenfd ==> fd >= 0 && fd in t)
    && -1 <= maxi < FD_SETSIZE
    && (forall i :: maxi < i < |t| ==> t[i] == -1)
    && (forall fd :: fd in all ==> fd <= maxfd)
  }

  /** The slot the search loop stops at. */
  predicate FirstFree(t: seq<int>, i: int) {
    0 <= i < |t| && t[i] == -1 && forall k :: 0 <= k < i ==> t[k] >= 0
  }

  lemma FillSlot(t: seq<int>, listenfd: int, all: set<int>, maxi: int, maxfd: int, i: nat, fd: int)
    requires TableOk(t, listenfd, all, maxi, maxfd) && i < |t| && t[i] == -1 && fd >= 0 && fd !in all
    ensures TableOk(t[i := fd], listenfd, all + {fd}, if i > maxi then i else maxi, if fd > maxfd then fd else maxfd)
  {
    var t' := t[i := fd];
    forall x | x in all + {fd} && x != listenfd ensures x in t' {
      if x == fd {
        assert t'[i] == x;
      } else {
        var k :| 0 <= k < |t| && t[k] == x;
        assert t'[k] == x;
      }
    }
    forall k | 0 <= k < |t| ensures t[k] != fd {
      assert t[k] >= 0 ==> t[k] in all;
    }
  }

  lemma ClearSlot(t: seq<int>, listenfd: int, all: set<int>, maxi: int, maxfd: int, i: nat)
    requires TableOk(t, listenfd, all, maxi, maxfd) && i < |t| && t[i] >= 0
    ensures TableOk(t[i := -1], listenfd, all - {t[i]}, maxi, maxfd)
  {
    var t' := t[i := -1];
    forall x | x in all - {t[i]} && x != listenfd ensures x in t' {
      var k :| 0 <= k < |t| && t[k] == x;
      assert t'[k] == x;
    }
    forall k | 0 <= k < |t| && t'[k] >= 0 ensures t'[k] in all - {t[i]} {
      assert t[k] != t[i];
    }
  }

  lemma TableFacts(t: seq<int>, listenfd: int, all: set<int>, maxi: int, maxfd: int)
    requires TableOk(t, listenfd, all, maxi, maxfd)
    ensures |t| == FD_SETSIZE && -1 <= maxi < FD_SETSIZE && listenfd in all
    ensures forall i :: 0 <= i < |t| ==> t[i] >= -1 && t[i] != listenfd
    ensures forall i, j :: 0 <= i < j < |t| && t[i] >= 0 ==> t[i] != t[j]
    ensures forall i :: maxi < i < |t| ==> t[i] == -1
    ensures forall fd :: fd in all && fd != listenfd ==> fd >= 0 && fd in t
  {}

  /**
    How far a scan of the table `t` has serviced `rset`, starting from `start`: everything selected
    lies in `served` or in a slot to come.
  */
  ghost predicate Progress(t: seq<int>, i: nat, rset: set<int>, start: set<int>, served: set<int>, nready: int) {
    && i <= |t|
    && start <= served <= rset
    && (forall k :: i <= k < |t| && t[k] >= 0 ==> t[k] !in served)
    && (forall fd :: fd in rset - served ==> fd >= 0 && fd in t[i..])
    && nready == |rset - served|
  }

  lemma ServeOne(t: seq<int>, i: nat, rset: set<int>, start: set<int>, served: set<int>, nready: int)
    requires Progress(t, i, rset, start, served, nready) && i < |t| && t[i] >= 0 && t[i] in rset
    requires forall k, j :: 0 <= k < j < |t| && t[k] >= 0 ==> t[k] != t[j]
    ensures t[i] !in served && Progress(t, i + 1, rset, start, served + {t[i]}, nready - 1)
  {
    var served' := served + {t[i]};
    assert t[i..] == [t[i]] + t[i + 1..];
    assert rset - served' == (rset - served) - {t[i]};
  }

  lemma PassOver(t: seq<int>, i: nat, rset: set<int>, start: set<int>, served: set<int>, nready: int)
    requires Progress(t, i, rset, start, served, nready) && i < |t| && !(t[i] >= 0 && t[i] in rset)
    ensures Progress(t, i + 1, rset, start, served, nready)
  {
    assert t[i..] == [t[i]] + t[i + 1..];
  }

  /** Out of slots or out of count: either way nothing is left. */
  lemma ScanOver(t: seq<int>, i: nat, rset: set<int>, start: set<int>, served: set<int>, nready: int)
    requires Progress(t, i, rset, start, served, nready)
    requires nready <= 0 || forall k :: i <= k < |t| ==> t[k] == -1
    ensures served == rset
  {
    if nready <= 0 {
      assert rset - served == {};
    } else {
      forall x | x in t[i..] ensures x == -1 {
        var k :| 0 <= k < |t[i..]| && t[i..][k] == x;
        assert t[i + k] == x;
      }
      forall fd | fd in rset ensures fd in served {
        assert fd !in served ==> fd in rset - served;
      }
    }
  }

  /** What closing the served clients that are at end of file leaves of the set. */
  ghost function Remaining(all: set<int>, served: set<int>, start: set<int>, eof: set<int>): set<int> {
    all - ((served - start) * eof)
  }

  lemma RemainingStep(all: set<int>, served: set<int>, start: set<int>, eof: set<int>, fd: int)
    requires fd !in start
    ensures Remaining(all, served + {fd}, start, eof) ==
      if fd in eof then Remaining(all, served, start, eof) - {fd} else Remaining(all, served, start, eof)
    ensures Remaining(all, start, start, eof) == all
  {}

  lemma RemainingIs(all: set<int>, served: set<int>, start: set<int>, eof: set<int>)
    ensures Remaining(all, served, start, eof) == all - ((served - start) * eof)
  {}

  class Server {
    const listenfd: int
    const client: array<int>
    var allset: set<int>
    var maxi: int
    var maxfd: int

    ghost predicate Valid()
      reads this, client
    {
      TableOk(client[..], listenfd, allset, maxi, maxfd)
    }

    constructor (listenfd: int)
      requires listenfd >= 0
      ensures Valid() && fresh(client) && this.listenfd == listenfd && allset == {listenfd}
    {
      this.listenfd := listenfd;
      maxfd, maxi := listenfd, -1;
      client := new int[FD_SETSIZE](i => -1);
      allset := {listenfd};
    }

    /** The new-connection part: the first free slot takes the descriptor. */
    method AcceptNew(connfd: int) returns (quit: bool)
      requires Valid() && connfd >= 0 && connfd !in allset
      modifies this, client
      ensures quit <==> forall i :: 0 <= i < |old(client[..])| ==> old(client[..])[i] >= 0
      ensures !quit ==> Valid() && allset == old(allset) + {connfd}
      ensures !quit ==> maxfd == if connfd > old(maxfd) then connfd else old(maxfd)
      ensures !quit ==> exists i ::
        && FirstFree(old(client[..]), i) && client[..] == old(client[..])[i := connfd]
        && maxi == if i > old(maxi) then i else old(maxi)
      ensures quit ==> client[..] == old(client[..]) && allset == old(allset)
    {
      hide TableOk;
      ghost var t := client[..];
      TableFacts(t, listenfd, allset, maxi, maxfd);
      var i := 0;
      while i < FD_SETSIZE && client[i] >= 0
        invariant 0 <= i <= FD_SETSIZE
        invariant forall k :: 0 <= k < i ==> t[k] >= 0
      {
        i := i + 1;
      }
      if i == FD_SETSIZE {
        return true;
      }
      FillSlot(t, listenfd, allset, maxi, maxfd, i, connfd);
      client[i] := connfd;
      assert client[..] == t[i := connfd];
      allset := allset + {connfd};
      if connfd > maxfd {
        maxfd := connfd;
      }
      if i > maxi {
        maxi := i;
      }
      quit := false;
      assert FirstFree(t, i);
    }

    /** The loop over the clients, left as soon as `nready` descriptors have been serviced. */
    method ScanClients(rset: set<int>, start: set<int>, ready: int, eof: set<int>) returns (served: set<int>)
      requires Valid() && Progress(client[..], 0, rset, start, start, ready)
      modifies this`allset, client
      ensures Valid() && served == rset
      ensures allset == old(allset) - ((rset - start) * eof)
    {
      hide TableOk, Progress, Remaining;
      ghost var t := client[..];
      TableFacts(t, listenfd, allset, maxi, maxfd);
      served := start;
      var nready := ready;
      var i := 0;
      assert Remaining(allset, start, start, eof) == allset by { NothingClosed(allset, start, eof); }
      while i <= maxi
        invariant 0 <= i <= maxi + 1
        invariant Valid() && |client[..]| == |t|
        invariant Progress(t, i, rset, start, served, nready)
        invariant forall k :: i <= k < |t| ==> client[k] == t[k]
        invariant allset == Remaining(old(allset), served, start, eof)
      {
        var sockfd := client[i];
        if sockfd >= 0 && sockfd in rset {
          ServeOne(t, i, rset, start, served, nready);
          NotStart(t, i, rset, start, served, nready);
          RemainingStep(old(allset), served, start, eof, sockfd);
          served := served + {sockfd};
          if sockfd in eof {
            ghost var c := client[..];
            ClearSlot(c, listenfd, allset, maxi, maxfd, i);
            allset := allset - {sockfd};
            client[i] := -1;
            assert client[..] == c[i := -1];
          }
          nready := nready - 1;
          if nready <= 0 {
            i := i + 1;
            break;
          }
        } else {
          PassOver(t, i, rset, start, served, nready);
        }
        i := i + 1;
      }
      ScanOver(t, i, rset, start, served, nready);
      RemainingIs(old(allset), rset, start, eof);
    }

    /** One turn of the endless loop: every descriptor select reported is serviced in that very round. */
    method Round(r: Ready) returns (served: set<int>, quit: bool)
      requires Valid() && r.rset <= allset && r.rset != {}
      requires r.connfd >= 0 && r.connfd !in allset
      modifies this, client
      ensures quit <==> listenfd in r.rset && forall i :: 0 <= i < |old(client[..])| ==> old(client[..])[i] >= 0
      ensures !quit ==> Valid() && served == r.rset
      ensures !quit ==> maxfd == if listenfd in r.rset && r.connfd > old(maxfd) then r.connfd else old(maxfd)
      ensures !quit ==>
        allset == (old(allset) + if listenfd in r.rset then {r.connfd} else {}) - ((r.rset - {listenfd}) * r.eof)
    {
      hide TableOk, Progress, Remaining;
      ghost var t, all := client[..], allset;
      TableFacts(t, listenfd, allset, maxi, maxfd);
      var nready := |r.rset|;
      served, quit := {}, false;
      if listenfd in r.rset {
        quit := AcceptNew(r.connfd);
        if quit {
          return;
        }
        served := {listenfd};
        nready := nready - 1;
        RoundStart(t, client[..], listenfd, all, r.rset, r.connfd);
        if nready <= 0 {
          OnlyListening(r.rset, listenfd, allset, r.eof);
          return;
        }
      } else {
        RoundStartQuiet(t, listenfd, all, r.rset, r.eof);
      }
      served := ScanClients(r.rset, served, nready, r.eof);
    }
  }

  lemma NothingClosed(all: set<int>, start: set<int>, eof: set<int>)
    ensures Remaining(all, start, start, eof) == all
  {}

  lemma NotStart(t: seq<int>, i: nat, rset: set<int>, start: set<int>, served: set<int>, nready: int)
    requires Progress(t, i, rset, start, served, nready) && i < |t| && t[i] !in served
    ensures t[i] !in start
  {}

  /** After an accept the scan starts with the listening descriptor serviced; the new client was not selected. */
  lemma RoundStart(t: seq<int>, t': seq<int>, listenfd: int, all: set<int>, rset: set<int>, connfd: int)
    requires forall i :: 0 <= i < |t| ==> t[i] >= -1 && t[i] != listenfd
    requires forall fd :: fd in all && fd != listenfd ==> fd >= 0 && fd in t
    requires rset <= all && listenfd in rset && connfd !in all && listenfd in all
    requires exists i :: FirstFree(t, i) && t' == t[i := connfd]
    ensures |rset - {listenfd}| == |rset| - 1
    ensures Progress(t', 0, rset, {listenfd}, {listenfd}, |rset| - 1)
  {
    var i :| FirstFree(t, i) && t' == t[i := connfd];
    forall fd | fd in rset - {listenfd} ensures fd >= 0 && fd in t'[0..] {
      var k :| 0 <= k < |t| && t[k] == fd;
      assert t'[k] == fd;
    }
  }

  lemma OnlyListening(rset: set<int>, listenfd: int, all: set<int>, eof: set<int>)
    requires listenfd in rset && |rset - {listenfd}| <= 0
    ensures rset == {listenfd} && all - ((rset - {listenfd}) * eof) == all
  {
    assert rset - {listenfd} == {};
  }

  lemma RoundStartQuiet(t: seq<int>, listenfd: int, all: set<int>, rset: set<int>, eof: set<int>)
    requires forall fd :: fd in all && fd != listenfd ==> fd >= 0 && fd in t
    requires rset <= all && listenfd !in rset
    ensures Progress(t, 0, rset, {}, {}, |rset|)
    ensures all - ((rset - {}) * eof) == (all + {}) - ((rset - {listenfd}) * eof)
  {
    assert rset - {} == rset && t[0..] == t;
    assert rset - {listenfd} == rset;
  }
}
