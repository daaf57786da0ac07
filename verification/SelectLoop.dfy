/** The client table of the `select` servers tcpcliserv/tcpservselect01.c and icmpd (icmpd.c,
    readable_listen.c, readable_conn.c): the array of descriptors, the set given to `select`, the two
    high-water marks, and the early exits that count down `nready`. */
module SelectLoop {

  /** The descriptors in slots `i` and up; a negative entry is a free slot. */
  function Live(client: seq<int>, i: nat): set<int>
    decreases |client| - i
  {
    if i >= |client| then {}
    else (if client[i] >= 0 then {client[i]} else {}) + Live(client, i + 1)
  }

  predicate Distinct(client: seq<int>) {
    forall i, j :: 0 <= i < j < |client| && client[i] >= 0 ==> client[i] != client[j]
  }

  lemma {:induction false} LiveHas(client: seq<int>, i: nat, j: nat)
    requires i <= j < |client| && client[j] >= 0
    ensures client[j] in Live(client, i)
    decreases j - i
  {
    if i < j {
      LiveHas(client, i + 1, j);
    }
  }

  lemma {:induction false} LiveWhere(client: seq<int>, i: nat, fd: int) returns (j: nat)
    requires fd in Live(client, i)
    ensures i <= j < |client| && client[j] == fd >= 0
    decreases |client| - i
  {
    if client[i] == fd && fd >= 0 {
      j := i;
    } else {
      j := LiveWhere(client, i + 1, fd);
    }
  }

  lemma {:induction false} LiveBelow(client: seq<int>, k: nat, v: int, i: nat)
    requires k < |client| && k < i
    ensures Live(client[k := v], i) == Live(client, i)
    decreases |client| - i
  {
    if i < |client| {
      LiveBelow(client, k, v, i + 1);
    }
  }

  /** A free slot taken. */
  lemma {:induction false} LiveAdd(client: seq<int>, k: nat, fd: int, i: nat)
    requires i <= k < |client| && client[k] < 0 <= fd
    ensures Live(client[k := fd], i) == Live(client, i) + {fd}
    decreases k - i
  {
    if i < k {
      LiveAdd(client, k, fd, i + 1);
    } else {
      LiveBelow(client, k, fd, i + 1);
    }
  }

  /** A slot freed. */
  lemma {:induction false} LiveRemove(client: seq<int>, k: nat, i: nat)
    requires i <= k < |client| && Distinct(client) && client[k] >= 0
    ensures Live(client[k := -1], i) == Live(client, i) - {client[k]}
    decreases k - i
  {
    if i < k {
      LiveRemove(client, k, i + 1);
      assert client[i] != client[k];
    } else {
      LiveBelow(client, k, -1, i + 1);
      NotLater(client, k);
    }
  }

  lemma {:induction false} NotLater(client: seq<int>, k: nat)
    requires k < |client| && Distinct(client) && client[k] >= 0
    ensures client[k] !in Live(client, k + 1)
  {
    if client[k] in Live(client, k + 1) {
      var j := LiveWhere(client, k + 1, client[k]);
      assert false;
    }
  }

  lemma {:induction false} NoneLive(client: seq<int>, i: nat)
    requires forall j :: i <= j < |client| ==> client[j] < 0
    ensures Live(client, i) == {}
    decreases |client| - i
  {
    if i < |client| {
      NoneLive(client, i + 1);
    }
  }

  /** The live descriptors are the entries that are not negative. */
  lemma {:induction false} LiveMeans(client: seq<int>, fd: int)
    ensures fd in Live(client, 0) <==> fd in client && fd >= 0
  {
    if fd in Live(client, 0) {
      var j := LiveWhere(client, 0, fd);
    } else if fd in client && fd >= 0 {
      var j :| 0 <= j < |client| && client[j] == fd;
      LiveHas(client, 0, j);
      assert false;
    }
  }

  /** What is left to serve from slot `i` on. */
  function Left(client: seq<int>, rset: set<int>, i: nat): set<int> {
    Live(client, i) * rset
  }

  lemma {:induction false} LeftStep(client: seq<int>, rset: set<int>, i: nat)
    requires i < |client| && Distinct(client)
    ensures var (fd, here, rest) := (client[i], Left(client, rset, i), Left(client, rset, i + 1));
      if fd >= 0 && fd in rset then here == {fd} + rest && |here| == |rest| + 1 && fd !in rest else here == rest
  {
    if client[i] >= 0 {
      NotLater(client, i);
    }
    var (fd, here, rest) := (client[i], Left(client, rset, i), Left(client, rset, i + 1));
    if fd >= 0 && fd in rset {
      assert here == {fd} + rest && here - {fd} == rest;
    } else {
      assert here == rest;
    }
  }

  lemma {:induction false} ServedMore(served: set<int>, here: set<int>, rest: set<int>, all: set<int>, fd: int)
    requires served + here == all && here == {fd} + rest
    ensures (served + {fd}) + rest == all
  {
  }

  lemma {:induction false} GoneMore(before: set<int>, served: set<int>, gone: set<int>, fd: int)
    ensures before - served * gone - (if fd in gone then {fd} else {}) == before - (served + {fd}) * gone
  {
  }

  /** `nready` counts the ready descriptors that have not been served. */
  ghost predicate Counts(nready: int, ready: set<int>, served: set<int>): (c: bool)
    ensures c && nready <= 0 ==> served == ready
  {
    nready == |ready - served| && served <= ready
  }

  /** One of the fixed descriptors, looked at and counted. */
  method ServeFixed(fd: int, ready: set<int>, served: set<int>, nready: int) returns (served': set<int>, nready': int)
    requires Counts(nready, ready, served) && fd !in served
    ensures Counts(nready', ready, served') && served' == served + ready * {fd}
  {
    if fd in ready {
      assert ready - (served + {fd}) == (ready - served) - {fd};
      return served + {fd}, nready - 1;
    }
    return served, nready;
  }

  /** icmpd.c:43-55: the listening descriptor and the two raw sockets, each with its own early exit. */
  method ServeRaw(listenfd: int, fd4: int, fd6: int, ready: set<int>) returns (served: set<int>, nready: int)
    requires listenfd != fd4 && fd4 != fd6 && fd6 != listenfd
    ensures Counts(nready, ready, served) && served == ready * {listenfd, fd4, fd6}
  {
    hide Counts;
    NoneServed(ready);
    served, nready := ServeFixed(listenfd, ready, {}, |ready|);
    if nready <= 0 {
      Within(ready, {listenfd}, {listenfd, fd4, fd6});
      return;
    }
    served, nready := ServeFixed(fd4, ready, served, nready);
    Joined(ready, {listenfd}, fd4);
    if nready <= 0 {
      Within(ready, {listenfd} + {fd4}, {listenfd, fd4, fd6});
      return;
    }
    served, nready := ServeFixed(fd6, ready, served, nready);
    Joined(ready, {listenfd} + {fd4}, fd6);
    assert {listenfd} + {fd4} + {fd6} == {listenfd, fd4, fd6};
  }

  lemma {:induction false} NoneServed(ready: set<int>)
    ensures Counts(|ready|, ready, {})
  {
  }

  lemma {:induction false} Within(ready: set<int>, part: set<int>, fixed: set<int>)
    requires ready * part == ready && part <= fixed
    ensures ready * fixed == ready
  {
  }

  lemma {:induction false} Joined(ready: set<int>, part: set<int>, fd: int)
    ensures ready * part + ready * {fd} == ready * (part + {fd})
  {
  }

  lemma {:induction false} NoClients(set0: set<int>, ready: set<int>, fixed: set<int>, gone: set<int>)
    requires ready <= fixed
    ensures set0 - (ready - fixed) * gone == set0
  {
  }

  lemma {:induction false} AllServed(ready: set<int>, fixed: set<int>, served: set<int>, nready: int)
    requires Counts(nready, ready, served) && served == ready * fixed
    ensures nready == |ready - fixed| && served + (ready - fixed) == ready
  {
  }

  class Table {
    const fixed: set<int>      // the listening and raw descriptors
    const client: array<int>
    var allset: set<int>
    var maxi: int
    var maxfd: int

    /** At every loop head: the set is the fixed descriptors and those of the clients, which are all different,
        slots above `maxi` are free, and `maxfd` bounds the set. */
    ghost predicate Valid(): (v: bool)
      reads this, client
      ensures v ==> -1 <= maxi < client.Length && Distinct(client[..])
    {
      && -1 <= maxi < client.Length
      && (forall i :: maxi < i < client.Length ==> client[i] < 0)
      && Distinct(client[..])
      && Live(client[..], 0) !! fixed
      && allset == fixed + Live(client[..], 0)
      && (forall fd :: fd in allset ==> 0 <= fd <= maxfd)
    }

    /** In terms of the table's entries. */
    lemma {:induction false} InOrder(fd: int)
      requires Valid()
      ensures fd in allset <==> fd in fixed || (fd in client[..] && fd >= 0)
      ensures fd in allset ==> fd <= maxfd
      ensures fd >= 0 && fd in client[..] ==> fd !in fixed && fd in client[..maxi + 1]
    {
      LiveMeans(client[..], fd);
    }

    constructor (fixed: set<int>, maxfd: int, size: nat)
      requires forall fd :: fd in fixed ==> 0 <= fd <= maxfd
      ensures Valid() && this.fixed == fixed && client.Length == size && allset == fixed && fresh(client)
    {
      this.fixed := fixed;
      client := new int[size](_ => -1);
      allset, maxi, this.maxfd := fixed, -1, maxfd;
      new;
      NoneLive(client[..], 0);
    }

    /** The search for a free slot, readable_listen.c:13-17 and tcpservselect01.c:48-52. */
    method FreeSlot() returns (i: nat)
      ensures i <= client.Length && (i < client.Length ==> client[i] < 0)
      ensures forall j :: 0 <= j < i ==> client[j] >= 0
    {
      i := 0;
      while i < client.Length
        invariant i <= client.Length && forall j :: 0 <= j < i ==> client[j] >= 0
      {
        if client[i] < 0 {
          return;
        }
        i := i + 1;
      }
    }

    /** A new connection, in the first free slot. Without one `ok` is false: icmpd then closes the connection,
        tcpservselect01 exits. */
    method Add(connfd: int) returns (ok: bool, i: nat)
      requires Valid() && connfd >= 0 && connfd !in allset
      modifies this, client
      ensures Valid() && allset == old(allset) + if ok then {connfd} else {}
      ensures ok <==> i < client.Length
      ensures i <= client.Length && forall j :: 0 <= j < i ==> old(client[j]) >= 0
      ensures client[..] == if ok then old(client[..])[i := connfd] else old(client[..])
      ensures ok ==> old(client[i]) < 0
      ensures maxfd == (if ok && connfd > old(maxfd) then connfd else old(maxfd))
      ensures maxi == (if ok && i > old(maxi) then i else old(maxi))
    {
      i := FreeSlot();
      if i == client.Length {
        return false, i;
      }
      ghost var before := client[..];
      LiveAdd(before, i, connfd, 0);
      DistinctAdd(before, i, connfd);
      client[i] := connfd;
      assert client[..] == before[i := connfd];
      allset := allset + {connfd};
      if connfd > maxfd {
        maxfd := connfd;
      }
      if i > maxi {
        maxi := i;
      }
      return true, i;
    }

    /** A client gone: readable_conn.c:49-53 and tcpservselect01.c:72-74. */
    method Remove(i: nat)
      requires Valid() && i < client.Length && client[i] >= 0
      modifies this, client
      ensures Valid() && allset == old(allset) - {old(client[i])} && client[..] == old(client[..])[i := -1]
      ensures maxi == old(maxi) && maxfd == old(maxfd)
    {
      ghost var before := client[..];
      LiveRemove(before, i, 0);
      LiveHas(before, 0, i);
      allset := allset - {client[i]};
      client[i] := -1;
      assert client[..] == before[i := -1];
    }

    /** One ready client, read from and, if it has ended, taken out of the table. */
    method ServeOne(i: nat, ended: bool, ghost rset: set<int>)
      requires Valid() && i < client.Length && client[i] >= 0
      modifies this, client
      ensures Valid() && maxi == old(maxi) && allset == old(allset) - if ended then {old(client[i])} else {}
      ensures Left(client[..], rset, i + 1) == old(Left(client[..], rset, i + 1))
    {
      if ended {
        LiveBelow(client[..], i, -1, i + 1);
        Remove(i);
      }
    }

    lemma {:induction false} NothingAboveMaxi(rset: set<int>)
      requires Valid()
      ensures Left(client[..], rset, maxi + 1) == {}
    {
      NoneLive(client[..], maxi + 1);
    }

    /** The loop over the clients, icmpd.c:57-63 and tcpservselect01.c:66-81; `gone` are those that have
        ended. Every ready client is served although the loop stops when `nready` is used up. */
    method ServeClients(rset: set<int>, gone: set<int>, count: nat) returns (served: set<int>)
      requires Valid() && count == |Left(client[..], rset, 0)| > 0
      modifies this, client
      ensures Valid() && served == old(Left(client[..], rset, 0)) && allset == old(allset) - served * gone
    {
      hide Valid, Left, Live, Distinct;
      var nready, i := count, 0;
      served := {};
      ghost var all := Left(client[..], rset, 0);
      while i <= maxi
        invariant Valid() && 0 <= i <= maxi + 1 <= client.Length
        invariant served + Left(client[..], rset, i) == all
        invariant nready == |Left(client[..], rset, i)| > 0
        invariant allset == old(allset) - served * gone
      {
        LeftStep(client[..], rset, i);
        var sockfd := client[i];
        if sockfd >= 0 && sockfd in rset {
          ServedMore(served, Left(client[..], rset, i), Left(client[..], rset, i + 1), all, sockfd);
          GoneMore(old(allset), served, gone, sockfd);
          ServeOne(i, sockfd in gone, rset);
          served := served + {sockfd};
          nready := nready - 1;
          if nready <= 0 {
            assert Left(client[..], rset, i + 1) == {};
            return;
          }
        }
        i := i + 1;
      }
      NothingAboveMaxi(rset);
      assert false;
    }

    /** The ready clients are the ready descriptors other than the fixed ones, also when a connection that
        `select` did not know of has been added since. */
    lemma {:induction false} ReadyClients(ready: set<int>, before: set<int>, added: set<int>)
      requires Valid() && ready <= before && allset == before + added && added !! before
      ensures Left(client[..], ready, 0) == ready - fixed
    {
    }

    /** The rest of a pass once the fixed descriptors have been looked at: nothing if `nready` is used up,
        otherwise the clients. `added` was not known to `select`. */
    method FinishPass(ready: set<int>, gone: set<int>, fixedServed: set<int>, nready: int,
                      ghost before: set<int>, ghost added: set<int>) returns (served: set<int>)
      requires Valid() && Counts(nready, ready, fixedServed) && fixedServed == ready * fixed
      requires ready <= before && allset == before + added && added !! before
      modifies this, client
      ensures Valid() && served == ready && allset == old(allset) - (ready - fixed) * gone
    {
      hide Valid, Left, Live, Distinct, Counts;
      if nready <= 0 {
        NoClients(allset, ready, fixed, gone);
        return fixedServed;
      }
      ReadyClients(ready, before, added);
      AllServed(ready, fixed, fixedServed, nready);
      var clients := ServeClients(ready, gone, nready);
      served := fixedServed + clients;
    }

    /** One pass of tcpservselect01.c:36-81: `ready` is what `select` gave, `gone` the clients whose
        connection has ended. Unless the table is full, everything ready is served. */
    method TcpPass(listenfd: int, ready: set<int>, gone: set<int>, connfd: int) returns (served: set<int>, quit: bool)
      requires Valid() && fixed == {listenfd} && {} < ready <= allset && connfd >= 0 && connfd !in allset
      modifies this, client
      ensures quit <==> listenfd in ready && forall i :: 0 <= i < client.Length ==> old(client[i]) >= 0
      ensures !quit ==> Valid() && served == ready
      ensures !quit ==> allset == old(allset) + (if listenfd in ready then {connfd} else {}) - (ready - fixed) * gone
    {
      hide Valid, Left, Live, Distinct, Counts;
      quit := false;
      if listenfd in ready {
        var ok, i := Add(connfd);
        if !ok {
          return {}, true;
        }
      }
      NoneServed(ready);
      var fixedServed, nready := ServeFixed(listenfd, ready, {}, |ready|);
      served := FinishPass(ready, gone, fixedServed, nready, old(allset), if listenfd in ready then {connfd} else {});
    }

    /** One pass of icmpd.c:41-63, with the raw sockets read in between. A connection that finds the table
        full is closed, and the pass goes on. */
    method IcmpdPass(listenfd: int, fd4: int, fd6: int, ready: set<int>, gone: set<int>, connfd: int)
      returns (served: set<int>, accepted: bool)
      requires Valid() && fixed == {listenfd, fd4, fd6} && listenfd != fd4 && fd4 != fd6 && fd6 != listenfd
      requires {} < ready <= allset && connfd >= 0 && connfd !in allset
      modifies this, client
      ensures Valid() && served == ready
      ensures accepted <==> listenfd in ready && exists i :: 0 <= i < client.Length && old(client[i]) < 0
      ensures allset == old(allset) + (if accepted then {connfd} else {}) - (ready - fixed) * gone
    {
      hide Valid, Left, Live, Distinct, Counts;
      accepted := false;
      if listenfd in ready {
        var i;
        accepted, i := Add(connfd);
      }
      var fixedServed, nready := ServeRaw(listenfd, fd4, fd6, ready);
      served := FinishPass(ready, gone, fixedServed, nready, old(allset), if accepted then {connfd} else {});
    }

    /** icmpd for any number of passes, whatever becomes ready and whoever leaves: the table is in order at
        every loop head, and no pass skips a descriptor. */
    method Icmpd(passes: nat, listenfd: int, fd4: int, fd6: int)
      returns (ghost selected: seq<set<int>>, ghost served: seq<set<int>>)
      requires Valid() && fixed == {listenfd, fd4, fd6} && listenfd != fd4 && fd4 != fd6 && fd6 != listenfd
      modifies this, client
      ensures Valid() && served == selected
    {
      hide Valid;
      selected, served := [], [];
      var k := 0;
      while k < passes
        invariant Valid() && served == selected
      {
        var ready: set<int>, gone: set<int>, connfd: int := *, *, *;
        if {} < ready <= allset && connfd >= 0 && connfd !in allset {
          var done, accepted := IcmpdPass(listenfd, fd4, fd6, ready, gone, connfd);
          selected, served := selected + [ready], served + [done];
        }
        k := k + 1;
      }
    }

    /** tcpservselect01 likewise, until it quits because a connection finds the table full. */
    method TcpServer(passes: nat, listenfd: int)
      returns (ghost selected: seq<set<int>>, ghost served: seq<set<int>>, quit: bool)
      requires Valid() && fixed == {listenfd}
      modifies this, client
      ensures served == selected && (!quit ==> Valid())
    {
      hide Valid;
      selected, served, quit := [], [], false;
      var k := 0;
      while k < passes
        invariant Valid() && served == selected && !quit
      {
        var ready: set<int>, gone: set<int>, connfd: int := *, *, *;
        if {} < ready <= allset && connfd >= 0 && connfd !in allset {
          var done;
          done, quit := TcpPass(listenfd, ready, gone, connfd);
          if quit {
            return;
          }
          selected, served := selected + [ready], served + [done];
        }
        k := k + 1;
      }
    }
  }

  lemma {:induction false} DistinctAdd(client: seq<int>, k: nat, fd: int)
    requires k < |client| && Distinct(client) && fd >= 0 && fd !in Live(client, 0)
    ensures Distinct(client[k := fd])
  {
    forall j | 0 <= j < |client| ensures client[j] != fd {
      if client[j] == fd {
        LiveHas(client, 0, j);
        assert false;
      }
    }
  }
}
