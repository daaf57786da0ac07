/** The list of `addrinfo` structures behind `getaddrinfo`: appending (libgai/ga_aistruct.c), cloning
    (libgai/ga_clone.c) and filling in socket types and ports while the list is walked
    (libgai/ga_port.c, libgai/ga_serv.c). */
module GaList {
  import opened Common

  datatype Family = Inet | Inet6 | Local

  // ----- What a list means -----

  /** One structure together with the socket address it points to. */
  datatype Entry = Entry(clone: bool, family: Family, socktype: int, protocol: int, addrlen: nat,
                         host: seq<byte>, port: int)

  predicate HasPort(f: Family) {
    f == Inet || f == Inet6
  }

  /** Lines 47-62 of ga_port.c. */
  function Filled(e: Entry, socktype: int, port: int): Entry {
    e.(socktype := socktype, port := if HasPort(e.family) then port else e.port)
  }

  /** A clone is never itself cloned. */
  function Cloned(e: Entry): Entry {
    e.(clone := false)
  }

  /** Does the walk of `ga_port` stop at this entry? */
  predicate Matches(e: Entry, socktype: int) {
    e.clone || e.socktype == socktype
  }

  /** What becomes of one entry in a walk of `ga_port`. */
  function PortOne(e: Entry, socktype: int, port: int): (r: seq<Entry>)
    ensures 1 <= |r| <= 2
  {
    if !Matches(e, socktype) then [e]
    else if e.clone && e.socktype != 0 then [e, Filled(Cloned(e), socktype, port)]
    else [Filled(e, socktype, port)]
  }

  /** What becomes of a list. */
  function PortAll(es: seq<Entry>, socktype: int, port: int): seq<Entry> {
    if es == [] then [] else PortAll(es[..|es| - 1], socktype, port) + PortOne(es[|es| - 1], socktype, port)
  }

  function Count(e: Entry, socktype: int): nat {
    if Matches(e, socktype) && HasPort(e.family) then 1 else 0
  }

  /** The number of ports a walk fills in. */
  function Found(es: seq<Entry>, socktype: int): nat {
    if es == [] then 0 else Found(es[..|es| - 1], socktype) + Count(es[|es| - 1], socktype)
  }

  // ----- The heap -----

  /** A `sockaddr_in`, `sockaddr_in6` or `sockaddr_un`. */
  class SockAddr {
    const family: Family
    const host: seq<byte>
    var port: int

    constructor (family: Family, host: seq<byte>, port: int)
      ensures this.family == family && this.host == host && this.port == port
    {
      this.family, this.host, this.port := family, host, port;
    }
  }

  class AddrInfo {
    var clone: bool
    var family: Family
    var socktype: int
    var protocol: int
    var addrlen: nat
    var addr: SockAddr?  // null until one has been allocated
    var next: AddrInfo?

    constructor (clone: bool, family: Family, socktype: int, protocol: int, addrlen: nat, addr: SockAddr?,
                 next: AddrInfo?)
      ensures this.clone == clone && this.family == family && this.socktype == socktype
      ensures this.protocol == protocol && this.addrlen == addrlen && this.addr == addr && this.next == next
    {
      this.clone, this.family, this.socktype := clone, family, socktype;
      this.protocol, this.addrlen, this.addr, this.next := protocol, addrlen, addr, next;
    }
  }

  ghost function Value(n: AddrInfo, a: SockAddr): Entry
    reads n, a
  {
    Entry(n.clone, n.family, n.socktype, n.protocol, n.addrlen, a.host, a.port)
  }

  /** What follows position `i` of a list. */
  function Next(ns: seq<AddrInfo>, i: nat): AddrInfo?
    requires i < |ns|
  {
    if i + 1 < |ns| then ns[i + 1] else null
  }

  /** The nodes follow one another, the last one ends the list, and each has its socket address. */
  ghost predicate Linked(ns: seq<AddrInfo>, addrs: seq<SockAddr>)
    reads ns
  {
    && |ns| == |addrs|
    && (forall i :: 0 <= i < |ns| ==> ns[i].next == Next(ns, i))
    && (forall i :: 0 <= i < |ns| ==> ns[i].addr == addrs[i])
  }

  predicate Distinct<T(==)>(s: seq<T>) {
    forall i, j :: 0 <= i < j < |s| ==> s[i] != s[j]
  }

  /** `s` with `x` put after position `k`. */
  function Insert<T>(s: seq<T>, k: nat, x: T): (r: seq<T>)
    requires k < |s|
    ensures |r| == |s| + 1 && r[k + 1] == x
    ensures forall i :: 0 <= i <= k ==> r[i] == s[i]
    ensures forall i :: k + 1 < i < |r| ==> r[i] == s[i - 1]
  {
    s[..k + 1] + [x] + s[k + 1..]
  }

  lemma {:induction false} DistinctInsert<T>(s: seq<T>, k: nat, x: T)
    requires k < |s| && Distinct(s) && x !in s
    ensures Distinct(Insert(s, k, x))
  {
  }

  lemma {:induction false} NextInsert(ns: seq<AddrInfo>, k: nat, x: AddrInfo)
    requires k < |ns|
    ensures var r := Insert(ns, k, x);
      && Next(r, k) == x && Next(r, k + 1) == Next(ns, k)
      && (forall i :: 0 <= i < k ==> Next(r, i) == Next(ns, i))
      && (forall i :: k + 1 < i < |r| ==> Next(r, i) == Next(ns, i - 1))
  {
  }

  ghost function Values(ns: seq<AddrInfo>, addrs: seq<SockAddr>): (vs: seq<Entry>)
    requires |ns| == |addrs|
    reads ns, addrs
    ensures |vs| == |ns| && forall i :: 0 <= i < |ns| ==> vs[i] == Value(ns[i], addrs[i])
  {
    seq(|ns|, i requires 0 <= i < |ns| reads ns, addrs => Value(ns[i], addrs[i]))
  }

  /** The list that starts at `head`: its nodes `ns` and socket addresses `addrs`, no two of which are
      the same object. */
  ghost predicate IsList(head: AddrInfo?, ns: seq<AddrInfo>, addrs: seq<SockAddr>): (b: bool)
    reads ns
    ensures b ==> |ns| == |addrs|
  {
    && head == (if ns == [] then null else ns[0])
    && Linked(ns, addrs) && Distinct(ns) && Distinct(addrs)
  }

  /** The one pointer that changes when a node goes after `ns[k]`. */
  method Relink(ai: AddrInfo, node: AddrInfo, ghost ns: seq<AddrInfo>, ghost addrs: seq<SockAddr>, ghost k: nat)
    requires Linked(ns, addrs) && Distinct(ns) && k < |ns| && ns[k] == ai
    modifies ai`next
    ensures ai.next == node
    ensures forall i :: 0 <= i < |ns| && i != k ==> ns[i].next == Next(ns, i)
    ensures forall i :: 0 <= i < |ns| ==> ns[i].addr == addrs[i]
    ensures Values(ns, addrs) == old(Values(ns, addrs))
  {
    ai.next := node;
  }

  /** The end of `ga_clone` and of `ga_aistruct`: `node`, filled in already, goes after `ns[k]`. */
  method InsertAfter(ai: AddrInfo, node: AddrInfo, ghost addr: SockAddr, ghost head: AddrInfo?,
                     ghost ns: seq<AddrInfo>, ghost addrs: seq<SockAddr>, ghost k: nat)
    requires IsList(head, ns, addrs) && k < |ns| && ns[k] == ai
    requires node !in ns && addr !in addrs && node.addr == addr && node.next == ai.next
    modifies ai`next
    ensures ai.next == node
    ensures IsList(head, Insert(ns, k, node), Insert(addrs, k, addr))
    ensures Values(Insert(ns, k, node), Insert(addrs, k, addr)) ==
            Insert(old(Values(ns, addrs)), k, Value(node, addr))
  {
    assert node.next == Next(ns, k);
    DistinctInsert(ns, k, node);
    DistinctInsert(addrs, k, addr);
    hide Distinct, Linked, Values, Next;
    Relink(ai, node, ns, addrs, k);
    LinkedInsert(ns, addrs, k, node, addr);
  }

  lemma {:induction false} LinkedInsert(ns: seq<AddrInfo>, addrs: seq<SockAddr>, k: nat, node: AddrInfo, addr: SockAddr)
    requires k < |ns| == |addrs| && ns[k].next == node && node.next == Next(ns, k) && node.addr == addr
    requires forall i :: 0 <= i < |ns| && i != k ==> ns[i].next == Next(ns, i)
    requires forall i :: 0 <= i < |ns| ==> ns[i].addr == addrs[i]
    ensures Linked(Insert(ns, k, node), Insert(addrs, k, addr))
    ensures Values(Insert(ns, k, node), Insert(addrs, k, addr)) == Insert(Values(ns, addrs), k, Value(node, addr))
  {
    var ns', addrs' := Insert(ns, k, node), Insert(addrs, k, addr);
    NextInsert(ns, k, node);
    forall i | 0 <= i < |ns'|
      ensures ns'[i].next == Next(ns', i) && ns'[i].addr == addrs'[i]
    {
      var j := if i <= k then i else i - 1;
      assert i != k + 1 ==> ns'[i] == ns[j] && ns[j].addr == addrs[j];
    }
  }

  function AddrLen(f: Family): nat {
    match f
    case Inet => 16
    case Inet6 => 28
    case Local => 110
  }

  /** `ga_clone`: a copy of `ai`, with a socket address of its own, goes after it. */
  method GaClone(ai: AddrInfo, ghost head: AddrInfo?, ghost ns: seq<AddrInfo>, ghost addrs: seq<SockAddr>, ghost k: nat)
    returns (clone: AddrInfo, addr: SockAddr)
    requires IsList(head, ns, addrs) && k < |ns| && ns[k] == ai
    modifies ai`next
    ensures fresh(clone) && fresh(addr) && clone.addr == addr && ai.addr == old(ai.addr) != null
    ensures addr.host == ai.addr.host && addr.family == ai.addr.family && addr.port == ai.addr.port
    ensures clone.family == ai.family && clone.socktype == ai.socktype && clone.protocol == ai.protocol
    ensures clone.addrlen == ai.addrlen && !clone.clone && clone.next == old(ai.next) && ai.next == clone
    ensures IsList(head, Insert(ns, k, clone), Insert(addrs, k, addr))
    ensures Values(Insert(ns, k, clone), Insert(addrs, k, addr)) ==
            Insert(old(Values(ns, addrs)), k, Cloned(old(Values(ns, addrs)[k])))
  {
    assert ai.addr == addrs[k];
    ghost var e := Values(ns, addrs)[k];
    assert e == Value(ai, addrs[k]);
    addr := new SockAddr(ai.addr.family, ai.addr.host, ai.addr.port);
    clone := new AddrInfo(false, ai.family, ai.socktype, ai.protocol, ai.addrlen, addr, ai.next);
    assert Value(clone, addr) == Cloned(e);
    hide IsList, Linked, Distinct, Values;
    assert Values(ns, addrs) == old(Values(ns, addrs));
    InsertAfter(ai, clone, addr, head, ns, addrs, k);
  }

  /** The value of an entry that `ga_aistruct` makes: without a socket type it is marked to be cloned. */
  function Made(socktype: int, protocol: int, host: seq<byte>, family: Family): Entry {
    Entry(socktype == 0, family, socktype, protocol, AddrLen(family), host, 0)
  }

  /** The room for a path in a `sockaddr_un`. */
  const SUN_PATH: nat := 108

  /** Does the address fit its structure? A path needs room for its terminator. */
  predicate Fits(host: seq<byte>, family: Family) {
    family == Local ==> |host| < SUN_PATH
  }

  /** Nodes that follow one another from `head`, whether or not they have a socket address. */
  ghost predicate Chained(head: AddrInfo?, ns: seq<AddrInfo>)
    reads ns
  {
    && head == (if ns == [] then null else ns[0])
    && forall i :: 0 <= i < |ns| ==> ns[i].next == Next(ns, i)
  }

  /** `ga_aistruct`. `last` is the node whose `ai_next` is to be filled, null when that is the head itself.
      A path that is too long is an error, EAI_SERVICE; the node has been linked in by then, without an address. */
  method AiStruct(head: AddrInfo?, last: AddrInfo?, socktype: int, protocol: int, host: seq<byte>, family: Family,
                  ghost ns: seq<AddrInfo>, ghost addrs: seq<SockAddr>)
    returns (ok: bool, head': AddrInfo?, ai: AddrInfo, ghost addrs': seq<SockAddr>)
    requires IsList(head, ns, addrs)
    requires last == if ns == [] then null else ns[|ns| - 1]
    modifies last
    ensures (ok <==> (family == Local ==> |host| < 108)) && fresh(ai)
    ensures ai.family == family && ai.socktype == socktype && ai.protocol == protocol && ai.clone == (socktype == 0)
    ensures ok ==> ai.addr != null && ai.addr.host == host && ai.addr.family == family && ai.addr.port == 0
    ensures ok ==> ai.addrlen == match family case Inet => 16 case Inet6 => 28 case Local => 110
    ensures ok ==> ai.addr != null && fresh(ai.addr) && addrs' == addrs + [ai.addr]
    ensures ok ==> IsList(head', ns + [ai], addrs')
    ensures ok ==> Values(ns + [ai], addrs') == old(Values(ns, addrs)) + [Made(socktype, protocol, host, family)]
    ensures !ok ==> ai.addr == null && Chained(head', ns + [ai]) && Values(ns, addrs) == old(Values(ns, addrs))
  {
    if !Fits(host, family) {
      head', ai := LinkBare(head, last, socktype, protocol, family, ns, addrs);
      return false, head', ai, addrs;
    }
    var addr := new SockAddr(family, host, 0);
    ai := new AddrInfo(socktype == 0, family, socktype, protocol, AddrLen(family), addr, null);
    addrs' := addrs + [addr];
    assert Values(ns, addrs) == old(Values(ns, addrs));
    ok, head' := true, head;
    if last == null {
      head' := ai;
      assert ns + [ai] == [ai] && addrs + [addr] == [addr];
    } else {
      ghost var k, vs := |ns| - 1, Values(ns, addrs);
      assert ns[k].next == Next(ns, k);
      InsertLast(ns, ai);
      InsertLast(addrs, addr);
      InsertLast(vs, Value(ai, addr));
      hide IsList, Linked, Distinct, Values, Insert, Next;
      InsertAfter(last, ai, addr, head, ns, addrs, k);
    }
  }

  /** The node of lines 14-24 alone. */
  method LinkBare(head: AddrInfo?, last: AddrInfo?, socktype: int, protocol: int, family: Family,
                  ghost ns: seq<AddrInfo>, ghost addrs: seq<SockAddr>)
    returns (head': AddrInfo?, ai: AddrInfo)
    requires IsList(head, ns, addrs)
    requires last == if ns == [] then null else ns[|ns| - 1]
    modifies last
    ensures fresh(ai) && ai.addr == null && Chained(head', ns + [ai])
    ensures ai.family == family && ai.socktype == socktype && ai.protocol == protocol && ai.clone == (socktype == 0)
    ensures Values(ns, addrs) == old(Values(ns, addrs))
  {
    ai := new AddrInfo(socktype == 0, family, socktype, protocol, 0, null, null);
    assert Values(ns, addrs) == old(Values(ns, addrs));
    head' := if last == null then ai else head;
    if last != null {
      hide Values, Next, Distinct;
      Relink(last, ai, ns, addrs, |ns| - 1);
    }
    ChainedAppend(head', ns, ai);
  }

  lemma {:induction false} ChainedAppend(head: AddrInfo?, ns: seq<AddrInfo>, ai: AddrInfo)
    requires head == (if ns == [] then ai else ns[0]) && ai.next == null
    requires forall i :: 0 <= i < |ns| ==> ns[i].next == if i == |ns| - 1 then ai else Next(ns, i)
    ensures Chained(head, ns + [ai])
  {
  }

  lemma {:induction false} InsertLast<T>(s: seq<T>, x: T)
    requires s != []
    ensures Insert(s, |s| - 1, x) == s + [x]
  {
  }

  /** Lines 47-62 of `ga_port`: socket type and port of one node. */
  method WriteFields(ai: AddrInfo, socktype: int, port: int) returns (found: nat)
    requires ai.addr != null
    modifies ai, ai.addr
    ensures ai.next == old(ai.next) && ai.addr == old(ai.addr) && ai.clone == old(ai.clone)
    ensures ai.family == old(ai.family) && ai.protocol == old(ai.protocol) && ai.addrlen == old(ai.addrlen)
    ensures ai.socktype == socktype && ai.addr.port == if ai.family == Local then old(ai.addr.port) else port
    ensures Value(ai, ai.addr) == Filled(old(Value(ai, ai.addr)), socktype, port)
    ensures found == if ai.family == Local then 0 else 1
  {
    ai.socktype := socktype;
    found := 0;
    match ai.family {
      case Inet =>
        ai.addr.port := port;
        found := found + 1;
      case Inet6 =>
        ai.addr.port := port;
        found := found + 1;
      case Local =>
    }
  }

  /** The same as a change of the list. */
  method FillPort(ai: AddrInfo, socktype: int, port: int, ghost head: AddrInfo?, ghost ns: seq<AddrInfo>,
                  ghost addrs: seq<SockAddr>, ghost k: nat)
    returns (found: nat)
    requires IsList(head, ns, addrs) && k < |ns| && ns[k] == ai
    modifies ai, ai.addr
    ensures IsList(head, ns, addrs) && ai.addr == old(ai.addr)
    ensures Values(ns, addrs) == old(Values(ns, addrs))[k := Filled(old(Values(ns, addrs)[k]), socktype, port)]
    ensures found == if HasPort(old(Values(ns, addrs)[k]).family) then 1 else 0
  {
    ghost var vs := Values(ns, addrs);
    assert ai.addr == addrs[k] && vs[k] == Value(ai, addrs[k]);
    assert forall i :: 0 <= i < |ns| && i != k ==> ns[i] != ai && addrs[i] != ai.addr;
    hide Distinct, IsList, Filled, Values, Next;
    found := WriteFields(ai, socktype, port);
    MakeList(head, ns, addrs);
    OneChanged(ns, addrs, k, vs);
  }

  lemma {:induction false} MakeList(head: AddrInfo?, ns: seq<AddrInfo>, addrs: seq<SockAddr>)
    requires head == (if ns == [] then null else ns[0]) && Distinct(ns) && Distinct(addrs) && |ns| == |addrs|
    requires forall i :: 0 <= i < |ns| ==> ns[i].next == Next(ns, i)
    requires forall i :: 0 <= i < |ns| ==> ns[i].addr == addrs[i]
    ensures IsList(head, ns, addrs)
  {
  }

  lemma {:induction false} OneChanged(ns: seq<AddrInfo>, addrs: seq<SockAddr>, k: nat, vs: seq<Entry>)
    requires k < |ns| == |addrs| == |vs|
    requires forall i :: 0 <= i < |ns| && i != k ==> Value(ns[i], addrs[i]) == vs[i]
    ensures Values(ns, addrs) == vs[k := Value(ns[k], addrs[k])]
  {
  }

  lemma {:induction false} PortAllStep(es: seq<Entry>, j: nat, socktype: int, port: int)
    requires j < |es|
    ensures PortAll(es[..j + 1], socktype, port) == PortAll(es[..j], socktype, port) + PortOne(es[j], socktype, port)
    ensures Found(es[..j + 1], socktype) ==
      Found(es[..j], socktype) + Count(es[j], socktype)
  {
    assert es[..j + 1][..j] == es[..j];
  }

  /** The list in the middle of a walk: the first part done, the rest as it was. */
  ghost predicate Walked(vs: seq<Entry>, k: nat, es: seq<Entry>, j: nat, socktype: int, port: int) {
    j <= |es| && k <= |vs| && vs[..k] == PortAll(es[..j], socktype, port) && vs[k..] == es[j..]
  }

  lemma {:induction false} WalkPast(vs: seq<Entry>, k: nat, es: seq<Entry>, j: nat, socktype: int, port: int)
    requires Walked(vs, k, es, j, socktype, port) && j < |es|
    ensures k < |vs| && vs[k] == es[j]
    ensures Walked(Turned(vs, k, socktype, port), k + |PortOne(es[j], socktype, port)|, es, j + 1, socktype, port)
  {
    PortAllStep(es, j, socktype, port);
    assert vs[k..][0] == es[j..][0] && es[j..][1..] == es[j + 1..];
    TurnedParts(vs, k, socktype, port);
    hide PortAll, PortOne, Turned;
  }

  lemma {:induction false} TurnedParts(vs: seq<Entry>, k: nat, socktype: int, port: int)
    requires k < |vs|
    ensures var r, one := Turned(vs, k, socktype, port), PortOne(vs[k], socktype, port);
      && k + |one| <= |r| && r[..k + |one|] == vs[..k] + one && r[k + |one|..] == vs[k..][1..]
  {
  }

  /** What one turn of the walk makes of the list at position `k`. */
  function Turned(vs: seq<Entry>, k: nat, socktype: int, port: int): seq<Entry>
    requires k < |vs|
  {
    var e := vs[k];
    if !Matches(e, socktype) then vs
    else if e.clone && e.socktype != 0 then Insert(vs, k, Cloned(e))[k + 1 := Filled(Cloned(e), socktype, port)]
    else vs[k := Filled(e, socktype, port)]
  }

  /** The nodes and socket addresses of a list are all in `region`. */
  ghost predicate Owned(ns: seq<AddrInfo>, addrs: seq<SockAddr>, region: set<object>) {
    && |ns| == |addrs|
    && forall i :: 0 <= i < |ns| ==> ns[i] in region && addrs[i] in region
  }

  lemma {:induction false} OwnedInsert(ns: seq<AddrInfo>, addrs: seq<SockAddr>, region: set<object>, k: nat,
                                       n: AddrInfo, a: SockAddr)
    requires Owned(ns, addrs, region) && k < |ns|
    ensures Owned(Insert(ns, k, n), Insert(addrs, k, a), region + {n, a})
  {
  }

  /** Lines 39-40 and 47-62: an entry whose socket type is taken is cloned, and the clone filled in. */
  method PortClone(node: AddrInfo, port: int, socktype: int, ghost head: AddrInfo?, ghost ns: seq<AddrInfo>,
                   ghost addrs: seq<SockAddr>, ghost k: nat)
    returns (found: nat, ai: AddrInfo, ghost addr: SockAddr)
    requires IsList(head, ns, addrs) && k < |ns| && ns[k] == node
    modifies node
    ensures fresh(ai) && fresh(addr)
    ensures IsList(head, Insert(ns, k, ai), Insert(addrs, k, addr))
    ensures var e := old(Values(ns, addrs)[k]);
      && Values(Insert(ns, k, ai), Insert(addrs, k, addr)) ==
         Insert(old(Values(ns, addrs)), k, Cloned(e))[k + 1 := Filled(Cloned(e), socktype, port)]
      && found == if HasPort(e.family) then 1 else 0
  {
    hide Linked, Distinct, IsList, Values;
    ai, addr := GaClone(node, head, ns, addrs, k);
    found := FillPort(ai, socktype, port, head, Insert(ns, k, ai), Insert(addrs, k, addr), k + 1);
  }

  /** One turn of the walk: `ai` is the node it ends at, `k'` its position. */
  method PortNode(node: AddrInfo, port: int, socktype: int, ghost head: AddrInfo?, ghost ns: seq<AddrInfo>,
                  ghost addrs: seq<SockAddr>, ghost k: nat, ghost region: set<object>)
    returns (found: nat, ai: AddrInfo, ghost ns': seq<AddrInfo>, ghost addrs': seq<SockAddr>, ghost k': nat,
             ghost region': set<object>)
    requires IsList(head, ns, addrs) && k < |ns| && ns[k] == node && Owned(ns, addrs, region)
    modifies node, node.addr
    ensures IsList(head, ns', addrs') && Values(ns', addrs') == Turned(old(Values(ns, addrs)), k, socktype, port)
    ensures k' < |ns'| && ns'[k'] == ai && k' + 1 == k + |PortOne(old(Values(ns, addrs)[k]), socktype, port)|
    ensures found == Count(old(Values(ns, addrs)[k]), socktype)
    ensures region <= region' && fresh(region' - region) && Owned(ns', addrs', region')
  {
    hide Linked, Distinct, Values, IsList, Owned, Turned, PortOne, Filled, Insert, Count, Matches, HasPort, Cloned, At;
    ghost var vs := Values(ns, addrs);
    NextOf(head, ns, addrs, k);
    assert vs[k] == Value(node, addrs[k]);
    TurnedCases(vs, k, socktype, port);
    if node.clone && node.socktype != 0 {
      ghost var addr;
      found, ai, addr := PortClone(node, port, socktype, head, ns, addrs, k);
      OwnedInsert(ns, addrs, region, k, ai, addr);
      ns', addrs', k', region' := Insert(ns, k, ai), Insert(addrs, k, addr), k + 1, region + {ai, addr};
      return;
    }
    ns', addrs', found, ai, k', region' := ns, addrs, 0, node, k, region;
    if node.clone || node.socktype == socktype {
      found := FillPort(node, socktype, port, head, ns, addrs, k);
    }
  }

  lemma {:induction false} TurnedCases(vs: seq<Entry>, k: nat, socktype: int, port: int)
    requires k < |vs|
    ensures var (e, r, n) := (vs[k], Turned(vs, k, socktype, port), |PortOne(vs[k], socktype, port)|);
      if e.clone && e.socktype != 0 then
        r == Insert(vs, k, Cloned(e))[k + 1 := Filled(Cloned(e), socktype, port)] && n == 2
      else if e.clone || e.socktype == socktype then r == vs[k := Filled(e, socktype, port)] && n == 1
      else r == vs && n == 1
    ensures Count(vs[k], socktype) ==
      if (vs[k].clone || vs[k].socktype == socktype) && HasPort(vs[k].family) then 1 else 0
  {
  }

  function At(ns: seq<AddrInfo>, k: nat): AddrInfo? {
    if k < |ns| then ns[k] else null
  }

  lemma {:induction false} NextOf(head: AddrInfo?, ns: seq<AddrInfo>, addrs: seq<SockAddr>, k: nat)
    requires IsList(head, ns, addrs) && k < |ns|
    ensures ns[k].next == At(ns, k + 1) && ns[k].addr == addrs[k]
  {
  }

  lemma {:induction false} HeadOf(head: AddrInfo?, ns: seq<AddrInfo>, addrs: seq<SockAddr>)
    requires IsList(head, ns, addrs)
    ensures head == At(ns, 0)
  {
  }

  /** Where the walk is, unless it is past the end. */
  lemma {:induction false} Here(head: AddrInfo?, ns: seq<AddrInfo>, addrs: seq<SockAddr>, region: set<object>, k: nat)
    requires IsList(head, ns, addrs) && Owned(ns, addrs, region) && At(ns, k) != null
    ensures k < |ns| == |addrs| && ns[k] == At(ns, k) && ns[k] in region
    ensures ns[k].addr == addrs[k] && addrs[k] in region
  {
  }

  lemma {:induction false} Ended(ns: seq<AddrInfo>, k: nat)
    requires At(ns, k) == null
    ensures k >= |ns|
  {
  }

  lemma {:induction false} WalkStarts(es: seq<Entry>, socktype: int, port: int)
    ensures Walked(es, 0, es, 0, socktype, port) && Found(es[..0], socktype) == 0
  {
  }

  lemma {:induction false} WalkEnds(vs: seq<Entry>, k: nat, es: seq<Entry>, j: nat, socktype: int, port: int)
    requires Walked(vs, k, es, j, socktype, port)
    ensures j <= |es| && k <= |vs| && |vs| - k == |es| - j
    ensures j == |es| ==> vs == PortAll(es, socktype, port) && es[..j] == es
  {
    assert |vs[k..]| == |es[j..]|;
    if j == |es| {
      assert vs == vs[..k] && es[..j] == es;
    }
  }

  /** One turn of the walk, in terms of the list before the walk. */
  method WalkStep(node: AddrInfo, port: int, socktype: int, ghost head: AddrInfo?, ghost ns: seq<AddrInfo>,
                  ghost addrs: seq<SockAddr>, ghost k: nat, ghost es: seq<Entry>, ghost j: nat,
                  ghost region: set<object>)
    returns (found: nat, next: AddrInfo?, ghost ns': seq<AddrInfo>, ghost addrs': seq<SockAddr>, ghost k': nat,
             ghost region': set<object>)
    requires IsList(head, ns, addrs) && k < |ns| && ns[k] == node && Owned(ns, addrs, region)
    requires j < |es| && Walked(Values(ns, addrs), k, es, j, socktype, port)
    modifies node, node.addr
    ensures IsList(head, ns', addrs') && Walked(Values(ns', addrs'), k', es, j + 1, socktype, port)
    ensures next == At(ns', k') && found == Count(es[j], socktype)
    ensures region <= region' && fresh(region' - region) && Owned(ns', addrs', region')
  {
    hide IsList, Linked, Distinct, Values, Walked, Turned, PortAll, PortOne, Found, Count, Owned, Next;
    WalkPast(Values(ns, addrs), k, es, j, socktype, port);
    var ai;
    found, ai, ns', addrs', k', region' := PortNode(node, port, socktype, head, ns, addrs, k, region);
    NextOf(head, ns', addrs', k');
    next := ai.next;
    k' := k' + 1;
  }

  /** `ga_port`: the list becomes what `PortAll` says, whatever is new in it is freshly allocated, and
      the count is that of the ports filled in. */
  method GaPort(aihead: AddrInfo?, port: int, socktype: int, ghost ns: seq<AddrInfo>, ghost addrs: seq<SockAddr>,
                ghost region: set<object>)
    returns (nfound: nat, ghost ns': seq<AddrInfo>, ghost addrs': seq<SockAddr>, ghost region': set<object>)
    requires IsList(aihead, ns, addrs) && Owned(ns, addrs, region)
    modifies region
    ensures IsList(aihead, ns', addrs')
    ensures Values(ns', addrs') == PortAll(old(Values(ns, addrs)), socktype, port)
    ensures nfound == Found(old(Values(ns, addrs)), socktype)
    ensures region <= region' && fresh(region' - region) && Owned(ns', addrs', region')
  {
    hide IsList, Values, Walked, PortAll, Found, Count, Owned, At;
    ghost var es := Values(ns, addrs);
    ghost var k: nat, j: nat := 0, 0;
    WalkStarts(es, socktype, port);
    HeadOf(aihead, ns, addrs);
    ns', addrs', region' := ns, addrs, region;
    nfound := 0;
    var ai := aihead;
    while ai != null
      invariant IsList(aihead, ns', addrs') && Walked(Values(ns', addrs'), k, es, j, socktype, port)
      invariant ai == At(ns', k) && j <= |es| && nfound == Found(es[..j], socktype)
      invariant region <= region' && fresh(region' - region) && Owned(ns', addrs', region')
      decreases |es| - j
    {
      WalkEnds(Values(ns', addrs'), k, es, j, socktype, port);
      Here(aihead, ns', addrs', region', k);
      PortAllStep(es, j, socktype, port);
      var found;
      found, ai, ns', addrs', k, region' := WalkStep(ai, port, socktype, aihead, ns', addrs', k, es, j, region');
      nfound := nfound + found;
      j := j + 1;
    }
    WalkEnds(Values(ns', addrs'), k, es, j, socktype, port);
    Ended(ns', k);
  }
}
