/** What a sequence of `ga_port` calls does to a list, and `ga_serv`, which makes them
    (libgai/ga_port.c, libgai/ga_serv.c). */
module GaServ {
  import opened Common
  import opened GaList

  const SOCK_STREAM: int := 1
  const SOCK_DGRAM: int := 2

  /** One call of `ga_port`: a socket type and the port of the service for it. */
  datatype Call = Call(socktype: int, port: int)

  /** The calls one after the other. */
  function Ports(es: seq<Entry>, plan: seq<Call>): seq<Entry> {
    if plan == [] then es
    else
      var c := plan[|plan| - 1];
      PortAll(Ports(es, plan[..|plan| - 1]), c.socktype, c.port)
  }

  /** Entries as `ga_aistruct` makes them when the caller names no socket type. */
  predicate Unused(es: seq<Entry>) {
    forall i :: 0 <= i < |es| ==> es[i].clone && es[i].socktype == 0
  }

  /** Different socket types, none of them 0, as Posix requires. */
  predicate Proper(plan: seq<Call>) {
    && (forall i :: 0 <= i < |plan| ==> plan[i].socktype != 0)
    && (forall i, j :: 0 <= i < j < |plan| ==> plan[i].socktype != plan[j].socktype)
  }

  /** The clones of an entry, the latest first: each goes right after the entry it is made from. */
  function Clones(e: Entry, plan: seq<Call>): (r: seq<Entry>)
    ensures |r| == |plan|
  {
    if plan == [] then []
    else
      var c := plan[|plan| - 1];
      [Filled(Cloned(e), c.socktype, c.port)] + Clones(e, plan[..|plan| - 1])
  }

  /** All there is for one address: the first call uses the entry itself, the others clone it. */
  function Group(e: Entry, plan: seq<Call>): (r: seq<Entry>)
    ensures |r| == if plan == [] then 1 else |plan|
  {
    if plan == [] then [e]
    else
      var f := Filled(e, plan[0].socktype, plan[0].port);
      [f] + Clones(f, plan[1..])
  }

  /** The groups in the order of the addresses. */
  function Expand(es: seq<Entry>, plan: seq<Call>): seq<Entry> {
    if es == [] then [] else Expand(es[..|es| - 1], plan) + Group(es[|es| - 1], plan)
  }

  lemma {:induction false} PortAllConcat(a: seq<Entry>, b: seq<Entry>, socktype: int, port: int)
    ensures PortAll(a + b, socktype, port) == PortAll(a, socktype, port) + PortAll(b, socktype, port)
    ensures Found(a + b, socktype) == Found(a, socktype) + Found(b, socktype)
    decreases |b|
  {
    if b == [] {
      assert a + b == a;
    } else {
      var b' := b[..|b| - 1];
      assert (a + b)[..|a + b| - 1] == a + b';
      PortAllConcat(a, b', socktype, port);
      assert PortAll(a + b, socktype, port) == PortAll(a + b', socktype, port) + PortOne(b[|b| - 1], socktype, port);
    }
  }

  /** Entries of other types that are not to be cloned are passed over. */
  lemma {:induction false} PortAllPasses(es: seq<Entry>, socktype: int, port: int)
    requires forall i :: 0 <= i < |es| ==> !Matches(es[i], socktype)
    ensures PortAll(es, socktype, port) == es && Found(es, socktype) == 0
  {
    hide PortOne, Count, Matches;
    if es != [] {
      var n := |es| - 1;
      PassedOver(es[n], socktype, port);
      PortAllPasses(es[..n], socktype, port);
    }
  }

  lemma {:induction false} PassedOver(e: Entry, socktype: int, port: int)
    requires !Matches(e, socktype)
    ensures PortOne(e, socktype, port) == [e] && Count(e, socktype) == 0
  {
  }

  lemma {:induction false} ClonesPass(e: Entry, plan: seq<Call>, socktype: int)
    requires forall i :: 0 <= i < |plan| ==> plan[i].socktype != socktype
    ensures forall i :: 0 <= i < |plan| ==> !Matches(Clones(e, plan)[i], socktype)
  {
    if plan != [] {
      ClonesPass(e, plan[..|plan| - 1], socktype);
    }
  }

  lemma {:induction false} PortSingle(e: Entry, socktype: int, port: int)
    ensures PortAll([e], socktype, port) == PortOne(e, socktype, port) && Found([e], socktype) == Count(e, socktype)
  {
  }

  lemma {:induction false} UsedGroupStep(f: Entry, rest: seq<Call>, c: Call)
    requires f.clone && f.socktype != 0 && forall i :: 0 <= i < |rest| ==> rest[i].socktype != c.socktype
    ensures PortAll([f] + Clones(f, rest), c.socktype, c.port) == [f] + Clones(f, rest + [c])
    ensures Found([f] + Clones(f, rest), c.socktype) == if HasPort(f.family) then 1 else 0
  {
    hide PortAll, Found, PortOne, Filled, Cloned, Clones, Count;
    ClonesPass(f, rest, c.socktype);
    PortAllPasses(Clones(f, rest), c.socktype, c.port);
    PortSingle(f, c.socktype, c.port);
    PortOfUsed(f, c.socktype, c.port);
    PortAllConcat([f], Clones(f, rest), c.socktype, c.port);
    ClonesMore(f, rest, c);
    var x := Filled(Cloned(f), c.socktype, c.port);
    assert [f, x] + Clones(f, rest) == [f] + ([x] + Clones(f, rest));
  }

  lemma {:induction false} PortOfUsed(f: Entry, socktype: int, port: int)
    requires f.clone && f.socktype != 0
    ensures PortOne(f, socktype, port) == [f, Filled(Cloned(f), socktype, port)]
    ensures Count(f, socktype) == if HasPort(f.family) then 1 else 0
  {
  }

  lemma {:induction false} ClonesMore(f: Entry, rest: seq<Call>, c: Call)
    ensures Clones(f, rest + [c]) == [Filled(Cloned(f), c.socktype, c.port)] + Clones(f, rest)
  {
  }

  /** One more type for one address. */
  lemma {:induction false} GroupStep(e: Entry, plan: seq<Call>, c: Call)
    requires e.clone && e.socktype == 0 && Proper(plan + [c])
    ensures PortAll(Group(e, plan), c.socktype, c.port) == Group(e, plan + [c])
    ensures Found(Group(e, plan), c.socktype) == if HasPort(e.family) then 1 else 0
  {
    var all := plan + [c];
    assert all[|plan|] == c;
    if plan == [] {
      PortSingle(e, c.socktype, c.port);
      assert all[1..] == [];
    } else {
      var f, rest := Filled(e, plan[0].socktype, plan[0].port), plan[1..];
      assert all[0] == plan[0] && all[1..] == rest + [c];
      assert forall i :: 0 <= i < |rest| ==> rest[i] == all[i + 1];
      UsedGroupStep(f, rest, c);
    }
  }

  /** How many entries have a port. */
  function WithPort(es: seq<Entry>): nat {
    if es == [] then 0 else WithPort(es[..|es| - 1]) + (if HasPort(es[|es| - 1].family) then 1 else 0)
  }

  lemma {:induction false} ExpandStep(es: seq<Entry>, plan: seq<Call>, c: Call)
    requires Unused(es) && Proper(plan + [c])
    ensures PortAll(Expand(es, plan), c.socktype, c.port) == Expand(es, plan + [c])
    ensures Found(Expand(es, plan), c.socktype) == WithPort(es)
  {
    if es != [] {
      var front, e := es[..|es| - 1], es[|es| - 1];
      ExpandStep(front, plan, c);
      GroupStep(e, plan, c);
      PortAllConcat(Expand(front, plan), Group(e, plan), c.socktype, c.port);
    }
  }

  lemma {:induction false} ExpandNone(es: seq<Entry>)
    ensures Expand(es, []) == es
  {
    if es != [] {
      ExpandNone(es[..|es| - 1]);
    }
  }

  lemma {:induction false} ProperPrefix(plan: seq<Call>, n: nat)
    requires Proper(plan) && n <= |plan|
    ensures Proper(plan[..n])
  {
  }

  /** Any sequence of calls with different socket types leaves the list expanded, and each call finds
      every entry that has a port. */
  lemma {:induction false} PortsExpand(es: seq<Entry>, plan: seq<Call>)
    requires Unused(es) && Proper(plan)
    ensures Ports(es, plan) == Expand(es, plan)
    ensures forall i :: 0 <= i < |plan| ==> Found(Ports(es, plan[..i]), plan[i].socktype) == WithPort(es)
    decreases |plan|
  {
    hide Expand, PortAll, Found, WithPort, Proper;
    if plan == [] {
      ExpandNone(es);
    } else {
      var n := |plan| - 1;
      var before, c := plan[..n], plan[n];
      ProperPrefix(plan, n);
      PortsExpand(es, before);
      assert before + [c] == plan;
      ExpandStep(es, before, c);
      forall i | 0 <= i < |plan|
        ensures Found(Ports(es, plan[..i]), plan[i].socktype) == WithPort(es)
      {
        if i < n {
          assert before[..i] == plan[..i] && before[i] == plan[i];
        }
      }
    }
  }

  // ----- One entry per address and type -----

  /** Where the entry for call `q` stands in a group of `m`. */
  function Slot(q: nat, m: nat): nat
    requires q < m
  {
    if q == 0 then 0 else m - q
  }

  lemma {:induction false} CloneAt(e: Entry, plan: seq<Call>, q: nat)
    requires q < |plan|
    ensures Clones(e, plan)[|plan| - 1 - q] == Filled(Cloned(e), plan[q].socktype, plan[q].port)
    decreases |plan|
  {
    if q < |plan| - 1 {
      CloneAt(e, plan[..|plan| - 1], q);
    }
  }

  lemma {:induction false} GroupAt(e: Entry, plan: seq<Call>, q: nat)
    requires q < |plan|
    ensures Group(e, plan)[Slot(q, |plan|)] ==
      Filled(if q == 0 then e else Cloned(e), plan[q].socktype, plan[q].port)
  {
    if q > 0 {
      CloneAt(Filled(e, plan[0].socktype, plan[0].port), plan[1..], q - 1);
    }
  }

  /** Where the group of address `i` starts. */
  function Offset(i: nat, m: nat): nat {
    if i == 0 then 0 else Offset(i - 1, m) + m
  }

  lemma {:induction false} OffsetIsProduct(i: nat, m: nat)
    ensures Offset(i, m) == i * m
  {
    if i > 0 {
      OffsetIsProduct(i - 1, m);
      OneMore(i - 1, m);
    }
  }

  lemma {:induction false} OneMore(n: nat, m: nat)
    ensures (n + 1) * m == n * m + m
  {
  }

  lemma {:induction false} ExpandLength(es: seq<Entry>, plan: seq<Call>)
    requires plan != []
    ensures |Expand(es, plan)| == Offset(|es|, |plan|)
  {
    if es != [] {
      ExpandLength(es[..|es| - 1], plan);
    }
  }

  lemma {:induction false} ExpandAt(es: seq<Entry>, plan: seq<Call>, i: nat, s: nat)
    requires i < |es| && s < |plan|
    ensures Offset(i, |plan|) + s < |Expand(es, plan)|
    ensures Expand(es, plan)[Offset(i, |plan|) + s] == Group(es[i], plan)[s]
  {
    hide Expand, Group, Offset;
    var front := es[..|es| - 1];
    ExpandMore(es, plan);
    if i < |front| {
      ExpandAt(front, plan, i, s);
    } else {
      ExpandLength(front, plan);
    }
  }

  lemma {:induction false} ExpandMore(es: seq<Entry>, plan: seq<Call>)
    requires es != []
    ensures Expand(es, plan) == Expand(es[..|es| - 1], plan) + Group(es[|es| - 1], plan)
  {
  }

  /** Where the entry of address `i` and call `q` is, and what it holds. */
  predicate HasEntry(r: seq<Entry>, es: seq<Entry>, plan: seq<Call>, i: nat, q: nat)
    requires i < |es| && q < |plan|
  {
    var at := i * |plan| + Slot(q, |plan|);
    && at < |r|
    && r[at].host == es[i].host && r[at].family == es[i].family
    && r[at].protocol == es[i].protocol && r[at].addrlen == es[i].addrlen
    && r[at].socktype == plan[q].socktype
    && r[at].port == (if es[i].family == Inet || es[i].family == Inet6 then plan[q].port else es[i].port)
    && r[at].clone == (q == 0 && es[i].clone)
  }

  /** One entry for every address and every call, and no other. */
  ghost predicate OnePerPair(r: seq<Entry>, es: seq<Entry>, plan: seq<Call>) {
    && |r| == |es| * |plan|
    && forall i, q :: 0 <= i < |es| && 0 <= q < |plan| ==> HasEntry(r, es, plan, i, q)
  }

  /** The result: `|es| * |plan|` entries, grouped by address in the original order; for every address and
      every type there is an entry with that address, that type and the port asked for with it. */
  lemma {:induction false} OneEntryPerAddressAndType(es: seq<Entry>, plan: seq<Call>, i: nat, q: nat)
    requires Unused(es) && Proper(plan) && i < |es| && q < |plan|
    ensures |Ports(es, plan)| == |es| * |plan| && HasEntry(Ports(es, plan), es, plan, i, q)
  {
    hide Expand, Group, Ports, Offset, Found, WithPort;
    PortsExpand(es, plan);
    ExpandLength(es, plan);
    ExpandAt(es, plan, i, Slot(q, |plan|));
    GroupAt(es[i], plan, q);
    OffsetIsProduct(|es|, |plan|);
    OffsetIsProduct(i, |plan|);
  }

  lemma {:induction false} PortsOnePerPair(es: seq<Entry>, plan: seq<Call>)
    requires Unused(es) && Proper(plan) && plan != []
    ensures OnePerPair(Ports(es, plan), es, plan)
  {
    hide Ports, HasEntry;
    if es == [] {
      PortsExpand(es, plan);
    }
    forall i, q | 0 <= i < |es| && 0 <= q < |plan|
      ensures |Ports(es, plan)| == |es| * |plan| && HasEntry(Ports(es, plan), es, plan, i, q)
    {
      OneEntryPerAddressAndType(es, plan, i, q);
    }
    if es != [] {
      OneEntryPerAddressAndType(es, plan, 0, 0);
    }
  }

  /** Every position is that of one address and one call, so no pair has two entries. */
  lemma {:induction false} SlotsCover(n: nat, m: nat, at: nat) returns (i: nat, q: nat)
    requires m > 0 && at < n * m
    ensures i < n && q < m && at == i * m + Slot(q, m)
  {
    i := at / m;
    var r := at % m;
    q := if r == 0 then 0 else m - r;
    assert at == i * m + r;
    if i >= n {
      AtLeast(n, i, m);
      assert false;
    }
  }

  lemma {:induction false} AtLeast(n: nat, i: nat, m: nat)
    requires n <= i
    ensures n * m <= i * m
  {
  }

  // ----- Any sequence of calls, on the list itself -----

  /** Any calls with different non-zero socket types, one after the other, on a list made without a socket type:
      each finds every entry that has a port, and they leave a list, without cycles or shared address objects,
      with exactly one entry per address and type, in the order of the addresses. */
  method RunPlan(aihead: AddrInfo?, plan: seq<Call>, ghost ns: seq<AddrInfo>, ghost addrs: seq<SockAddr>,
                 ghost region: set<object>)
    returns (counts: seq<nat>, ghost ns': seq<AddrInfo>, ghost addrs': seq<SockAddr>, ghost region': set<object>)
    requires IsList(aihead, ns, addrs) && Owned(ns, addrs, region)
    requires Unused(Values(ns, addrs)) && Proper(plan)
    modifies region
    ensures IsList(aihead, ns', addrs') && region <= region' && fresh(region' - region) && Owned(ns', addrs', region')
    ensures Values(ns', addrs') == Expand(old(Values(ns, addrs)), plan)
    ensures plan != [] ==> OnePerPair(Values(ns', addrs'), old(Values(ns, addrs)), plan)
    ensures |counts| == |plan| && forall i :: 0 <= i < |plan| ==> counts[i] == WithPort(old(Values(ns, addrs)))
  {
    hide IsList, Values, Owned, Ports, Expand, Found, WithPort, PortAll, Unused, Proper, OnePerPair;
    ghost var es := Values(ns, addrs);
    PortsExpand(es, plan);
    NoCalls(es);
    counts, ns', addrs', region' := [], ns, addrs, region;
    var k := 0;
    while k < |plan|
      invariant 0 <= k == |counts| <= |plan| && IsList(aihead, ns', addrs') && Owned(ns', addrs', region')
      invariant region <= region' && fresh(region' - region)
      invariant Values(ns', addrs') == Ports(es, plan[..k])
      invariant forall i :: 0 <= i < k ==> counts[i] == WithPort(es)
    {
      PortsMore(es, plan[..k], plan[k]);
      assert plan[..k] + [plan[k]] == plan[..k + 1];
      var rc;
      rc, ns', addrs', region' := GaPort(aihead, plan[k].port, plan[k].socktype, ns', addrs', region');
      counts := counts + [rc];
      k := k + 1;
    }
    assert plan[..k] == plan;
    if plan != [] {
      PortsOnePerPair(es, plan);
    }
  }

  /** An address as the host search returns it. */
  datatype Host = Host(address: seq<byte>, family: Family)

  /** The entries made for them. */
  function MadeAll(hosts: seq<Host>, hint: int, protocol: int): (es: seq<Entry>)
    ensures |es| == |hosts|
    ensures forall i :: 0 <= i < |hosts| ==> es[i] == Made(hint, protocol, hosts[i].address, hosts[i].family)
    ensures forall i :: 0 <= i < |hosts| ==> es[i].host == hosts[i].address && es[i].family == hosts[i].family
    ensures forall i :: 0 <= i < |hosts| ==> es[i].protocol == protocol && es[i].socktype == hint
    ensures forall i :: 0 <= i < |hosts| ==> es[i].clone == (hint == 0) && es[i].port == 0
  {
    seq(|hosts|, i requires 0 <= i < |hosts| => Made(hint, protocol, hosts[i].address, hosts[i].family))
  }

  lemma {:induction false} MadeMore(hosts: seq<Host>, k: nat, hint: int, protocol: int)
    requires k < |hosts|
    ensures MadeAll(hosts[..k + 1], hint, protocol) ==
      MadeAll(hosts[..k], hint, protocol) + [Made(hint, protocol, hosts[k].address, hosts[k].family)]
  {
  }

  /** Without a socket type, every entry is to be used first and cloned afterwards. */
  lemma {:induction false} MadeUnused(hosts: seq<Host>, protocol: int)
    ensures Unused(MadeAll(hosts, 0, protocol))
  {
  }

  /** The loop of `getaddrinfo` that makes one entry per address. */
  method BuildList(hosts: seq<Host>, hint: int, protocol: int)
    returns (aihead: AddrInfo?, ghost ns: seq<AddrInfo>, ghost addrs: seq<SockAddr>, ghost region: set<object>)
    requires forall i :: 0 <= i < |hosts| ==> hosts[i].family == Inet || hosts[i].family == Inet6
    ensures IsList(aihead, ns, addrs) && Owned(ns, addrs, region) && fresh(region)
    ensures Values(ns, addrs) == MadeAll(hosts, hint, protocol)
  {
    hide IsList, Values, MadeAll, Owned, Made, Chained;
    aihead, ns, addrs, region := null, [], [], {};
    var last: AddrInfo? := null;
    var k := 0;
    assert hosts[..0] == [];
    EmptyList(hint, protocol);
    while k < |hosts|
      invariant 0 <= k <= |hosts| && IsList(aihead, ns, addrs) && Owned(ns, addrs, region) && fresh(region)
      invariant last == (if ns == [] then null else ns[|ns| - 1]) && (last != null ==> last in region)
      invariant Values(ns, addrs) == MadeAll(hosts[..k], hint, protocol)
    {
      MadeMore(hosts, k, hint, protocol);
      var ok, ai;
      ghost var before := addrs;
      ok, aihead, ai, addrs := AiStruct(aihead, last, hint, protocol, hosts[k].address, hosts[k].family, ns, addrs);
      OwnedAppend(ns, before, region, ai, ai.addr);
      ns, region, last := ns + [ai], region + {ai, ai.addr}, ai;
      k := k + 1;
    }
    assert hosts[..k] == hosts;
  }

  lemma {:induction false} EmptyList(hint: int, protocol: int)
    ensures IsList(null, [], []) && Owned([], [], {}) && Values([], []) == [] == MadeAll([], hint, protocol)
  {
  }

  lemma {:induction false} OwnedAppend(ns: seq<AddrInfo>, addrs: seq<SockAddr>, region: set<object>, n: AddrInfo,
                                       a: SockAddr)
    requires Owned(ns, addrs, region)
    ensures Owned(ns + [n], addrs + [a], region + {n, a})
  {
  }

  lemma {:induction false} AllWithPort(es: seq<Entry>)
    requires forall i :: 0 <= i < |es| ==> es[i].family == Inet || es[i].family == Inet6
    ensures WithPort(es) == |es|
  {
    if es != [] {
      AllWithPort(es[..|es| - 1]);
    }
  }

  /** The two together, from the addresses found to the finished list: each call fills in as many ports as there
      are addresses. */
  method AddressesAndTypes(hosts: seq<Host>, protocol: int, plan: seq<Call>)
    returns (counts: seq<nat>, aihead: AddrInfo?, ghost ns: seq<AddrInfo>, ghost addrs: seq<SockAddr>)
    requires Proper(plan) && plan != []
    requires forall i :: 0 <= i < |hosts| ==> hosts[i].family == Inet || hosts[i].family == Inet6
    ensures IsList(aihead, ns, addrs) && OnePerPair(Values(ns, addrs), MadeAll(hosts, 0, protocol), plan)
    ensures |counts| == |plan| && forall i :: 0 <= i < |plan| ==> counts[i] == |hosts|
  {
    hide IsList, Values, Owned, MadeAll, Unused, Proper, OnePerPair, Expand, WithPort;
    MadeUnused(hosts, protocol);
    AllWithPort(MadeAll(hosts, 0, protocol));
    ghost var region;
    aihead, ns, addrs, region := BuildList(hosts, 0, protocol);
    counts, ns, addrs, region := RunPlan(aihead, plan, ns, addrs, region);
  }

  // ----- ga_serv -----

  /** What the service string says: a port number, or a name that the services database may know for
      TCP, for UDP, for both or for neither. */
  datatype Service = Number(port: int) | Name(tcp: Option<int>, udp: Option<int>)

  datatype Result = Ok | EaiNoname | EaiService

  /** The calls `ga_serv` makes; `hint` is the caller's socket type, 0 for none. */
  function Plan(hint: int, serv: Service): seq<Call> {
    match serv
    case Number(port) =>
      if hint != 0 then [Call(hint, port)] else [Call(SOCK_STREAM, port), Call(SOCK_DGRAM, port)]
    case Name(tcp, udp) =>
      (if (hint == 0 || hint == SOCK_STREAM) && tcp.Some? then [Call(SOCK_STREAM, tcp.value)] else []) +
      (if (hint == 0 || hint == SOCK_DGRAM) && udp.Some? then [Call(SOCK_DGRAM, udp.value)] else [])
  }

  /** The sum of what the calls find. */
  function Total(es: seq<Entry>, plan: seq<Call>): nat {
    if plan == [] then 0
    else
      var before := plan[..|plan| - 1];
      Total(es, before) + Found(Ports(es, before), plan[|plan| - 1].socktype)
  }

  /** Is a socket type one the caller can use? */
  predicate Wanted(socktype: int, hint: int) {
    if hint == 0 then socktype == 1 || socktype == 2 else socktype == hint
  }

  /** Is `port` the service's port for the socket type? A number serves any type, a name TCP and UDP. */
  predicate Known(serv: Service, socktype: int, port: int) {
    match serv
    case Number(p) => port == p
    case Name(tcp, udp) => (socktype == 1 && tcp == Some(port)) || (socktype == 2 && udp == Some(port))
  }

  /** A call is made for a type and a port exactly when the type is wanted and the port known for it, and the one
      for TCP comes first. */
  lemma {:induction false} PlanMeans(hint: int, serv: Service, c: Call)
    ensures c in Plan(hint, serv) <==> Wanted(c.socktype, hint) && Known(serv, c.socktype, c.port)
    ensures |Plan(hint, serv)| <= 2
    ensures |Plan(hint, serv)| == 2 ==> Plan(hint, serv)[0].socktype == 1 && Plan(hint, serv)[1].socktype == 2
  {
  }

  lemma {:induction false} PlanIsProper(hint: int, serv: Service)
    ensures Proper(Plan(hint, serv))
  {
  }

  lemma {:induction false} PortsMore(es: seq<Entry>, plan: seq<Call>, c: Call)
    ensures Ports(es, plan + [c]) == PortAll(Ports(es, plan), c.socktype, c.port)
    ensures Total(es, plan + [c]) == Total(es, plan) + Found(Ports(es, plan), c.socktype)
  {
  }

  /** A call of `ga_port`, counted. */
  method OneCall(aihead: AddrInfo?, c: Call, nfound: nat, ghost ns: seq<AddrInfo>, ghost addrs: seq<SockAddr>,
                 ghost region: set<object>, ghost es: seq<Entry>, ghost done: seq<Call>)
    returns (nfound': nat, ghost ns': seq<AddrInfo>, ghost addrs': seq<SockAddr>, ghost region': set<object>,
             ghost done': seq<Call>)
    requires IsList(aihead, ns, addrs) && Owned(ns, addrs, region)
    requires Values(ns, addrs) == Ports(es, done) && nfound == Total(es, done)
    modifies region
    ensures IsList(aihead, ns', addrs') && region <= region' && fresh(region' - region) && Owned(ns', addrs', region')
    ensures done' == done + [c] && Values(ns', addrs') == Ports(es, done') && nfound' == Total(es, done')
  {
    PortsMore(es, done, c);
    var rc;
    rc, ns', addrs', region' := GaPort(aihead, c.port, c.socktype, ns, addrs, region);
    nfound', done' := nfound + rc, done + [c];
  }

  /** The same when the socket type is wanted and the service known for it. */
  method CallIf(wanted: bool, c: Call, aihead: AddrInfo?, nfound: nat, ghost ns: seq<AddrInfo>,
                ghost addrs: seq<SockAddr>, ghost region: set<object>, ghost es: seq<Entry>, ghost done: seq<Call>)
    returns (nfound': nat, ghost ns': seq<AddrInfo>, ghost addrs': seq<SockAddr>, ghost region': set<object>,
             ghost done': seq<Call>)
    requires IsList(aihead, ns, addrs) && Owned(ns, addrs, region)
    requires Values(ns, addrs) == Ports(es, done) && nfound == Total(es, done)
    modifies region
    ensures IsList(aihead, ns', addrs') && region <= region' && fresh(region' - region) && Owned(ns', addrs', region')
    ensures done' == done + (if wanted then [c] else [])
    ensures Values(ns', addrs') == Ports(es, done') && nfound' == Total(es, done')
  {
    if wanted {
      nfound', ns', addrs', region', done' := OneCall(aihead, c, nfound, ns, addrs, region, es, done);
    } else {
      nfound', ns', addrs', region', done' := nfound, ns, addrs, region, done;
    }
  }

  lemma {:induction false} NoCalls(es: seq<Entry>)
    ensures Ports(es, []) == es && Total(es, []) == 0
  {
  }

  /** Lines 16-31: a port number. */
  method ServNumber(aihead: AddrInfo?, hint: int, port: int, ghost ns: seq<AddrInfo>, ghost addrs: seq<SockAddr>,
                ghost region: set<object>)
    returns (nfound: nat, ghost ns': seq<AddrInfo>, ghost addrs': seq<SockAddr>, ghost region': set<object>)
    requires IsList(aihead, ns, addrs) && Owned(ns, addrs, region)
    modifies region
    ensures IsList(aihead, ns', addrs') && region <= region' && fresh(region' - region) && Owned(ns', addrs', region')
    ensures Values(ns', addrs') == Ports(old(Values(ns, addrs)), Plan(hint, Number(port)))
    ensures nfound == Total(old(Values(ns, addrs)), Plan(hint, Number(port)))
  {
    hide IsList, Values, Owned, Ports, Total;
    ghost var es, done := Values(ns, addrs), [];
    NoCalls(es);
    nfound, ns', addrs', region' := 0, ns, addrs, region;
    if hint != 0 {
      nfound, ns', addrs', region', done := OneCall(aihead, Call(hint, port), nfound, ns', addrs', region', es, done);
    } else {
      nfound, ns', addrs', region', done :=
        OneCall(aihead, Call(SOCK_STREAM, port), nfound, ns', addrs', region', es, done);
      nfound, ns', addrs', region', done :=
        OneCall(aihead, Call(SOCK_DGRAM, port), nfound, ns', addrs', region', es, done);
    }
    assert done == Plan(hint, Number(port));
  }

  /** Lines 32-48: a service name, TCP then UDP. */
  method ServName(aihead: AddrInfo?, hint: int, tcp: Option<int>, udp: Option<int>, ghost ns: seq<AddrInfo>,
                  ghost addrs: seq<SockAddr>, ghost region: set<object>)
    returns (nfound: nat, ghost ns': seq<AddrInfo>, ghost addrs': seq<SockAddr>, ghost region': set<object>)
    requires IsList(aihead, ns, addrs) && Owned(ns, addrs, region)
    modifies region
    ensures IsList(aihead, ns', addrs') && region <= region' && fresh(region' - region) && Owned(ns', addrs', region')
    ensures Values(ns', addrs') == Ports(old(Values(ns, addrs)), Plan(hint, Name(tcp, udp)))
    ensures nfound == Total(old(Values(ns, addrs)), Plan(hint, Name(tcp, udp)))
  {
    hide IsList, Values, Owned, Ports, Total;
    ghost var es, done := Values(ns, addrs), [];
    NoCalls(es);
    nfound, ns', addrs', region' := 0, ns, addrs, region;
    nfound, ns', addrs', region', done := CallIf((hint == 0 || hint == SOCK_STREAM) && tcp.Some?,
      Call(SOCK_STREAM, if tcp.Some? then tcp.value else 0), aihead, nfound, ns', addrs', region', es, done);
    nfound, ns', addrs', region', done := CallIf((hint == 0 || hint == SOCK_DGRAM) && udp.Some?,
      Call(SOCK_DGRAM, if udp.Some? then udp.value else 0), aihead, nfound, ns', addrs', region', es, done);
    assert done == Plan(hint, Name(tcp, udp));
  }

  /** Entries as `ga_aistruct` makes them when the caller names a socket type. */
  predicate Typed(es: seq<Entry>, hint: int) {
    forall i :: 0 <= i < |es| ==> !es[i].clone && es[i].socktype == hint
  }

  lemma {:induction false} ServOutcome(es: seq<Entry>, hint: int, serv: Service)
    ensures hint == 0 && Unused(es) && Plan(0, serv) != [] ==> OnePerPair(Ports(es, Plan(0, serv)), es, Plan(0, serv))
    ensures hint == 0 && Unused(es) ==>
      (Total(es, Plan(0, serv)) > 0 <==> WithPort(es) > 0 && (serv.Number? || serv.tcp.Some? || serv.udp.Some?))
    ensures hint != 0 && Typed(es, hint) ==>
      (Total(es, Plan(hint, serv)) > 0 <==> WithPort(es) > 0 && exists p :: Known(serv, hint, p))
  {
    hide Ports, Total, WithPort, OnePerPair, Unused;
    if hint == 0 && Unused(es) {
      ServSucceeds(es, serv);
      PlanIsProper(0, serv);
      if Plan(0, serv) != [] {
        PortsOnePerPair(es, Plan(0, serv));
      }
    }
    if hint != 0 && Typed(es, hint) {
      PlanForHint(es, hint, serv);
      HintKnown(hint, serv);
    }
  }

  lemma {:induction false} HintKnown(hint: int, serv: Service)
    requires hint != 0
    ensures Plan(hint, serv) != [] <==> exists p :: Known(serv, hint, p)
  {
    match serv
    case Number(p) => assert Known(serv, hint, p);
    case Name(tcp, udp) =>
      if hint == 1 && tcp.Some? {
        assert Known(serv, hint, tcp.value);
      } else if hint == 2 && udp.Some? {
        assert Known(serv, hint, udp.value);
      }
  }

  /** `ga_serv`, allocation succeeding: the list becomes what the calls make of it, and the result says
      whether they found anything. */
  method GaServ(aihead: AddrInfo?, hint: int, serv: Service, ghost ns: seq<AddrInfo>, ghost addrs: seq<SockAddr>,
                ghost region: set<object>)
    returns (rc: Result, ghost ns': seq<AddrInfo>, ghost addrs': seq<SockAddr>, ghost region': set<object>)
    requires IsList(aihead, ns, addrs) && Owned(ns, addrs, region)
    modifies region
    ensures IsList(aihead, ns', addrs') && region <= region' && fresh(region' - region) && Owned(ns', addrs', region')
    ensures Values(ns', addrs') == Ports(old(Values(ns, addrs)), Plan(hint, serv))
    ensures rc == if Total(old(Values(ns, addrs)), Plan(hint, serv)) > 0 then Ok
                  else if hint == 0 then EaiNoname else EaiService
    ensures hint == 0 && Unused(old(Values(ns, addrs))) && Plan(0, serv) != [] ==>
      OnePerPair(Values(ns', addrs'), old(Values(ns, addrs)), Plan(0, serv))
    ensures hint == 0 && Unused(old(Values(ns, addrs))) ==>
      (rc == Ok <==> WithPort(old(Values(ns, addrs))) > 0 && (serv.Number? || serv.tcp.Some? || serv.udp.Some?))
    ensures hint != 0 && Typed(old(Values(ns, addrs)), hint) ==>
      (rc == Ok <==> WithPort(old(Values(ns, addrs))) > 0 && exists p :: Known(serv, hint, p))
  {
    hide IsList, Values, Owned, Ports, Total, WithPort, OnePerPair, Unused, Typed;
    ghost var es := Values(ns, addrs);
    ServOutcome(es, hint, serv);
    var nfound;
    match serv {
      case Number(port) =>
        nfound, ns', addrs', region' := ServNumber(aihead, hint, port, ns, addrs, region);
      case Name(tcp, udp) =>
        nfound, ns', addrs', region' := ServName(aihead, hint, tcp, udp, ns, addrs, region);
    }
    if nfound == 0 {
      rc := if hint == 0 then EaiNoname else EaiService;
    } else {
      rc := Ok;
    }
  }

  /** Together the calls fill in a port for every entry that has one, once for each socket type. */
  lemma {:induction false} TotalOfPlan(es: seq<Entry>, plan: seq<Call>)
    requires Unused(es) && Proper(plan)
    ensures Total(es, plan) == |plan| * WithPort(es)
    decreases |plan|
  {
    hide Ports, Found, WithPort, Expand, Proper;
    if plan != [] {
      var n := |plan| - 1;
      PortsExpand(es, plan);
      ProperPrefix(plan, n);
      TotalOfPlan(es, plan[..n]);
      OneMore(n, WithPort(es));
    }
  }

  /** With no socket type asked for, the calls of `ga_serv` find something exactly when some entry has a port
      and the service is a number or a name known for TCP or UDP. */
  lemma {:induction false} ServSucceeds(es: seq<Entry>, serv: Service)
    requires Unused(es)
    ensures Total(es, Plan(0, serv)) > 0 <==> WithPort(es) > 0 && (serv.Number? || serv.tcp.Some? || serv.udp.Some?)
  {
    hide Total, WithPort;
    PlanIsProper(0, serv);
    TotalOfPlan(es, Plan(0, serv));
    assert |Plan(0, serv)| <= 2;
  }

  /** With a socket type asked for, every entry has it already and none is cloned: the calls only fill in
      ports, and only the call for that type does anything. */
  lemma {:induction false} PlanForHint(es: seq<Entry>, hint: int, serv: Service)
    requires hint != 0 && forall i :: 0 <= i < |es| ==> !es[i].clone && es[i].socktype == hint
    ensures var plan := Plan(hint, serv);
      && |plan| <= 1
      && (plan == [] ==> Ports(es, plan) == es)
      && (plan != [] ==> plan[0].socktype == hint && |Ports(es, plan)| == |es|)
      && (plan != [] ==> forall i :: 0 <= i < |es| ==> OnlyPortChanged(es[i], Ports(es, plan)[i], plan[0].port))
      && (plan != [] ==> Total(es, plan) == WithPort(es)) && (plan == [] ==> Total(es, plan) == 0)
  {
    hide PortAll, Ports, Total, WithPort;
    var plan := Plan(hint, serv);
    if plan == [] {
      NoCalls(es);
    } else {
      assert plan == [plan[0]];
      SingleCall(es, plan[0]);
      OnlyFound(es, hint);
      OnlyFills(es, hint, plan[0].port);
    }
  }

  /** The entry with its port, if it has one. */
  predicate OnlyPortChanged(e: Entry, f: Entry, port: int) {
    f == e.(port := if e.family == Inet || e.family == Inet6 then port else e.port)
  }

  lemma {:induction false} OnlyFound(es: seq<Entry>, hint: int)
    requires forall i :: 0 <= i < |es| ==> !es[i].clone && es[i].socktype == hint
    ensures Found(es, hint) == WithPort(es)
  {
    if es != [] {
      OnlyFound(es[..|es| - 1], hint);
    }
  }

  /** Entries of another type that are not to be cloned are left alone, and none is counted. */
  lemma {:induction false} OthersLeftAlone(es: seq<Entry>, socktype: int, port: int)
    requires forall i :: 0 <= i < |es| ==> !es[i].clone && es[i].socktype != socktype
    ensures PortAll(es, socktype, port) == es && Found(es, socktype) == 0
  {
    PortAllPasses(es, socktype, port);
  }

  lemma {:induction false} WithPortMeans(es: seq<Entry>)
    ensures WithPort(es) == 0 <==> forall i :: 0 <= i < |es| ==> es[i].family == Local
  {
    if es != [] {
      var n := |es| - 1;
      WithPortMeans(es[..n]);
      assert forall i :: 0 <= i < n ==> es[..n][i] == es[i];
    }
  }

  lemma {:induction false} SingleCall(es: seq<Entry>, c: Call)
    ensures Ports(es, [c]) == PortAll(es, c.socktype, c.port) && Total(es, [c]) == Found(es, c.socktype)
  {
  }

  lemma {:induction false} OnlyFills(es: seq<Entry>, hint: int, port: int)
    requires forall i :: 0 <= i < |es| ==> !es[i].clone && es[i].socktype == hint
    ensures |PortAll(es, hint, port)| == |es|
    ensures forall i :: 0 <= i < |es| ==> PortAll(es, hint, port)[i] == Filled(es[i], hint, port)
  {
    if es != [] {
      OnlyFills(es[..|es| - 1], hint, port);
    }
  }
}
