/** The parent of server/serv05.c, which accepts connections and passes each to an idle preforked
    child over a stream pipe, and the children of server/child05.c. The parent's loop is kept as it is;
    before `select` and between any two of its actions on a pipe and its table, the children may take any
    number of steps. */
module Dispatcher {
  import opened Common

  /** A parent's table entry. */
  datatype Child = Child(status: int, count: int)

  /** A child process and its pipe: descriptors on their way to it, the connection it serves, bytes on
      their way back, and the connections it has finished. */
  datatype Process = Process(inbox: seq<int>, serving: Option<int>, ready: nat, done: seq<int>) {
    predicate Idle() {
      inbox == [] && serving == None && ready == 0
    }

    /** Everything it has ever been given, in order. */
    function Given(): seq<int> {
      done + (if serving.Some? then [serving.value] else []) + inbox
    }
  }

  /** Status 0 means idle with nothing in flight; status 1 means exactly one thing in flight: the
      descriptor, the connection being served, or the byte that says it is done. */
  predicate Agrees(c: Child, p: Process) {
    && (c.status == 0 <==> p.Idle())
    && (c.status == 0 || c.status == 1)
    && |p.inbox| + (if p.serving.Some? then 1 else 0) + p.ready <= 1
    && c.count == |p.Given()|
  }

  function Available(cs: seq<Child>): nat {
    if cs == [] then 0 else Available(cs[..|cs| - 1]) + (if cs[|cs| - 1].status == 0 then 1 else 0)
  }

  lemma {:induction false} AvailableUpdate(cs: seq<Child>, i: nat, c: Child)
    requires i < |cs|
    ensures Available(cs[i := c]) ==
      Available(cs) - (if cs[i].status == 0 then 1 else 0) + (if c.status == 0 then 1 else 0)
  {
    var n := |cs| - 1;
    if i < n {
      AvailableUpdate(cs[..n], i, c);
      assert cs[i := c][..n] == cs[..n][i := c];
    } else {
      assert cs[i := c][..n] == cs[..n];
    }
  }

  lemma {:induction false} NoneAvailable(cs: seq<Child>)
    requires forall i :: 0 <= i < |cs| ==> cs[i].status != 0
    ensures Available(cs) == 0
  {
    if cs != [] {
      NoneAvailable(cs[..|cs| - 1]);
    }
  }

  /** The connections of `accepted` that went to child `i`. */
  function PassedTo(accepted: seq<int>, owners: seq<nat>, i: nat): seq<int>
    requires |accepted| == |owners|
  {
    if accepted == [] then []
    else
      var n := |accepted| - 1;
      PassedTo(accepted[..n], owners[..n], i) + (if owners[n] == i then [accepted[n]] else [])
  }

  lemma {:induction false} PassedToMore(accepted: seq<int>, owners: seq<nat>, fd: int, to: nat, i: nat)
    requires |accepted| == |owners|
    ensures PassedTo(accepted + [fd], owners + [to], i) ==
      PassedTo(accepted, owners, i) + (if to == i then [fd] else [])
  {
  }

  /** Steps of a child (child05.c:40-50): receive a descriptor, or finish with one and say so. */
  predicate Step(p: Process, q: Process) {
    || (p.inbox != [] && p.serving == None && q == p.(inbox := p.inbox[1..], serving := Some(p.inbox[0])))
    || (p.serving.Some? && q == p.(serving := None, ready := p.ready + 1, done := p.done + [p.serving.value]))
  }

  /** A step keeps what the parent's table says, loses no connection and takes back no byte. */
  lemma {:induction false} StepKeeps(c: Child, p: Process, q: Process)
    requires Agrees(c, p) && Step(p, q)
    ensures Agrees(c, q) && q.Given() == p.Given() && q.ready >= p.ready
  {
  }

  /** A child given a descriptor serves it and says so, and can do nothing else meanwhile. */
  lemma {:induction false} ChildServes(p: Process, fd: int)
    requires p.inbox == [fd] && p.serving == None
    ensures var q := p.(inbox := [], serving := Some(fd));
      var r := p.(inbox := [], ready := p.ready + 1, done := p.done + [fd]);
      Step(p, q) && Step(q, r) && (forall x :: Step(p, x) ==> x == q) && (forall x :: Step(q, x) ==> x == r)
  {
  }

  /** In the middle of a change of its table entry: marked busy while the child is idle, its pipe empty. */
  predicate Held(c: Child, p: Process, extra: nat) {
    c.status == 1 && p.Idle() && c.count == |p.Given()| + extra
  }

  /** Of the children `ready`, those below `i` have been read and `nsel` of them are left. */
  ghost predicate Tally(served: set<nat>, left: set<nat>, ready: set<nat>, nsel: int, i: nat) {
    && served + left == ready && nsel == |left|
    && (forall j :: j in served ==> j < i) && (forall j :: j in left ==> i <= j)
  }

  lemma {:induction false} TallyStarts(ready: set<nat>)
    ensures Tally({}, ready, ready, |ready|, 0)
  {
  }

  lemma {:induction false} TallyNext(served: set<nat>, left: set<nat>, ready: set<nat>, nsel: int, i: nat)
    requires Tally(served, left, ready, nsel, i)
    ensures i in ready <==> i in left
    ensures i in ready ==> Tally(served + {i}, left - {i}, ready, nsel - 1, i + 1)
    ensures i !in ready ==> Tally(served, left, ready, nsel, i + 1)
    ensures i in ready && nsel == 1 ==> served + {i} == ready
  {
    if i in ready {
      assert (served + {i}) + (left - {i}) == ready;
      if nsel == 1 {
        assert |left - {i}| == 0 && left - {i} == {};
      }
    }
  }

  lemma {:induction false} TallyEnds(served: set<nat>, left: set<nat>, ready: set<nat>, nsel: int, i: nat)
    requires Tally(served, left, ready, nsel, i) && forall j :: j in ready ==> j < i
    ensures nsel == 0
  {
    assert left == {};
  }

  /** The table with the entries of `done` marked idle. */
  function Freed(table: seq<Child>, done: set<nat>): (t: seq<Child>)
    ensures |t| == |table|
    ensures forall i :: 0 <= i < |table| ==> t[i] == if i in done then table[i].(status := 0) else table[i]
  {
    seq(|table|, i requires 0 <= i < |table| => if i in done then table[i].(status := 0) else table[i])
  }

  lemma {:induction false} FreedNone(table: seq<Child>)
    ensures Freed(table, {}) == table
  {
  }

  lemma {:induction false} FreedMore(table: seq<Child>, done: set<nat>, i: nat)
    requires i < |table|
    ensures Freed(table, done)[i := Freed(table, done)[i].(status := 0)] == Freed(table, done + {i})
  {
  }

  class Server {
    const cptr: array<Child>
    var navail: int
    var processes: seq<Process>
    ghost var accepted: seq<int>
    ghost var owners: seq<nat>

    /** Between any two actions of the parent. `held` is the child whose table entry is half changed, -1 if none;
        `extra` is 1 when its count is already that of a descriptor not yet written. */
    ghost predicate Consistent(held: int, extra: nat): (v: bool)
      reads this, cptr
      ensures v ==> cptr.Length == |processes|
    {
      && cptr.Length == |processes|
      && (forall i :: 0 <= i < cptr.Length ==>
            if i == held then Held(cptr[i], processes[i], extra) else Agrees(cptr[i], processes[i]))
      && navail == Available(cptr[..])
      && |accepted| == |owners|
      && (forall k :: 0 <= k < |owners| ==> owners[k] < cptr.Length)
      && (forall i :: 0 <= i < cptr.Length ==> processes[i].Given() == PassedTo(accepted, owners, i))
    }

    ghost predicate Valid(): (v: bool)
      reads this, cptr
      ensures v ==> cptr.Length == |processes|
    {
      Consistent(-1, 0)
    }

    /** Lines 30-39: the children, all of them idle. */
    constructor (nchildren: nat)
      ensures Valid() && cptr.Length == nchildren && fresh(cptr) && accepted == [] && navail == nchildren
    {
      cptr := new Child[nchildren](_ => Child(0, 0));
      navail := nchildren;
      processes := seq(nchildren, _ => Process([], None, 0, []));
      accepted, owners := [], [];
      new;
      AllAvailable(cptr[..]);
    }

    /** Any number of steps of any children. The parent's table is not theirs to change, and the child whose
        entry is being changed has nothing to do. */
    method Interfere(held: int, ghost extra: nat)
      requires Consistent(held, extra)
      modifies this`processes
      ensures Consistent(held, extra)
      ensures forall i :: 0 <= i < cptr.Length ==> processes[i].ready >= old(processes[i].ready)
      ensures forall i :: 0 <= i < cptr.Length ==> processes[i].Given() == old(processes[i].Given())
      ensures 0 <= held < cptr.Length ==> processes[held] == old(processes[held])
    {
      var steps: nat := *;
      while steps > 0
        invariant Consistent(held, extra)
        invariant forall i :: 0 <= i < cptr.Length ==> processes[i].ready >= old(processes[i].ready)
        invariant forall i :: 0 <= i < cptr.Length ==> processes[i].Given() == old(processes[i].Given())
        invariant 0 <= held < cptr.Length ==> processes[held] == old(processes[held])
      {
        var i: nat, q: Process := *, *;
        if i < cptr.Length && Step(processes[i], q) {
          StepKeeps(cptr[i], processes[i], q);
          processes := processes[i := q];
        }
        steps := steps - 1;
      }
    }

    /** Lines 54-62: find an idle child and mark it busy. With `navail` positive the search cannot fail. */
    method Mark() returns (i: nat)
      requires Valid() && navail > 0
      modifies this`navail, cptr
      ensures i < cptr.Length && old(cptr[i].status) == 0 && Consistent(i, 1) && navail == old(navail) - 1
      ensures cptr[..] == old(cptr[..])[i := Child(1, old(cptr[i].count) + 1)]
      ensures forall j :: 0 <= j < i ==> old(cptr[j].status) != 0
    {
      hide PassedTo, Available;
      i := FindIdle();
      AvailableUpdate(cptr[..], i, cptr[i].(status := 1, count := cptr[i].count + 1));
      ghost var table := cptr[..];
      cptr[i] := cptr[i].(status := 1, count := cptr[i].count + 1);
      navail := navail - 1;
      assert cptr[..] == table[i := cptr[i]];
    }

    /** Line 64: the descriptor goes into the pipe of the marked child. */
    method WriteFd(i: nat, connfd: int)
      requires i < cptr.Length && Consistent(i, 1)
      modifies this`processes, this`accepted, this`owners
      ensures Valid() && accepted == old(accepted) + [connfd] && owners == old(owners) + [i]
      ensures processes == old(processes)[i := old(processes[i]).(inbox := [connfd])]
    {
      hide PassedTo, Available;
      ghost var p := processes[i];
      forall j | 0 <= j < cptr.Length {
        PassedToMore(accepted, owners, connfd, i, j);
      }
      processes := processes[i := processes[i].(inbox := processes[i].inbox + [connfd])];
      accepted, owners := accepted + [connfd], owners + [i];
      assert processes[i].inbox == [connfd] && processes[i].Given() == p.Given() + [connfd];
    }

    /** Lines 54-64, the other children running in between: an idle child is marked busy and sent the
        descriptor. */
    method Dispatch(connfd: int) returns (i: nat)
      requires Valid() && navail > 0
      modifies this, cptr
      ensures Valid() && navail == old(navail) - 1
      ensures i < cptr.Length && old(cptr[i].status == 0 && processes[i].Idle())
      ensures accepted == old(accepted) + [connfd] && owners == old(owners) + [i]
      ensures cptr[..] == old(cptr[..])[i := Child(1, old(cptr[i].count) + 1)]
      ensures processes[i].inbox == [connfd] && processes[i].serving == None && processes[i].ready == 0
      ensures forall j :: 0 <= j < cptr.Length && j != i ==> processes[j].ready >= old(processes[j].ready)
    {
      i := Mark();
      Interfere(i, 1);
      assert processes[i].Idle();
      hide Valid, Consistent;
      WriteFd(i, connfd);
    }

    method FindIdle() returns (i: nat)
      requires Valid() && navail > 0
      ensures i < cptr.Length && cptr[i].status == 0 && forall j :: 0 <= j < i ==> cptr[j].status != 0
    {
      i := 0;
      while i < cptr.Length
        invariant i <= cptr.Length && forall j :: 0 <= j < i ==> cptr[j].status != 0
      {
        if cptr[i].status == 0 {
          return;
        }
        i := i + 1;
      }
      NoneAvailable(cptr[..]);
      assert false;
    }

    /** Line 73: the byte is read; the entry still says busy. */
    method ReadByte(i: nat)
      requires Valid() && i < cptr.Length && processes[i].ready > 0
      modifies this`processes
      ensures Consistent(i, 0)
      ensures forall j :: 0 <= j < cptr.Length && j != i ==> processes[j] == old(processes[j])
    {
      hide PassedTo, Available;
      ghost var p := processes[i];
      processes := processes[i := processes[i].(ready := processes[i].ready - 1)];
      assert processes[i].Given() == p.Given();
    }

    /** Lines 75-76: the entry says idle again. */
    method MarkIdle(i: nat)
      requires i < cptr.Length && Consistent(i, 0)
      modifies this`navail, cptr
      ensures Valid() && navail == old(navail) + 1 && processes[i].Idle()
      ensures cptr[..] == old(cptr[..])[i := old(cptr[i]).(status := 0)]
    {
      hide PassedTo, Available;
      ghost var table := cptr[..];
      AvailableUpdate(cptr[..], i, cptr[i].(status := 0));
      cptr[i] := cptr[i].(status := 0);
      navail := navail + 1;
      assert cptr[..] == table[i := cptr[i]];
    }

    /** Lines 73-76, the other children running in between: the byte that says the child is ready again. */
    method ReadReady(i: nat)
      requires Valid() && i < cptr.Length && processes[i].ready > 0
      modifies this, cptr
      ensures Valid() && navail == old(navail) + 1
      ensures cptr[..] == old(cptr[..])[i := old(cptr[i]).(status := 0)] && processes[i].Idle()
      ensures accepted == old(accepted) && owners == old(owners)
      ensures forall j :: 0 <= j < cptr.Length && j != i ==> processes[j].ready >= old(processes[j].ready)
    {
      hide Valid, Consistent;
      ReadByte(i);
      Interfere(i, 0);
      MarkIdle(i);
    }

    /** What `select` may report: the listening descriptor only when the parent asked about it, and
        children with a byte waiting. */
    ghost predicate Selectable(listen: bool, ready: set<nat>)
      reads this, cptr
    {
      && (listen ==> navail > 0)
      && (forall i :: i in ready ==> i < cptr.Length && i < |processes| && processes[i].ready > 0)
      && (listen || ready != {})
    }

    /** Lines 50-80, one turn of the loop: a new connection goes to an idle child, and every child that
        was reported is read from, although both searches stop as soon as `nsel` is used up. */
    method Pass(listen: bool, connfd: int, ready: set<nat>) returns (served: set<nat>)
      requires Valid() && Selectable(listen, ready)
      modifies this, cptr
      ensures Valid() && served == ready
      ensures accepted == old(accepted) + if listen then [connfd] else []
      ensures navail == old(navail) + |ready| - if listen then 1 else 0
      ensures forall i :: i in ready ==> i < cptr.Length && cptr[i].status == 0
      ensures !listen ==> cptr[..] == Freed(old(cptr[..]), ready)
    {
      var nsel := |ready| + if listen then 1 else 0;
      served := {};
      Interfere(-1, 0);
      if listen {
        var to := Dispatch(connfd);
        nsel := nsel - 1;
        if nsel == 0 {
          assert ready == {};
          return;
        }
      }
      served := ReadAll(ready, nsel);
    }

    /** Lines 72-76: one child, read from if `select` reported it. */
    method Visit(i: nat, reported: bool)
      requires Valid() && i < cptr.Length && (reported ==> processes[i].ready > 0)
      modifies this, cptr
      ensures Valid() && accepted == old(accepted)
      ensures forall j :: 0 <= j < cptr.Length && j != i ==> processes[j].ready >= old(processes[j].ready)
      ensures navail == old(navail) + if reported then 1 else 0
      ensures cptr[..] == if reported then old(cptr[..])[i := old(cptr[i]).(status := 0)] else old(cptr[..])
    {
      hide Consistent;
      Interfere(-1, 0);
      if reported {
        ReadReady(i);
      }
    }

    /** Lines 71-80. */
    method ReadAll(ready: set<nat>, nready: nat) returns (served: set<nat>)
      requires Valid() && Selectable(false, ready) && nready == |ready|
      modifies this, cptr
      ensures Valid() && served == ready && accepted == old(accepted) && navail == old(navail) + |ready|
      ensures cptr[..] == Freed(old(cptr[..]), ready)
    {
      hide Valid, Freed, Tally;
      var nsel, i := nready, 0;
      ghost var left: set<nat>, table := ready, cptr[..];
      FreedNone(table);
      TallyStarts(ready);
      served := {};
      while i < cptr.Length
        invariant Valid() && i <= cptr.Length && accepted == old(accepted)
        invariant Tally(served, left, ready, nsel, i) && nsel > 0
        invariant forall j :: j in left ==> j < cptr.Length && processes[j].ready > 0
        invariant navail == old(navail) + |ready| - nsel && cptr[..] == Freed(table, served)
      {
        TallyNext(served, left, ready, nsel, i);
        Visit(i, i in ready);
        if i in ready {
          FreedMore(table, served, i);
          served, left := served + {i}, left - {i};
          nsel := nsel - 1;
          if nsel == 0 {
            return;
          }
        }
        i := i + 1;
      }
      TallyEnds(served, left, ready, nsel, i);
      assert false;
    }

    /** The loop of `main` for any number of turns, whatever clients, children and `select` do. */
    method Serve(passes: nat)
      requires Valid()
      modifies this, cptr
      ensures Valid() && old(accepted) <= accepted
    {
      var k := 0;
      while k < passes
        invariant Valid() && old(accepted) <= accepted
      {
        Interfere(-1, 0);
        var listen: bool, connfd: int, ready: set<nat> := *, *, *;
        if (listen ==> navail > 0) && (listen || ready != {}) && ready <= Waiting() {
          var served := Pass(listen, connfd, ready);
        }
        k := k + 1;
      }
    }

    /** At every point of every run, the connections the children have or have had are as many as were
        accepted: with the order kept child by child, each accepted connection is with exactly one child. */
    lemma {:induction false} Conserved()
      requires Valid()
      ensures TotalGiven(processes) == |accepted|
      ensures forall i :: 0 <= i < |processes| ==> processes[i].Given() == PassedTo(accepted, owners, i)
    {
      EachToOneChild(accepted, owners, |processes|);
      GivenSum(processes, accepted, owners, |processes|);
      assert processes[..|processes|] == processes;
    }

    /** The children with a byte waiting for the parent. */
    function Waiting(): (r: set<nat>)
      reads this
      ensures forall i :: i in r <==> 0 <= i < |processes| && processes[i].ready > 0
    {
      set i: nat | i < |processes| && processes[i].ready > 0
    }
  }

  /** How many connections the first `n` children were given. */
  function GivenTo(accepted: seq<int>, owners: seq<nat>, n: nat): nat
    requires |accepted| == |owners|
  {
    if n == 0 then 0 else GivenTo(accepted, owners, n - 1) + |PassedTo(accepted, owners, n - 1)|
  }

  lemma {:induction false} GivenToMore(accepted: seq<int>, owners: seq<nat>, fd: int, to: nat, n: nat)
    requires |accepted| == |owners|
    ensures GivenTo(accepted + [fd], owners + [to], n) == GivenTo(accepted, owners, n) + if to < n then 1 else 0
  {
    if n > 0 {
      GivenToMore(accepted, owners, fd, to, n - 1);
      PassedToMore(accepted, owners, fd, to, n - 1);
    }
  }

  lemma {:induction false} NothingGiven(n: nat)
    ensures GivenTo([], [], n) == 0
  {
    if n > 0 {
      NothingGiven(n - 1);
    }
  }

  /** Every accepted connection went to exactly one of the `n` children: together they were given as
      many as were accepted. */
  lemma {:induction false} EachToOneChild(accepted: seq<int>, owners: seq<nat>, n: nat)
    requires |accepted| == |owners| && forall k :: 0 <= k < |owners| ==> owners[k] < n
    ensures GivenTo(accepted, owners, n) == |accepted|
  {
    if accepted == [] {
      NothingGiven(n);
    } else {
      var k := |accepted| - 1;
      EachToOneChild(accepted[..k], owners[..k], n);
      GivenToMore(accepted[..k], owners[..k], accepted[k], owners[k], n);
      assert accepted[..k] + [accepted[k]] == accepted && owners[..k] + [owners[k]] == owners;
    }
  }

  /** How many connections the processes have or have had. */
  function TotalGiven(ps: seq<Process>): nat {
    if ps == [] then 0 else TotalGiven(ps[..|ps| - 1]) + |ps[|ps| - 1].Given()|
  }

  lemma {:induction false} GivenSum(ps: seq<Process>, accepted: seq<int>, owners: seq<nat>, n: nat)
    requires |accepted| == |owners| && n <= |ps|
    requires forall i :: 0 <= i < |ps| ==> ps[i].Given() == PassedTo(accepted, owners, i)
    ensures TotalGiven(ps[..n]) == GivenTo(accepted, owners, n)
  {
    hide PassedTo;
    if n > 0 {
      GivenSum(ps, accepted, owners, n - 1);
      assert ps[..n][..n - 1] == ps[..n - 1];
    }
  }

  lemma {:induction false} AllAvailable(cs: seq<Child>)
    requires forall i :: 0 <= i < |cs| ==> cs[i].status == 0
    ensures Available(cs) == |cs|
  {
    if cs != [] {
      AllAvailable(cs[..|cs| - 1]);
    }
  }
}
