/** The prethreaded server of server/serv08.c and server/pthread08.c: the main thread puts accepted
    descriptors in a circular buffer, the pool's threads take them, a mutex and a condition variable
    keep them apart. A state machine with one step per action on shared state, in any interleaving,
    spurious wake-ups included. */
module ThreadPool {

  const MAXNCLI: nat := 32

  /** Where the main thread is in lines 35-46 of serv08.c; `Exited` after the `err_quit` of line 44. */
  datatype MainPc = Accepting | Accepted(fd: int) | Locked(fd: int) | Stored | Signalled | Exited

  /** Where a thread is in lines 20-31 of pthread08.c. A woken thread has to take the mutex again. */
  datatype ThreadPc = Outside | Testing | Blocked | Woken | Took(fd: int) | Serving(fd: int)

  datatype Owner = Free | Main | Thread(t: nat)

  datatype Taken = Taken(fd: int, taker: nat)

  datatype State = State(
    clifd: seq<int>, iput: nat, iget: nat,
    mutex: Owner, main: MainPc, threads: seq<ThreadPc>,
    accepted: seq<int>, taken: seq<Taken>)

  datatype Step =
    | Accept(fd: int) | MainLock | Store | Signal(t: nat) | MainUnlock
    | Lock(t: nat) | Test(t: nat) | Unlock(t: nat) | Finish(t: nat) | Spurious(t: nat)

  function Next(i: nat): nat {
    if i + 1 == MAXNCLI then 0 else i + 1
  }

  predicate AnyBlocked(ts: seq<ThreadPc>) {
    exists t :: 0 <= t < |ts| && ts[t] == Blocked
  }

  predicate Enabled(s: State, step: Step) {
    && s.main != Exited
    && match step
       case Accept(_) => s.main == Accepting
       case MainLock => s.main.Accepted? && s.mutex == Free
       case Store => s.main.Locked? && s.iput < |s.clifd|
       case Signal(t) => s.main == Stored && (AnyBlocked(s.threads) ==> t < |s.threads| && s.threads[t] == Blocked)
       case MainUnlock => s.main == Signalled
       case Lock(t) => t < |s.threads| && (s.threads[t] == Outside || s.threads[t] == Woken) && s.mutex == Free
       case Test(t) => t < |s.threads| && s.threads[t] == Testing && s.iget < |s.clifd|
       case Unlock(t) => t < |s.threads| && s.threads[t].Took?
       case Finish(t) => t < |s.threads| && s.threads[t].Serving?
       case Spurious(t) => t < |s.threads| && s.threads[t] == Blocked
  }

  function After(s: State, step: Step): State
    requires Enabled(s, step)
  {
    match step
    case Accept(fd) => s.(main := Accepted(fd), accepted := s.accepted + [fd])
    case MainLock => s.(main := Locked(s.main.fd), mutex := Main)
    case Store =>
      var iput := Next(s.iput);
      s.(clifd := s.clifd[s.iput := s.main.fd], iput := iput, main := if iput == s.iget then Exited else Stored)
    case Signal(t) =>
      if AnyBlocked(s.threads) then s.(threads := s.threads[t := Woken], main := Signalled)
      else s.(main := Signalled)
    case MainUnlock => s.(main := Accepting, mutex := Free)
    case Lock(t) => s.(threads := s.threads[t := Testing], mutex := Thread(t))
    case Test(t) =>
      if s.iget == s.iput then s.(threads := s.threads[t := Blocked], mutex := Free)
      else
        var fd := s.clifd[s.iget];
        s.(threads := s.threads[t := Took(fd)], iget := Next(s.iget), taken := s.taken + [Taken(fd, t)])
    case Unlock(t) => s.(threads := s.threads[t := Serving(s.threads[t].fd)], mutex := Free)
    case Finish(t) => s.(threads := s.threads[t := Outside])
    case Spurious(t) => s.(threads := s.threads[t := Woken])
  }

  function Start(nthreads: nat): State {
    State(seq(MAXNCLI, _ => 0), 0, 0, Free, Accepting, seq(nthreads, _ => Outside), [], [])
  }

  // ----- The circular buffer -----

  function Distance(from: nat, to: nat): nat
    requires from < MAXNCLI && to < MAXNCLI
  {
    if from <= to then to - from else to + MAXNCLI - from
  }

  /** The descriptors from `iget` up to `iput`. */
  function Queue(buf: seq<int>, iget: nat, iput: nat): (q: seq<int>)
    requires |buf| == MAXNCLI && iget < MAXNCLI && iput < MAXNCLI
    ensures |q| == Distance(iget, iput)
    decreases Distance(iget, iput)
  {
    if iget == iput then [] else [buf[iget]] + Queue(buf, Next(iget), iput)
  }

  lemma {:induction false} QueuePut(buf: seq<int>, iget: nat, iput: nat, fd: int)
    requires |buf| == MAXNCLI && iget < MAXNCLI && iput < MAXNCLI && Next(iput) != iget
    ensures Queue(buf[iput := fd], iget, Next(iput)) == Queue(buf, iget, iput) + [fd]
    decreases Distance(iget, iput)
  {
    if iget != iput {
      QueuePut(buf, Next(iget), iput, fd);
    }
  }

  /** The descriptors queued are those in the slots from `iget` on, going round. */
  lemma {:induction false} QueueAt(buf: seq<int>, iget: nat, iput: nat, j: nat)
    requires |buf| == MAXNCLI && iget < MAXNCLI && iput < MAXNCLI && j < |Queue(buf, iget, iput)|
    ensures Queue(buf, iget, iput)[j] == buf[(iget + j) % 32]
    ensures |Queue(buf, iget, iput)| == (iput - iget) % 32
    decreases j
  {
    if j > 0 {
      QueueAt(buf, Next(iget), iput, j - 1);
    }
  }

  // ----- Counting -----

  function BlockedCount(ts: seq<ThreadPc>): (n: nat)
    ensures n <= |ts|
  {
    if ts == [] then 0 else BlockedCount(ts[..|ts| - 1]) + (if ts[|ts| - 1] == Blocked then 1 else 0)
  }

  lemma {:induction false} BlockedUpdate(ts: seq<ThreadPc>, t: nat, pc: ThreadPc)
    requires t < |ts|
    ensures BlockedCount(ts[t := pc]) ==
      BlockedCount(ts) - (if ts[t] == Blocked then 1 else 0) + (if pc == Blocked then 1 else 0)
  {
    var n := |ts| - 1;
    if t < n {
      BlockedUpdate(ts[..n], t, pc);
      assert ts[t := pc][..n] == ts[..n][t := pc];
    } else {
      assert ts[t := pc][..n] == ts[..n];
    }
  }

  lemma {:induction false} NoneBlocked(ts: seq<ThreadPc>)
    requires !AnyBlocked(ts)
    ensures BlockedCount(ts) == 0
  {
    if ts != [] {
      var n := |ts| - 1;
      assert ts[n] != Blocked;
      assert forall t :: 0 <= t < n ==> ts[..n][t] == ts[t];
      NoneBlocked(ts[..n]);
    }
  }

  function Min(a: int, b: int): int {
    if a < b then a else b
  }

  function Fds(taken: seq<Taken>): (fds: seq<int>)
    ensures |fds| == |taken| && forall i :: 0 <= i < |taken| ==> fds[i] == taken[i].fd
  {
    seq(|taken|, i requires 0 <= i < |taken| => taken[i].fd)
  }

  /** The descriptor main has accepted and not yet stored. */
  function InHand(pc: MainPc): seq<int> {
    if pc.Accepted? || pc.Locked? then [pc.fd] else []
  }

  // ----- The invariant -----

  predicate Bounds(s: State) {
    |s.clifd| == MAXNCLI && s.iput < MAXNCLI && s.iget < MAXNCLI
  }

  /** The mutex is held by whoever is between its lock and its unlock, and by nobody else. */
  predicate MutexInv(s: State) {
    && (s.mutex == Main <==> s.main.Locked? || s.main == Stored || s.main == Signalled)
    && (forall t :: 0 <= t < |s.threads| ==>
          (s.mutex == Thread(t) <==> s.threads[t] == Testing || s.threads[t].Took?))
    && (s.mutex.Thread? ==> s.mutex.t < |s.threads|)
  }

  /** First in, first out, and nothing lost. */
  predicate FifoInv(s: State)
    requires Bounds(s)
  {
    s.accepted == Fds(s.taken) + Queue(s.clifd, s.iget, s.iput) + InHand(s.main)
  }

  /** What a thread is about to serve, it took. */
  predicate OwnInv(s: State) {
    && (forall k :: 0 <= k < |s.taken| ==> s.taken[k].taker < |s.threads|)
    && (forall t :: 0 <= t < |s.threads| && (s.threads[t].Took? || s.threads[t].Serving?) ==>
          Taken(s.threads[t].fd, t) in s.taken)
  }

  /** Enough threads are awake for what is queued; between the store and the signal, for all but one. */
  predicate WakeInv(s: State)
    requires Bounds(s)
  {
    var queued := Distance(s.iget, s.iput) - (if s.main == Stored then 1 else 0);
    Min(queued, |s.threads|) <= |s.threads| - BlockedCount(s.threads)
  }

  predicate Inv(s: State) {
    s.main == Exited || (Bounds(s) && MutexInv(s) && FifoInv(s) && OwnInv(s) && WakeInv(s))
  }

  lemma {:induction false} StartInv(n: nat)
    ensures Inv(Start(n))
  {
  }

  lemma {:induction false} StoreKeepsInv(s: State)
    requires Inv(s) && Enabled(s, Store)
    ensures Inv(After(s, Store))
  {
    if Next(s.iput) != s.iget {
      QueuePut(s.clifd, s.iget, s.iput, s.main.fd);
      var q := Queue(s.clifd, s.iget, s.iput);
      assert Fds(s.taken) + q + [s.main.fd] == Fds(s.taken) + (q + [s.main.fd]) + [];
    }
  }

  lemma {:induction false} SignalKeepsInv(s: State, t: nat)
    requires Inv(s) && Enabled(s, Signal(t))
    ensures Inv(After(s, Signal(t)))
  {
    if AnyBlocked(s.threads) {
      BlockedUpdate(s.threads, t, Woken);
    } else {
      NoneBlocked(s.threads);
    }
  }

  lemma {:induction false} TestKeepsInv(s: State, t: nat)
    requires Inv(s) && Enabled(s, Test(t))
    ensures Inv(After(s, Test(t)))
  {
    hide BlockedCount;
    if s.iget == s.iput {
      BlockedUpdate(s.threads, t, Blocked);
    } else {
      var fd := s.clifd[s.iget];
      BlockedUpdate(s.threads, t, Took(fd));
      var rest := Queue(s.clifd, Next(s.iget), s.iput);
      assert Fds(s.taken + [Taken(fd, t)]) == Fds(s.taken) + [fd];
      assert Fds(s.taken) + ([fd] + rest) == Fds(s.taken) + [fd] + rest;
    }
  }

  lemma {:induction false} ThreadMoveKeepsInv(s: State, step: Step)
    requires Inv(s) && Enabled(s, step) && (step.Lock? || step.Unlock? || step.Finish? || step.Spurious?)
    ensures Inv(After(s, step))
  {
    hide Queue, Fds, BlockedCount;
    BlockedUpdate(s.threads, step.t, After(s, step).threads[step.t]);
  }

  lemma {:induction false} StepKeepsInv(s: State, step: Step)
    requires Inv(s) && Enabled(s, step)
    ensures Inv(After(s, step))
  {
    match step
    case Accept(fd) =>
    case MainLock =>
    case Store => StoreKeepsInv(s);
    case Signal(t) => SignalKeepsInv(s, t);
    case MainUnlock =>
    case Test(t) => TestKeepsInv(s, t);
    case _ => ThreadMoveKeepsInv(s, step);
  }

  // ----- Every run -----

  predicate Possible(s: State, run: seq<Step>)
    decreases |run|
  {
    run == [] || (Enabled(s, run[0]) && Possible(After(s, run[0]), run[1..]))
  }

  function Exec(s: State, run: seq<Step>): State
    requires Possible(s, run)
    decreases |run|
  {
    if run == [] then s else Exec(After(s, run[0]), run[1..])
  }

  lemma {:induction false} RunKeepsInv(s: State, run: seq<Step>)
    requires Inv(s) && Possible(s, run)
    ensures Inv(Exec(s, run)) && |Exec(s, run).threads| == |s.threads|
    decreases |run|
  {
    if run != [] {
      StepKeepsInv(s, run[0]);
      RunKeepsInv(After(s, run[0]), run[1..]);
    }
  }

  /** In every run that main has not ended: the descriptors accepted are those taken, in that order, then
      those queued, then the one in main's hand; at most 31 are queued; each was taken by one thread. */
  lemma {:induction false} FirstInFirstOut(nthreads: nat, run: seq<Step>)
    requires Possible(Start(nthreads), run) && Exec(Start(nthreads), run).main != Exited
    ensures var s := Exec(Start(nthreads), run);
      && Bounds(s)
      && s.accepted == Fds(s.taken) + Queue(s.clifd, s.iget, s.iput) + InHand(s.main)
      && |Queue(s.clifd, s.iget, s.iput)| <= MAXNCLI - 1
      && (forall k :: 0 <= k < |s.taken| ==> s.taken[k].fd == s.accepted[k] && s.taken[k].taker < nthreads)
  {
    StartInv(nthreads);
    RunKeepsInv(Start(nthreads), run);
  }

  /** No lost wake-up: whenever the mutex is free, as many threads are not blocked as there are descriptors
      queued, or all of them are. */
  lemma {:induction false} NoLostWakeup(nthreads: nat, run: seq<Step>)
    requires Possible(Start(nthreads), run) && Exec(Start(nthreads), run).main != Exited
    requires Exec(Start(nthreads), run).mutex == Free
    ensures var s := Exec(Start(nthreads), run);
      && Bounds(s)
      && Min(|Queue(s.clifd, s.iget, s.iput)|, nthreads) <= nthreads - BlockedCount(s.threads)
  {
    StartInv(nthreads);
    RunKeepsInv(Start(nthreads), run);
  }

  // ----- What the steps do -----

  /** A thread that holds the mutex and tests takes the oldest descriptor, and blocks only when there is none. */
  lemma {:induction false} TestTakesOldest(s: State, t: nat)
    requires Inv(s) && s.main != Exited && t < |s.threads| && s.threads[t] == Testing
    ensures Enabled(s, Test(t))
    ensures var (q, s') := (Queue(s.clifd, s.iget, s.iput), After(s, Test(t)));
      if q == [] then s' == s.(threads := s.threads[t := Blocked], mutex := Free)
      else
        && s'.taken == s.taken + [Taken(q[0], t)] && s'.threads == s.threads[t := Took(q[0])]
        && s'.mutex == s.mutex && s'.main == s.main && s'.accepted == s.accepted
        && s'.iget < MAXNCLI && s'.iput == s.iput && s'.clifd == s.clifd && Queue(s'.clifd, s'.iget, s'.iput) == q[1..]
  {
    hide FifoInv, OwnInv, WakeInv;
  }

  /** Main, holding the mutex, puts its descriptor at the end of the queue unless 31 are there. */
  lemma {:induction false} StoreAppends(s: State)
    requires Inv(s) && s.main.Locked?
    ensures Enabled(s, Store)
    ensures var (q, s') := (Queue(s.clifd, s.iget, s.iput), After(s, Store));
      if |q| == 31 then s'.main == Exited
      else
        && s'.main == Stored && s'.iput < MAXNCLI && |s'.clifd| == MAXNCLI && s'.iget == s.iget
        && Queue(s'.clifd, s'.iget, s'.iput) == q + [s.main.fd]
        && s'.threads == s.threads && s'.mutex == s.mutex && s'.taken == s.taken && s'.accepted == s.accepted
  {
    hide FifoInv, OwnInv, WakeInv;
    if Next(s.iput) != s.iget {
      QueuePut(s.clifd, s.iget, s.iput, s.main.fd);
    }
  }

  /** A signal wakes one thread if any is blocked, and is lost otherwise. */
  lemma {:induction false} SignalWakesOne(s: State, t: nat)
    requires Inv(s) && s.main == Stored && Enabled(s, Signal(t))
    ensures var s' := After(s, Signal(t));
      && s'.main == Signalled
      && BlockedCount(s'.threads) == (if BlockedCount(s.threads) == 0 then 0 else BlockedCount(s.threads) - 1)
  {
    if AnyBlocked(s.threads) {
      BlockedUpdate(s.threads, t, Woken);
    } else {
      NoneBlocked(s.threads);
    }
  }

  lemma {:induction false} AllBlocked(ts: seq<ThreadPc>)
    requires forall t :: 0 <= t < |ts| ==> ts[t] == Blocked
    ensures BlockedCount(ts) == |ts|
  {
    if ts != [] {
      AllBlocked(ts[..|ts| - 1]);
    }
  }

  /** Whenever the mutex is free and descriptors are queued, some thread can take the mutex or is about to be done
      with a client: the queue is never left with everybody asleep. */
  lemma {:induction false} SomeoneComes(s: State) returns (t: nat)
    requires Inv(s) && s.main != Exited && s.mutex == Free && |s.threads| > 0
    requires Queue(s.clifd, s.iget, s.iput) != []
    ensures t < |s.threads| && (Enabled(s, Lock(t)) || Enabled(s, Finish(t)))
  {
    hide Queue;
    if forall u :: 0 <= u < |s.threads| ==> s.threads[u] == Blocked {
      AllBlocked(s.threads);
      assert false;
    }
    t :| 0 <= t < |s.threads| && s.threads[t] != Blocked;
    assert s.mutex != Thread(t);
  }

  /** Whoever holds the mutex can go on, and so will give it up. */
  lemma {:induction false} HolderGoesOn(s: State) returns (step: Step)
    requires Inv(s) && s.main != Exited && s.mutex != Free
    ensures Enabled(s, step)
    ensures s.mutex == Main ==> step.Store? || step.Signal? || step.MainUnlock?
    ensures s.mutex.Thread? ==> step == Test(s.mutex.t) || step == Unlock(s.mutex.t)
  {
    hide FifoInv, OwnInv, WakeInv;
    if s.mutex == Main {
      if s.main.Locked? {
        step := Store;
      } else if s.main == Signalled {
        step := MainUnlock;
      } else if AnyBlocked(s.threads) {
        var t :| 0 <= t < |s.threads| && s.threads[t] == Blocked;
        step := Signal(t);
      } else {
        step := Signal(0);
      }
    } else {
      step := if s.threads[s.mutex.t] == Testing then Test(s.mutex.t) else Unlock(s.mutex.t);
    }
  }

  /** Main accepts whatever comes, takes the mutex as soon as it is free, and frees it after the signal. */
  lemma {:induction false} MainGoesOn(s: State, fd: int)
    requires Inv(s)
    ensures s.main == Accepting ==>
      Enabled(s, Accept(fd)) && After(s, Accept(fd)) == s.(main := Accepted(fd), accepted := s.accepted + [fd])
    ensures s.main.Accepted? && s.mutex == Free ==>
      Enabled(s, MainLock) && After(s, MainLock) == s.(main := Locked(s.main.fd), mutex := Main)
    ensures s.main == Signalled ==>
      Enabled(s, MainUnlock) && After(s, MainUnlock) == s.(main := Accepting, mutex := Free)
  {
  }

  /** A thread that is free or woken takes the mutex to test, one that has taken a descriptor frees it and serves, and
      comes back. */
  lemma {:induction false} ThreadGoesOn(s: State, t: nat)
    requires Inv(s) && s.main != Exited && t < |s.threads|
    ensures (s.threads[t] == Outside || s.threads[t] == Woken) && s.mutex == Free ==>
      Enabled(s, Lock(t)) && After(s, Lock(t)) == s.(threads := s.threads[t := Testing], mutex := Thread(t))
    ensures s.threads[t].Took? ==>
      && Enabled(s, Unlock(t))
      && After(s, Unlock(t)) == s.(threads := s.threads[t := Serving(s.threads[t].fd)], mutex := Free)
    ensures s.threads[t].Serving? ==>
      Enabled(s, Finish(t)) && After(s, Finish(t)) == s.(threads := s.threads[t := Outside])
  {
  }

  /** Main ends exactly when it stores the 32nd descriptor with none taken meanwhile. */
  lemma {:induction false} ExitsWhenFull(s: State)
    requires Inv(s) && s.main != Exited && Enabled(s, Store)
    ensures After(s, Store).main == Exited <==> |Queue(s.clifd, s.iget, s.iput)| == MAXNCLI - 1
  {
  }

  /** The buffer as the code updates it, each method being what one holder of the mutex does: the `Store` and
      `Test` steps, on the array itself. */
  class Ring {
    const clifd: array<int>
    var iput: nat
    var iget: nat

    ghost predicate Valid()
      reads this
    {
      clifd.Length == MAXNCLI && iput < MAXNCLI && iget < MAXNCLI
    }

    ghost function Queued(): seq<int>
      requires Valid()
      reads this, clifd
    {
      Queue(clifd[..], iget, iput)
    }

    constructor ()
      ensures Valid() && Queued() == []
    {
      clifd := new int[MAXNCLI](_ => 0);
      iput, iget := 0, 0;
    }

    /** Lines 40-44 of serv08.c. A full buffer ends the program, so what is there is never written over. */
    method Put(connfd: int) returns (quit: bool)
      requires Valid()
      modifies this`iput, clifd
      ensures Valid() && (quit <==> |old(Queued())| == MAXNCLI - 1)
      ensures !quit ==> Queued() == old(Queued()) + [connfd]
    {
      ghost var before, slot := clifd[..], iput;
      clifd[iput] := connfd;
      assert clifd[..] == before[slot := connfd];
      iput := iput + 1;
      if iput == MAXNCLI {
        iput := 0;
      }
      quit := iput == iget;
      if !quit {
        QueuePut(before, iget, slot, connfd);
      }
    }

    /** Lines 22-26 of pthread08.c, past the wait. */
    method Take() returns (connfd: int)
      requires Valid() && Queued() != []
      modifies this`iget
      ensures Valid() && old(Queued()) == [connfd] + Queued()
    {
      connfd := clifd[iget];
      iget := iget + 1;
      if iget == MAXNCLI {
        iget := 0;
      }
    }
  }
}
