/** The datagram echo server of sigio/dgecho01.c: a SIGIO handler reads datagrams into a circular
    queue, the main loop sends them back. The handler may run, any number of times, at every point where
    the main loop has the signal unblocked. */
module SignalQueue {

  const QSIZE: nat := 8

  datatype Datagram = Datagram(data: seq<int>, from: seq<int>)

  function Next(i: nat): nat {
    if i + 1 >= QSIZE then 0 else i + 1
  }

  /** `n` positions on, going round. */
  function Ahead(i: nat, n: nat): (r: nat)
    requires i < QSIZE
    ensures r < QSIZE
    decreases n
  {
    if n == 0 then i else Ahead(Next(i), n - 1)
  }

  /** The `n` slots from position `i` on. */
  function Window(dg: seq<Datagram>, i: nat, n: nat): (w: seq<Datagram>)
    requires |dg| == QSIZE && i < QSIZE
    ensures |w| == n
    decreases n
  {
    if n == 0 then [] else [dg[i]] + Window(dg, Next(i), n - 1)
  }

  lemma {:induction false} AheadOneMore(i: nat, n: nat)
    requires i < QSIZE
    ensures Ahead(i, n + 1) == Next(Ahead(i, n))
    decreases n
  {
    if n > 0 {
      AheadOneMore(Next(i), n - 1);
    }
  }

  lemma {:induction false} AheadIsModulo(i: nat, n: nat)
    requires i < QSIZE
    ensures Ahead(i, n) == (i + n) % QSIZE
    decreases n
  {
    if n > 0 {
      AheadIsModulo(Next(i), n - 1);
    }
  }

  lemma {:induction false} WindowAt(dg: seq<Datagram>, i: nat, n: nat, j: nat)
    requires |dg| == QSIZE && i < QSIZE && j < n
    ensures Window(dg, i, n)[j] == dg[(i + j) % 8]
    decreases j
  {
    if j > 0 {
      WindowAt(dg, Next(i), n - 1, j - 1);
    }
  }

  /** Writing the slot after the window leaves the window and lengthens it. */
  lemma {:induction false} WindowPut(dg: seq<Datagram>, i: nat, n: nat, d: Datagram)
    requires |dg| == QSIZE && i < QSIZE && n < QSIZE
    ensures Window(dg[Ahead(i, n) := d], i, n + 1) == Window(dg, i, n) + [d]
    decreases n
  {
    if n > 0 {
      WindowPut(dg, Next(i), n - 1, d);
      assert Ahead(i, n) != i by {
        AheadIsModulo(i, n);
      }
    }
  }

  lemma {:induction false} WindowPrefix(dg: seq<Datagram>, i: nat, m: nat, n: nat)
    requires |dg| == QSIZE && i < QSIZE && m <= n
    ensures Window(dg, i, m) == Window(dg, i, n)[..m]
    decreases n
  {
    if m > 0 {
      WindowPrefix(dg, Next(i), m - 1, n - 1);
    }
  }

  /** How far the main loop is with the oldest datagram: not sent, sent, or sent and passed by `iget`. */
  datatype Phase = Unsent | Sent | Passed

  class Echo {
    const dg: array<Datagram>
    const cntread: array<int>
    var iget: nat
    var iput: nat
    var nqueue: nat
    ghost var phase: Phase
    ghost var start: nat              // the oldest slot that `nqueue` still counts
    ghost var received: seq<Datagram>
    ghost var sent: seq<Datagram>
    ghost var retired: seq<Datagram>  // those sent that `nqueue` no longer counts

    constructor ()
      ensures Valid() && phase == Unsent && received == sent == [] && nqueue == 0
      ensures fresh(dg) && fresh(cntread)
    {
      dg := new Datagram[QSIZE](_ => Datagram([], []));
      cntread := new int[QSIZE + 1](_ => 0);
      iget, iput, nqueue, start := 0, 0, 0, 0;
      phase, received, sent, retired := Unsent, [], [], [];
    }

    ghost predicate Valid()
      reads this, dg
    {
      && dg.Length == QSIZE && cntread.Length == QSIZE + 1
      && iget < QSIZE && iput < QSIZE && start < QSIZE && nqueue < QSIZE
      && iput == Ahead(start, nqueue)
      && iget == (if phase == Passed then Next(start) else start)
      && (phase != Unsent ==> nqueue > 0)
      && received == retired + Window(dg[..], start, nqueue)
      && sent == (if phase == Unsent then retired else retired + [dg[start]])
    }

    /** The loop of `sig_io`: one datagram a turn into the slot at `iput`, never into one that is counted. */
    method ReadLoop(arrivals: seq<Datagram>) returns (quit: bool, nread: nat)
      requires Valid()
      modifies this`iput, this`nqueue, dg
      ensures quit <==> old(nqueue) + |arrivals| >= QSIZE
      ensures !quit ==> nread == |arrivals| && nqueue == old(nqueue) + nread && iput == Ahead(start, nqueue)
      ensures !quit ==> Window(dg[..], start, nqueue) == old(Window(dg[..], start, nqueue)) + arrivals
    {
      hide Window, Ahead;
      nread := 0;
      ghost var w := Window(dg[..], start, nqueue);
      assert arrivals[..0] == [];
      while true
        invariant nread <= |arrivals| && nqueue == old(nqueue) + nread <= QSIZE
        invariant iput == Ahead(start, nqueue) && iput < QSIZE
        invariant Window(dg[..], start, nqueue) == w + arrivals[..nread]
        decreases |arrivals| - nread
      {
        if nqueue >= QSIZE {
          return true, nread;
        }
        if nread == |arrivals| {
          break;
        }
        WindowPut(dg[..], start, nqueue, arrivals[nread]);
        AheadOneMore(start, nqueue);
        ghost var before := dg[..];
        dg[iput] := arrivals[nread];
        assert dg[..] == before[iput := arrivals[nread]];
        assert w + arrivals[..nread] + [arrivals[nread]] == w + arrivals[..nread + 1];
        nread := nread + 1;
        nqueue := nqueue + 1;
        iput := Next(iput);
      }
      assert arrivals[..nread] == arrivals;
      quit := false;
    }

    /** `sig_io`, with `arrivals` on the socket. The slots counted before, the one being sent among them, are
        left alone. The process ends exactly when the queue would fill up, even if nothing would be lost;
        so the last counter of the histogram is never used. */
    method SigIo(arrivals: seq<Datagram>) returns (quit: bool)
      requires Valid()
      modifies this`iput, this`nqueue, this`received, dg, cntread
      ensures quit <==> old(nqueue) + |arrivals| >= QSIZE
      ensures !quit ==> Valid() && nqueue == old(nqueue) + |arrivals| && received == old(received) + arrivals
      ensures !quit ==> Window(dg[..], start, old(nqueue)) == old(Window(dg[..], start, nqueue))
      ensures !quit && old(nqueue) > 0 ==> dg[start] == old(dg[start])
      ensures !quit ==> cntread[..] == old(cntread[..])[|arrivals| := old(cntread[..])[|arrivals|] + 1]
    {
      ghost var w, n := Window(dg[..], start, nqueue), nqueue;
      assert n > 0 ==> w[0] == dg[start];
      hide Window, Ahead;
      var nread;
      quit, nread := ReadLoop(arrivals);
      if quit {
        return;
      }
      WindowPrefix(dg[..], start, n, nqueue);
      OldestStays(w, arrivals, n);
      cntread[nread] := cntread[nread] + 1;
      received := received + arrivals;
      assert retired + w + arrivals == retired + (w + arrivals);
    }

    lemma {:induction false} OldestStays(w: seq<Datagram>, arrivals: seq<Datagram>, n: nat)
      requires |w| == n && dg.Length == QSIZE && start < QSIZE && nqueue >= n
      requires Window(dg[..], start, nqueue) == w + arrivals
      ensures Window(dg[..], start, nqueue)[..n] == w
      ensures n > 0 ==> dg[start] == w[0]
    {
    }

    /** Any number of signals while the main loop has them unblocked. */
    method Signals() returns (quit: bool)
      requires Valid()
      modifies this`iput, this`nqueue, this`received, dg, cntread
      ensures !quit ==> Valid() && nqueue >= old(nqueue) && old(received) <= received
      ensures !quit && old(nqueue) > 0 ==> dg[start] == old(dg[start])
    {
      var n: nat := *;
      quit := false;
      while n > 0
        invariant Valid() && nqueue >= old(nqueue) && old(received) <= received
        invariant old(nqueue) > 0 ==> dg[start] == old(dg[start])
      {
        var arrivals: seq<Datagram> := *;
        quit := SigIo(arrivals);
        if quit {
          return;
        }
        n := n - 1;
      }
    }

    /** One datagram of the main loop, lines 58-72. */
    method SendOne() returns (quit: bool)
      requires Valid() && phase == Unsent && nqueue > 0
      modifies this, dg, cntread
      ensures !quit ==> Valid() && phase == Unsent && old(received) <= received
      ensures !quit ==> sent == old(sent) + [old(dg[iget])]
    {
      quit := Signals();
      if quit {
        return;
      }
      sent := sent + [dg[iget]];
      phase := Sent;
      quit := Signals();
      if quit {
        return;
      }
      iget := Next(iget);
      phase := Passed;
      quit := Signals();
      if quit {
        return;
      }
      Retire();
    }

    /** Lines 71-72: the count catches up with `iget`. */
    method Retire()
      requires Valid() && phase == Passed
      modifies this`nqueue, this`start, this`phase, this`retired
      ensures Valid() && phase == Unsent
    {
      ghost var rest := Window(dg[..], Next(start), nqueue - 1);
      assert retired + ([dg[start]] + rest) == retired + [dg[start]] + rest;
      retired := retired + [dg[start]];
      nqueue := nqueue - 1;
      start := Next(start);
      phase := Unsent;
    }

    /** The main loop for any number of turns: what has been received is what has been sent, then what is
        queued, in order. */
    method Run(turns: nat) returns (quit: bool)
      requires Valid() && phase == Unsent
      modifies this, dg, cntread
      ensures !quit ==> Valid() && phase == Unsent && received == sent + Window(dg[..], iget, nqueue)
      ensures !quit ==> old(sent) <= sent && old(received) <= received
      ensures !quit && turns > 0 && old(nqueue) > 0 ==> old(sent) + [old(dg[iget])] <= sent
    {
      var k := 0;
      quit := false;
      while k < turns
        invariant Valid() && phase == Unsent && old(sent) <= sent && old(received) <= received
        invariant k == 0 ==> nqueue == old(nqueue) && sent == old(sent) && dg[..] == old(dg[..]) && iget == old(iget)
        invariant k > 0 && old(nqueue) > 0 ==> old(sent) + [old(dg[iget])] <= sent
      {
        if nqueue == 0 {
          quit := Signals();
        } else {
          quit := SendOne();
        }
        if quit {
          return;
        }
        k := k + 1;
      }
    }

    /** Datagrams received and not yet sent. */
    ghost function Pending(): nat
      reads this
    {
      if phase == Unsent || nqueue == 0 then nqueue else nqueue - 1
    }

    /** The slot of the first of them. */
    ghost function First(): nat
      reads this
    {
      if phase == Sent then Next(iget) else iget
    }

    /** In every phase, `iget` already moved or not: where the next datagram goes, and that nothing is lost
        or out of order. */
    lemma {:induction false} EveryPhase()
      requires Valid()
      ensures iput == (First() + Pending()) % QSIZE
      ensures received == sent + Window(dg[..], First(), Pending())
    {
      AheadIsModulo(First(), Pending());
      if phase != Unsent {
        var rest := Window(dg[..], Next(start), nqueue - 1);
        assert retired + ([dg[start]] + rest) == retired + [dg[start]] + rest;
      }
    }
  }
}
