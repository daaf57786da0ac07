/** Request and reply over UDP with retransmission (rtt/dg_send_recv.c): the client's steps
    between the points where it blocks, interleaved with a network that loses, duplicates,
    delays and reorders datagrams and a server that echoes the 8-byte header. */
module DgSendRecv {
  import opened Common
  import opened Rtt

  const HDR_SIZE: nat := 8

  datatype Header = Header(seqno: int, ts: int)

  /** The static variables that survive a call, and whether a call is in `recvmsg`. */
  datatype Client = Client(rttinit: bool, info: Info, seqno: int, waiting: bool)

  // ----- The client's steps -----

  /** Lines 26-54: initialise if needed, number the request. */
  function Prepared(c: Client, now: Time): Client {
    var info := if c.rttinit then c.info else Init(c.info, now);
    Client(true, NewPack(info), (c.seqno + 1) % WORD32, true)
  }

  /** Line 60: the header of a transmission. */
  function Stamped(c: Client, now: Time): Header {
    Header(c.seqno, Ts(c.info, now))
  }

  /** Lines 69-74. */
  function TimedOut(c: Client): Client {
    var info := Timeout(c.info);
    if GivesUp(info) then c.(info := info, rttinit := false, waiting := false) else c.(info := info)
  }

  /** Line 86: what ends the receive loop. */
  predicate Accepts(c: Client, n: nat, h: Header) {
    n >= HDR_SIZE && h.seqno == c.seqno
  }

  /** Line 90: the measured round trip, in `uint32_t` arithmetic. */
  function Sample(c: Client, h: Header, now: Time): (ms: nat) {
    (Ts(c.info, now) - h.ts) % WORD32
  }

  function Answered(c: Client, h: Header, now: Time): Client {
    c.(info := Stop(c.info, Sample(c, h, now)), waiting := false)
  }

  // ----- The whole system -----

  /** A transmission: the call it belongs to, its number within the call, when it was made,
      the header sent, the timeout in force and the alarm set. */
  datatype Sent = Sent(call: nat, attempt: int, at: Time, hdr: Header, rto: real, alarm: int)

  /** A datagram on the wire, tagged with the transmission it carries or echoes. */
  datatype Datagram = Datagram(hdr: Header, id: nat)

  /** A reply taken as the answer of a call. */
  datatype Accepted = Accepted(call: nat, id: nat, at: Time, ms: nat)

  /** `peak` is the largest sample since the estimators were initialised, in seconds. */
  datatype State = State(
    client: Client,
    calls: nat,
    log: seq<Sent>,
    toServer: set<Datagram>,
    toClient: set<Datagram>,
    accepted: seq<Accepted>,
    peak: real)

  datatype Step =
    | Call(first: Time, now: Time)
    | Alarm(now: Time)
    | Serve(d: Datagram)
    | Receive(n: nat, d: Datagram, data: seq<byte>, now: Time)
    | ReceiveShort(n: nat)

  function Transmit(s: State, now: Time): State {
    var h := Stamped(s.client, now);
    s.(log := s.log + [Sent(s.calls, s.client.info.nrexmt, now, h, s.client.info.rto, Start(s.client.info))],
       toServer := s.toServer + {Datagram(h, |s.log|)})
  }

  predicate Enabled(s: State, step: Step) {
    match step
    case Call(_, _) => !s.client.waiting
    case Alarm(_) => s.client.waiting
    case Serve(d) => d in s.toServer
    case Receive(n, d, data, _) => s.client.waiting && d in s.toClient && (n >= HDR_SIZE ==> |data| == n - HDR_SIZE)
    case ReceiveShort(n) => s.client.waiting && n < HDR_SIZE
  }

  /** The state after a step. A datagram that is read stays in the set: it may be delivered again,
      and one that never is was lost. */
  function After(s: State, step: Step): State
    requires Enabled(s, step)
  {
    match step
    case Call(first, now) =>
      var peak := if s.client.rttinit then s.peak else 0.0;
      Transmit(s.(client := Prepared(s.client, first), calls := s.calls + 1, peak := peak), now)
    case Alarm(now) =>
      var t := s.(client := TimedOut(s.client));
      if t.client.waiting then Transmit(t, now) else t
    case Serve(d) => s.(toClient := s.toClient + {d})
    case Receive(n, d, _, now) =>
      if Accepts(s.client, n, d.hdr) then
        var ms := Sample(s.client, d.hdr, now);
        s.(client := Answered(s.client, d.hdr, now),
           accepted := s.accepted + [Accepted(s.calls, d.id, now, ms)],
           peak := Max(s.peak, ms as real / 1000.0))
      else s
    case ReceiveShort(n) => s
  }

  /** The timeout is within its limits between calls and while one is waiting. */
  predicate Sane(c: Client) {
    && (c.rttinit && !c.waiting ==> Ready(c.info))
    && (c.waiting ==> c.rttinit && InRequest(c.info))
  }

  const START: State :=
    State(Client(false, Info(0.0, 0.0, 0.0, 0.0, 0, 0), 0, false), 0, [], {}, {}, [], 0.0)

  // ----- The invariant -----

  function Transmissions(log: seq<Sent>, call: nat): nat {
    if log == [] then 0
    else Transmissions(log[..|log| - 1], call) + (if log[|log| - 1].call == call then 1 else 0)
  }

  ghost predicate LogInv(s: State) {
    forall k :: 0 <= k < |s.log| ==> Logged(s.log[k], s.calls)
  }

  predicate Logged(t: Sent, calls: nat) {
    && 1 <= t.call <= calls && t.hdr.seqno == t.call % WORD32
    && 0 <= t.attempt <= MAXNREXMT && 2 <= t.alarm <= 60 * Backoff(t.attempt) <= 480
    && t.alarm as real - 0.5 <= t.rto < t.alarm as real + 0.5
  }

  /** Whatever is on the wire carries the header of the transmission it is tagged with. */
  ghost predicate WireInv(s: State) {
    forall d :: d in s.toServer || d in s.toClient ==> d.id < |s.log| && d.hdr == s.log[d.id].hdr
  }

  /** The transmissions of the call that waits were stamped under the base still in use. */
  ghost predicate StampInv(s: State) {
    s.client.waiting ==> forall k :: 0 <= k < |s.log| && s.log[k].call == s.calls ==>
      s.log[k].hdr.ts == Ts(s.client.info, s.log[k].at)
  }

  ghost predicate CountInv(s: State) {
    && (forall c: nat :: Transmissions(s.log, c) <= 4)
    && (forall c: nat :: c > s.calls ==> Transmissions(s.log, c) == 0)
    && (s.client.waiting ==> Transmissions(s.log, s.calls) == s.client.info.nrexmt + 1)
  }

  /** The answer of a call is an echo of a transmission with the call's sequence number, and when
      that is one of its own, the sample is the time since that transmission. */
  predicate GoodAnswer(a: Accepted, log: seq<Sent>, calls: nat) {
    && 1 <= a.call <= calls && a.id < |log|
    && log[a.id].call <= a.call && log[a.id].call % WORD32 == a.call % WORD32
    && (log[a.id].call == a.call ==> a.ms == (a.at.Ms() - log[a.id].at.Ms()) % WORD32)
  }

  ghost predicate AcceptedInv(s: State) {
    forall j :: 0 <= j < |s.accepted| ==> GoodAnswer(s.accepted[j], s.log, s.calls)
  }

  /** Answers come in the order of the calls, one for each at most, and a call that waits has none yet. */
  predicate OnceInv(s: State) {
    && (forall i, j :: 0 <= i < j < |s.accepted| ==> s.accepted[i].call < s.accepted[j].call)
    && (s.client.waiting ==> forall j :: 0 <= j < |s.accepted| ==> s.accepted[j].call < s.calls)
  }

  /** The transmissions of a call are numbered from 0 on, and each is made under twice the timeout of the one
      before. */
  ghost predicate BackoffInv(s: State) {
    && (forall k :: 0 <= k < |s.log| ==> Numbered(s.log, k))
    && (forall j, k :: 0 <= j < |s.log| && 0 <= k < |s.log| ==> BackedOff(s.log[j], s.log[k]))
    && (s.client.waiting ==> UnderWay(s))
  }

  predicate Numbered(log: seq<Sent>, k: nat)
    requires k < |log|
  {
    log[k].attempt == Transmissions(log[..k], log[k].call)
  }

  /** If `first` is the first transmission of the call of `t`, the timeout of `t` is its, doubled as often as `t`
      says. */
  predicate BackedOff(first: Sent, t: Sent) {
    first.call == t.call && first.attempt == 0 && t.attempt >= 0 ==> t.rto == Backoff(t.attempt) as real * first.rto
  }

  ghost predicate UnderWay(s: State) {
    s.client.info.nrexmt >= 0 && forall j :: 0 <= j < |s.log| && s.log[j].call == s.calls && s.log[j].attempt == 0 ==>
      s.client.info.rto == Backoff(s.client.info.nrexmt) as real * s.log[j].rto
  }

  ghost predicate Inv(s: State) {
    && s.client.seqno == s.calls % WORD32
    && (s.client.waiting ==> s.calls >= 1)
    && Sane(s.client)
    && (s.client.rttinit ==> Estimates(s.client.info, s.peak))
    && LogInv(s) && WireInv(s) && StampInv(s) && CountInv(s) && AcceptedInv(s) && OnceInv(s)
    && BackoffInv(s)
  }

  // ----- Its preservation -----

  lemma {:induction false} TransmitKeepsLog(s: State, now: Time)
    requires LogInv(s) && InRequest(s.client.info) && s.calls >= 1 && s.client.seqno == s.calls % WORD32
    ensures LogInv(Transmit(s, now))
  {
    AlarmBounds(s.client.info);
  }

  lemma {:induction false} TransmitKeepsWire(s: State, now: Time)
    requires WireInv(s)
    ensures WireInv(Transmit(s, now))
  {
  }

  lemma {:induction false} TransmitKeepsStamp(s: State, now: Time)
    requires StampInv(s)
    ensures StampInv(Transmit(s, now))
  {
  }

  lemma {:induction false} TransmitKeepsAccepted(s: State, now: Time)
    requires AcceptedInv(s)
    ensures AcceptedInv(Transmit(s, now))
  {
  }

  lemma {:induction false} TransmitKeepsCount(s: State, now: Time)
    requires forall c: nat :: Transmissions(s.log, c) <= 4
    requires forall c: nat :: c > s.calls ==> Transmissions(s.log, c) == 0
    requires InRequest(s.client.info) && Transmissions(s.log, s.calls) == s.client.info.nrexmt
    ensures CountInv(Transmit(s, now))
  {
  }

  lemma {:induction false} TransmitKeepsBackoff(s: State, now: Time)
    requires forall k :: 0 <= k < |s.log| ==> Numbered(s.log, k)
    requires forall j, k :: 0 <= j < |s.log| && 0 <= k < |s.log| ==> BackedOff(s.log[j], s.log[k])
    requires UnderWay(s) && Transmissions(s.log, s.calls) == s.client.info.nrexmt
    requires s.client.info.nrexmt == 0 ==> forall j :: 0 <= j < |s.log| ==> s.log[j].call != s.calls
    ensures BackoffInv(Transmit(s, now))
  {
    var (log, n) := (Transmit(s, now).log, |s.log|);
    forall k | 0 <= k < |log| ensures Numbered(log, k) {
      assert k < n ==> log[..k] == s.log[..k] && Numbered(s.log, k);
      assert log[..n] == s.log;
    }
    assert Backoff(0) == 1;
    forall j, k | 0 <= j < |log| && 0 <= k < |log| ensures BackedOff(log[j], log[k]) {
      if j < n && k < n {
        assert BackedOff(s.log[j], s.log[k]);
      }
    }
  }

  lemma {:induction false} DoubledAgain(n: nat, r: real)
    ensures 2.0 * (Backoff(n) as real * r) == Backoff(n + 1) as real * r
  {
    assert Backoff(n + 1) as real == 2.0 * (Backoff(n) as real);
  }

  lemma {:induction false} TimedOutUnderWay(s: State)
    requires UnderWay(s)
    ensures UnderWay(s.(client := TimedOut(s.client)))
  {
    forall j | 0 <= j < |s.log| && s.log[j].call == s.calls && s.log[j].attempt == 0
      ensures 2.0 * s.client.info.rto == Backoff(s.client.info.nrexmt + 1) as real * s.log[j].rto
    {
      DoubledAgain(s.client.info.nrexmt, s.log[j].rto);
    }
  }

  lemma {:induction false} CallKeepsInv(s: State, first: Time, now: Time)
    requires Inv(s) && !s.client.waiting
    ensures Inv(After(s, Call(first, now)))
  {
    var t := s.(client := Prepared(s.client, first), calls := s.calls + 1,
                peak := if s.client.rttinit then s.peak else 0.0);
    InitIsReady(s.client.info, first);
    NextSeqno(s.calls);
    assert Backoff(0) == 1;
    TransmitKeepsLog(t, now);
    TransmitKeepsWire(t, now);
    TransmitKeepsStamp(t, now);
    TransmitKeepsCount(t, now);
    TransmitKeepsAccepted(t, now);
    TransmitKeepsBackoff(t, now);
  }

  lemma {:induction false} NextSeqno(n: nat)
    ensures (n % WORD32 + 1) % WORD32 == (n + 1) % WORD32
  {
  }

  lemma {:induction false} AlarmKeepsInv(s: State, now: Time)
    requires Inv(s) && s.client.waiting
    ensures Inv(After(s, Alarm(now)))
  {
    TimeoutKeepsRequest(s.client.info);
    TimedOutUnderWay(s);
    var t := s.(client := TimedOut(s.client));
    if t.client.waiting {
      TransmitKeepsLog(t, now);
      TransmitKeepsWire(t, now);
      TransmitKeepsStamp(t, now);
      TransmitKeepsCount(t, now);
      TransmitKeepsAccepted(t, now);
      TransmitKeepsBackoff(t, now);
    }
  }

  lemma {:induction false} ReceiveKeepsInv(s: State, n: nat, d: Datagram, data: seq<byte>, now: Time)
    requires Inv(s) && Enabled(s, Receive(n, d, data, now))
    ensures Inv(After(s, Receive(n, d, data, now)))
  {
    if Accepts(s.client, n, d.hdr) {
      var ms := Sample(s.client, d.hdr, now);
      var t := s.log[d.id];
      assert Logged(t, s.calls);
      TimestampsMeasureElapsed(s.client.info, t.at, now);
      StopKeepsEstimates(s.client.info, ms, s.peak);
      assert GoodAnswer(Accepted(s.calls, d.id, now, ms), s.log, s.calls);
    }
  }

  lemma {:induction false} ServeKeepsInv(s: State, d: Datagram)
    requires Inv(s) && d in s.toServer
    ensures Inv(After(s, Serve(d))) && After(s, Serve(d)).toClient == s.toClient + {d}
  {
    hide Transmissions, Logged, GoodAnswer, BackedOff, Numbered, Sane, Estimates;
  }

  lemma {:induction false} StepKeepsInv(s: State, step: Step)
    requires Inv(s) && Enabled(s, step)
    ensures Inv(After(s, step))
  {
    hide Inv;
    match step
    case Call(first, now) => CallKeepsInv(s, first, now);
    case Alarm(now) => AlarmKeepsInv(s, now);
    case Serve(d) => ServeKeepsInv(s, d);
    case Receive(n, d, data, now) => ReceiveKeepsInv(s, n, d, data, now);
    case ReceiveShort(n) =>
  }

  // ----- What each step does -----

  /** A timestamp under `base`: the milliseconds since that second, mod 2^32. */
  predicate StampedAt(ts: int, now: Time, base: int) {
    0 <= ts < WORD32 && (ts - (now.Ms() - 1000 * base)) % WORD32 == 0
  }

  /** A call makes one transmission, with the next number, under the timeout the estimators left by the call
      before it give; after a call that gave up they start afresh. */
  lemma {:induction false} CallTransmits(s: State, first: Time, now: Time)
    requires Inv(s) && !s.client.waiting
    ensures var (t, n) := (After(s, Call(first, now)), |s.log|);
      && t.client.waiting && t.calls == s.calls + 1 && t.accepted == s.accepted
      && |t.log| == n + 1 && s.log <= t.log
      && t.log[n].call == t.calls && t.log[n].attempt == 0 && t.log[n].at == now
      && t.log[n].hdr.seqno == t.calls % WORD32 && StampedAt(t.log[n].hdr.ts, now, t.client.info.base)
      && Datagram(t.log[n].hdr, n) in t.toServer && t.log[n].rto == t.client.info.rto
    ensures var (i, j) := (s.client.info, After(s, Call(first, now)).client.info);
      if s.client.rttinit then j.srtt == i.srtt && j.rttvar == i.rttvar && j.rto == i.rto && j.base == i.base
      else j.srtt == 0.0 && j.rttvar == 0.75 && j.rto == 3.0 && j.base == first.sec % WORD32
  {
    hide LogInv, WireInv, StampInv, AcceptedInv, OnceInv, BackoffInv, CountInv, Estimates;
    NextSeqno(s.calls);
  }

  /** The first three alarms of a call each make one more transmission, with the same number and twice the timeout;
      the fourth ends the call, and the next one will start the estimators afresh. */
  lemma {:induction false} AlarmRetransmits(s: State, now: Time)
    requires Inv(s) && s.client.waiting
    ensures var (t, n, k) := (After(s, Alarm(now)), |s.log|, Transmissions(s.log, s.calls));
      && 1 <= k <= 4 && t.calls == s.calls && t.accepted == s.accepted && s.log <= t.log
      && (k <= 3 ==>
            && t.client.waiting && |t.log| == n + 1
            && t.log[n].call == s.calls && t.log[n].attempt == k && t.log[n].at == now
            && t.log[n].hdr.seqno == s.calls % WORD32 && StampedAt(t.log[n].hdr.ts, now, s.client.info.base)
            && Datagram(t.log[n].hdr, n) in t.toServer && t.log[n].rto == 2.0 * s.client.info.rto)
      && (k == 4 ==> !t.client.waiting && !t.client.rttinit && t.log == s.log)
  {
    hide LogInv, WireInv, StampInv, AcceptedInv, OnceInv, BackoffInv, Estimates, Transmissions, Backoff;
  }

  /** A whole header with the number of the call ends its wait and gives it its one answer. */
  lemma {:induction false} ReceiveTakes(s: State, n: nat, d: Datagram, data: seq<byte>, now: Time)
    requires Inv(s) && s.client.waiting && d in s.toClient && n >= 8 && |data| == n - 8
    requires d.hdr.seqno == s.calls % WORD32
    ensures Enabled(s, Receive(n, d, data, now)) && d.id < |s.log|
    ensures var t := After(s, Receive(n, d, data, now));
      && !t.client.waiting && t.client.rttinit && t.calls == s.calls && t.log == s.log
      && |t.accepted| == |s.accepted| + 1 && s.accepted <= t.accepted
      && var a := t.accepted[|s.accepted|];
      && a.call == s.calls && a.id == d.id && a.at == now
      && (s.log[d.id].call == s.calls ==> a.ms == (now.Ms() - s.log[d.id].at.Ms()) % WORD32)
      && t.client.info.srtt == 0.875 * s.client.info.srtt + 0.125 * (a.ms as real / 1000.0)
  {
    TimestampsMeasureElapsed(s.client.info, s.log[d.id].at, now);
    StopIsJacobson(s.client.info, Sample(s.client, d.hdr, now));
  }

  /** So the first whole echo of any transmission of the call, first or later, is its answer. */
  lemma {:induction false} OwnEchoIsTaken(s: State, n: nat, d: Datagram, data: seq<byte>, now: Time)
    requires Inv(s) && s.client.waiting && d in s.toClient && n >= 8 && |data| == n - 8
    requires d.id < |s.log| && s.log[d.id].call == s.calls
    ensures Enabled(s, Receive(n, d, data, now))
    ensures var t := After(s, Receive(n, d, data, now));
      && !t.client.waiting
      && t.accepted == s.accepted + [Accepted(s.calls, d.id, now, (now.Ms() - s.log[d.id].at.Ms()) % WORD32)]
  {
    assert Logged(s.log[d.id], s.calls);
    ReceiveTakes(s, n, d, data, now);
  }

  /** Anything else changes nothing. */
  lemma {:induction false} ReceiveIgnores(s: State, n: nat, d: Datagram, data: seq<byte>, now: Time)
    requires Inv(s) && Enabled(s, Receive(n, d, data, now))
    requires n < 8 || d.hdr.seqno != s.calls % WORD32
    ensures After(s, Receive(n, d, data, now)) == s
  {
  }

  // ----- Every run -----

  predicate Possible(s: State, run: seq<Step>)
    decreases |run|
  {
    run == [] || (Enabled(s, run[0]) && Possible(After(s, run[0]), run[1..]))
  }

  function Exec(s: State, run: seq<Step>): State
    requires Possible(s, run)
    decreases |run|
  {
    if run == [] then s else Exec(After(s, run[0]), run[1..])
  }

  lemma {:induction false} StartInv()
    ensures Inv(START)
  {
  }

  lemma {:induction false} RunKeepsInv(s: State, run: seq<Step>)
    requires Inv(s) && Possible(s, run)
    ensures Inv(Exec(s, run))
    decreases |run|
  {
    if run != [] {
      StepKeepsInv(s, run[0]);
      RunKeepsInv(After(s, run[0]), run[1..]);
    }
  }

  lemma {:induction false} CongruentCalls(c: nat, d: nat)
    requires 1 <= c <= d <= WORD32 && c % WORD32 == d % WORD32
    ensures c == d
  {
  }

  /** A call is answered at most once, the answer is an echo of one of its own transmissions, and the
      sample taken is the time since that very transmission, retransmissions and re-initialisations
      included, in every run of up to 2^32 calls. */
  lemma {:induction false} AnswersAreOwn(run: seq<Step>)
    requires Possible(START, run) && Exec(START, run).calls <= WORD32
    ensures var s := Exec(START, run);
      && (forall j :: 0 <= j < |s.accepted| ==>
            var a := s.accepted[j];
            && a.id < |s.log| && s.log[a.id].call == a.call
            && a.ms == (a.at.Ms() - s.log[a.id].at.Ms()) % WORD32)
      && (forall i, j :: 0 <= i < j < |s.accepted| ==> s.accepted[i].call < s.accepted[j].call)
  {
    RunKeepsInv(START, run);
    var s := Exec(START, run);
    forall j | 0 <= j < |s.accepted|
      ensures GoodAnswer(s.accepted[j], s.log, s.calls) && s.log[s.accepted[j].id].call == s.accepted[j].call
    {
      var a := s.accepted[j];
      assert GoodAnswer(a, s.log, s.calls);
      assert Logged(s.log[a.id], s.calls);
      CongruentCalls(s.log[a.id].call, a.call);
    }
  }

  /** In every run: a request is transmitted at most 4 times, with alarms of 2 to 480 seconds (60 at
      most the first time), and the estimators stay within the samples. */
  lemma {:induction false} TimersAreBounded(run: seq<Step>, call: nat)
    requires Possible(START, run)
    ensures var s := Exec(START, run);
      && Transmissions(s.log, call) <= MAXNREXMT + 1
      && (forall k :: 0 <= k < |s.log| ==>
            2 <= s.log[k].alarm <= 480 && (s.log[k].attempt == 0 ==> s.log[k].alarm <= 60))
      && (s.client.rttinit ==> Estimates(s.client.info, s.peak))
      && (s.client.rttinit && !s.client.waiting ==> RXTMIN <= s.client.info.rto <= RXTMAX)
  {
    RunKeepsInv(START, run);
    var s := Exec(START, run);
    forall k | 0 <= k < |s.log|
      ensures 2 <= s.log[k].alarm <= 480 && (s.log[k].attempt == 0 ==> s.log[k].alarm <= 60)
    {
      assert Logged(s.log[k], s.calls);
      assert Backoff(0) == 1;
    }
  }

  /** In every run: the transmissions of a call are numbered 0, 1, 2, 3 in order, number `n` is made under 2^n times
      the timeout of the first, and the alarm is the whole second nearest to that timeout. */
  lemma {:induction false} TimersBackOff(run: seq<Step>, j: nat, k: nat)
    requires Possible(START, run)
    requires j < |Exec(START, run).log| && k < |Exec(START, run).log|
    requires var log := Exec(START, run).log; log[j].call == log[k].call && log[j].attempt == 0
    ensures var (first, t) := (Exec(START, run).log[j], Exec(START, run).log[k]);
      && t.attempt == Transmissions(Exec(START, run).log[..k], t.call)
      && 0 <= t.attempt <= 3
      && t.rto == [1.0, 2.0, 4.0, 8.0][t.attempt] * first.rto
      && t.alarm as real - 0.5 <= t.rto < t.alarm as real + 0.5
  {
    hide Transmissions, Exec, Possible;
    StartInv();
    RunKeepsInv(START, run);
    var s := Exec(START, run);
    assert Logged(s.log[k], s.calls) && Numbered(s.log, k) && BackedOff(s.log[j], s.log[k]);
    assert Backoff(3) == 2 * Backoff(2) == 4 * Backoff(1) == 8 * Backoff(0) == 8;
  }

  lemma {:induction false} ExecConcat(s: State, a: seq<Step>, b: seq<Step>)
    requires Possible(s, a) && Possible(Exec(s, a), b)
    ensures Possible(s, a + b) && Exec(s, a + b) == Exec(Exec(s, a), b)
    decreases |a|
  {
    if a == [] {
      assert a + b == b;
    } else {
      assert (a + b)[1..] == a[1..] + b;
      ExecConcat(After(s, a[0]), a[1..], b);
    }
  }

  lemma {:induction false} ExecNothing(s: State)
    ensures Possible(s, []) && Exec(s, []) == s && Alarms([]) == 0
  {
  }

  lemma {:induction false} PossibleNext(s: State, run: seq<Step>, i: nat)
    requires i < |run| && Possible(s, run[i..])
    ensures Enabled(s, run[i]) && Possible(After(s, run[i]), run[i + 1..])
  {
    assert run[i..][1..] == run[i + 1..];
  }

  lemma {:induction false} ExecOneMore(s: State, run: seq<Step>, i: nat)
    requires i < |run| && Possible(s, run[..i]) && Enabled(Exec(s, run[..i]), run[i])
    ensures Possible(s, run[..i + 1]) && Exec(s, run[..i + 1]) == After(Exec(s, run[..i]), run[i])
  {
    var t := Exec(s, run[..i]);
    assert [run[i]][1..] == [] && Exec(t, [run[i]]) == After(t, run[i]);
    ExecConcat(s, run[..i], [run[i]]);
    assert run[..i + 1] == run[..i] + [run[i]];
  }

  // ----- The function itself -----

  /** What one `sendmsg` sends, and the alarm set after it. */
  datatype Packet = Packet(hdr: Header, data: seq<byte>, alarm: int)

  datatype Outcome = Waiting | GaveUp | Reply(n: int)

  /** The static variables, and `dg_send_recv` run against them. */
  class Requester {
    const rttinfo: RttInfo
    var rttinit: bool
    var sendhdr: Header
    var recvhdr: Header

    constructor ()
      ensures View(false) == START.client && fresh(rttinfo)
    {
      rttinfo := new RttInfo();
      rttinit := false;
      sendhdr, recvhdr := Header(0, 0), Header(0, 0);
    }

    ghost function View(waiting: bool): Client
      reads this, rttinfo
    {
      Client(rttinit, rttinfo.View(), sendhdr.seqno, waiting)
    }

    /** Lines 26-54: the estimators of the last call are kept, unless it gave up or there was none. */
    method Begin(first: Time)
      modifies this, rttinfo
      ensures rttinit && sendhdr.seqno == (old(sendhdr.seqno) + 1) % WORD32 && rttinfo.nrexmt == 0
      ensures old(rttinit) ==> rttinfo.srtt == old(rttinfo.srtt) && rttinfo.rttvar == old(rttinfo.rttvar)
      ensures old(rttinit) ==> rttinfo.rto == old(rttinfo.rto) && rttinfo.base == old(rttinfo.base)
      ensures !old(rttinit) ==> rttinfo.srtt == 0.0 && rttinfo.rttvar == 0.75 && rttinfo.rto == 3.0
      ensures !old(rttinit) ==> rttinfo.base == first.sec % WORD32
      ensures View(true) == Prepared(old(View(false)), first)
    {
      if !rttinit {
        rttinfo.RttInit(first);
        rttinit := true;
      }
      sendhdr := sendhdr.(seqno := (sendhdr.seqno + 1) % WORD32);
      rttinfo.RttNewpack();
    }

    /** `sendagain`: the header that goes out and the alarm that is set. */
    method SendAgain(now: Time) returns (sent: Header, alarm: int)
      modifies this
      ensures View(true) == old(View(true))
      ensures sent.seqno == sendhdr.seqno && StampedAt(sent.ts, now, rttinfo.base)
      ensures rttinfo.rto >= 0.0 ==> alarm as real - 0.5 <= rttinfo.rto < alarm as real + 0.5
      ensures sent == Stamped(View(true), now) && alarm == Start(View(true).info)
    {
      var ts := rttinfo.RttTs(now);
      sendhdr := sendhdr.(ts := ts);
      sent := sendhdr;
      alarm := rttinfo.RttStart();
    }

    /** The return of `sigsetjmp` after a SIGALRM: give up, or send again. */
    method OnAlarm(now: Time) returns (rc: int, sent: Header, alarm: int)
      modifies this, rttinfo
      ensures rc < 0 <==> old(rttinfo.nrexmt) >= 3
      ensures rttinfo.nrexmt == old(rttinfo.nrexmt) + 1 && rttinfo.rto == 2.0 * old(rttinfo.rto)
      ensures rttinit == (old(rttinit) && rc >= 0) && sendhdr.seqno == old(sendhdr.seqno)
      ensures rc >= 0 ==> sent.seqno == sendhdr.seqno && StampedAt(sent.ts, now, rttinfo.base)
      ensures View(rc >= 0) == TimedOut(old(View(true)))
      ensures rc >= 0 ==> sent == Stamped(View(true), now) && alarm == Start(View(true).info)
    {
      rc := rttinfo.RttTimeout();
      if rc < 0 {
        rttinit := false;
        return rc, sendhdr, 0;
      }
      sent, alarm := SendAgain(now);
    }

    /** A datagram of `n` bytes arrives, header and data each to its own buffer; `done` when it ends the receive
        loop. */
    method OnDatagram(n: nat, hdr: Header, data: seq<byte>, inbuff: array<byte>, now: Time) returns (done: bool)
      requires |data| <= inbuff.Length
      modifies this, rttinfo, inbuff
      ensures done <==> n >= 8 && hdr.seqno == old(sendhdr.seqno)
      ensures sendhdr == old(sendhdr) && rttinfo.nrexmt == old(rttinfo.nrexmt)
      ensures View(!done) == if done then Answered(old(View(true)), hdr, now) else old(View(true))
      ensures done ==> inbuff[..|data|] == data
    {
      if n >= HDR_SIZE {
        recvhdr := hdr;
        CopyIn(data, inbuff);
      }
      if n < HDR_SIZE || recvhdr.seqno != sendhdr.seqno {
        return false;
      }
      var ts := rttinfo.RttTs(now);
      rttinfo.RttStop((ts - recvhdr.ts) % WORD32);
      return true;
    }

    /** `dg_send_recv`, for as long as `script` says what arrives. The call follows the machine
        above step by step, and returns exactly when it has an answer or has given up. Every transmission carries
        the caller's data, and the answer's data is in the caller's buffer. */
    method DgSendRecv(outbuff: seq<byte>, inbuff: array<byte>, first: Time, now: Time, script: seq<Step>,
                      ghost s: State)
      returns (outcome: Outcome, used: nat, sent: seq<Packet>)
      requires View(false) == s.client
      requires Possible(After(s, Call(first, now)), script)
      requires forall i :: 0 <= i < |script| ==> !script[i].Call?
      requires forall i :: 0 <= i < |script| && script[i].Receive? ==> |script[i].data| <= inbuff.Length
      modifies this, rttinfo, inbuff
      ensures used <= |script| && Possible(After(s, Call(first, now)), script[..used])
      ensures var e := Exec(After(s, Call(first, now)), script[..used]);
        && View(outcome == Waiting) == e.client
        && Transmitted(e.log, s.log, sent, outbuff)
      ensures outcome == Waiting ==> used == |script|
      ensures var no := (old(sendhdr.seqno) + 1) % WORD32;
        && (forall i :: 0 <= i < |sent| ==> sent[i].hdr.seqno == no)
        && (forall i :: 0 <= i < used - 1 ==> !Answers(script[i], no))
        && (outcome.Reply? <==> used > 0 && Answers(script[used - 1], no))
      ensures Alarms(script[..used]) == if outcome == GaveUp then 4 else |sent| - 1
      ensures 1 <= |sent| <= 4 && (outcome == GaveUp ==> |sent| == 4)
      ensures outcome.Reply? ==>
        && outcome.n == |script[used - 1].data| && inbuff[..outcome.n] == script[used - 1].data
      ensures outcome == GaveUp ==> used > 0 && script[used - 1].Alarm?
    {
      hide Possible, Exec, Alarms;
      ghost var s1 := After(s, Call(first, now));
      ghost var e := s1;
      ExecNothing(s1);
      ghost var no := (sendhdr.seqno + 1) % WORD32;
      Begin(first);
      var h, alarm := SendAgain(now);
      sent := [Packet(h, outbuff, alarm)];
      outcome, used := Waiting, 0;
      assert script[..0] == [] && script[0..] == script;
      while used < |script|
        invariant used <= |script| && outcome == Waiting
        invariant Possible(s1, script[..used]) && e == Exec(s1, script[..used])
        invariant Possible(e, script[used..])
        invariant View(true) == e.client
        invariant Transmitted(e.log, s.log, sent, outbuff)
        invariant sendhdr.seqno == no && forall i :: 0 <= i < |sent| ==> sent[i].hdr.seqno == no
        invariant forall i :: 0 <= i < used ==> !Answers(script[i], no)
        invariant Alarms(script[..used]) == rttinfo.nrexmt == |sent| - 1 <= 3
      {
        var step := script[used];
        PossibleNext(e, script, used);
        ghost var e' := After(e, step);
        ExecOneMore(s1, script, used);
        AlarmsMore(script, used);
        used := used + 1;
        match step {
        case Alarm(later) =>
          var rc;
          rc, h, alarm := OnAlarm(later);
          if rc < 0 {
            return GaveUp, used, sent;
          }
          sent := sent + [Packet(h, outbuff, alarm)];
        case Receive(n, d, data, later) =>
          var done := OnDatagram(n, d.hdr, data, inbuff, later);
          if done {
            return Reply(n - HDR_SIZE), used, sent;
          }
        case _ =>
        }
        e := e';
      }
    }
  }

  /** A whole header with the number `no`: what the receive loop waits for. */
  predicate Answers(step: Step, no: int) {
    step.Receive? && step.n >= 8 && step.d.hdr.seqno == no
  }

  function Alarms(script: seq<Step>): nat {
    if script == [] then 0
    else Alarms(script[..|script| - 1]) + (if script[|script| - 1].Alarm? then 1 else 0)
  }

  lemma {:induction false} AlarmsMore(script: seq<Step>, k: nat)
    requires k < |script|
    ensures Alarms(script[..k + 1]) == Alarms(script[..k]) + (if script[k].Alarm? then 1 else 0)
  {
    assert script[..k + 1][..k] == script[..k];
  }

  method CopyIn(data: seq<byte>, inbuff: array<byte>)
    requires |data| <= inbuff.Length
    modifies inbuff
    ensures inbuff[..|data|] == data
  {
    var i := 0;
    while i < |data|
      invariant 0 <= i <= |data| && inbuff[..i] == data[..i]
    {
      inbuff[i] := data[i];
      i := i + 1;
    }
  }

  /** `sent` is what the log has gained, headers and alarms in order, each with the caller's data. */
  predicate Transmitted(log: seq<Sent>, before: seq<Sent>, sent: seq<Packet>, outbuff: seq<byte>) {
    && before <= log && |log| == |before| + |sent|
    && forall i :: 0 <= i < |sent| ==>
         sent[i] == Packet(log[|before| + i].hdr, outbuff, log[|before| + i].alarm)
  }

  // ----- After 2^32 calls -----

  lemma {:induction false} Before(s: State, step: Step, rest: seq<Step>) returns (run: seq<Step>)
    requires Enabled(s, step) && Possible(After(s, step), rest)
    ensures Possible(s, run) && Exec(s, run) == Exec(After(s, step), rest)
  {
    run := [step] + rest;
    assert run[1..] == rest;
  }

  /** A call that nobody answers: one transmission and three retransmissions. */
  lemma {:induction false} UnansweredCall(s: State, t: Time) returns (run: seq<Step>)
    requires Inv(s) && !s.client.waiting
    ensures Possible(s, run)
    ensures var e := Exec(s, run);
      && !e.client.waiting && e.calls == s.calls + 1 && e.accepted == s.accepted
      && s.log <= e.log && s.toServer <= e.toServer && e.toClient == s.toClient
      && |e.log| > |s.log| && e.log[|s.log|].call == e.calls
      && Datagram(e.log[|s.log|].hdr, |s.log|) in e.toServer
  {
    var s1 := After(s, Call(t, t));
    var s2 := After(s1, Alarm(t));
    var s3 := After(s2, Alarm(t));
    var s4 := After(s3, Alarm(t));
    var s5 := After(s4, Alarm(t));
    assert !s5.client.waiting && s5.calls == s.calls + 1;
    assert s.log <= s1.log <= s2.log <= s3.log <= s4.log && s5.log == s4.log;
    run := [];
    run := Before(s4, Alarm(t), run);
    run := Before(s3, Alarm(t), run);
    run := Before(s2, Alarm(t), run);
    run := Before(s1, Alarm(t), run);
    run := Before(s, Call(t, t), run);
  }

  lemma {:induction false} UnansweredCalls(s: State, t: Time, k: nat) returns (run: seq<Step>)
    requires Inv(s) && !s.client.waiting
    ensures Possible(s, run)
    ensures var e := Exec(s, run);
      && !e.client.waiting && e.calls == s.calls + k && e.accepted == s.accepted
      && s.log <= e.log && e.toClient == s.toClient
    decreases k
  {
    run := [];
    if k > 0 {
      var first := UnansweredCall(s, t);
      RunKeepsInv(s, first);
      var rest := UnansweredCalls(Exec(s, first), t, k - 1);
      ExecConcat(s, first, rest);
      run := first + rest;
    }
  }

  /** The bound is exact: one call more, and a late echo of the first request can pass for the
      answer of the last. */
  lemma {:induction false} StaleAnswerAfterWrap() returns (run: seq<Step>)
    ensures Possible(START, run)
    ensures var s := Exec(START, run);
      && s.calls == WORD32 + 1 && |s.accepted| == 1
      && s.accepted[0].call == WORD32 + 1 && s.accepted[0].id < |s.log| && s.log[s.accepted[0].id].call == 1
  {
    var t := Time(0, 0);
    var first := UnansweredCall(START, t);
    var s1 := Exec(START, first);
    var d := Datagram(s1.log[0].hdr, 0);
    RunKeepsInv(START, first);
    StepKeepsInv(s1, Serve(d));
    var s2 := After(s1, Serve(d));
    var middle := UnansweredCalls(s2, t, WORD32 - 1);
    RunKeepsInv(s2, middle);
    var last := StaleAnswer(Exec(s2, middle), d, t);
    ExecConcat(s2, middle, last);
    var rest := Before(s1, Serve(d), middle + last);
    ExecConcat(START, first, rest);
    run := first + rest;
  }

  lemma {:induction false} StaleAnswer(s: State, d: Datagram, t: Time) returns (run: seq<Step>)
    requires Inv(s) && !s.client.waiting && s.calls == WORD32 && s.accepted == []
    requires d in s.toClient && d.id < |s.log| && s.log[d.id].call == 1
    ensures Possible(s, run)
    ensures var e := Exec(s, run);
      && e.calls == WORD32 + 1
      && e.accepted == [Accepted(WORD32 + 1, d.id, t, Sample(After(s, Call(t, t)).client, d.hdr, t))]
      && s.log <= e.log
  {
    var e := After(s, Call(t, t));
    assert Logged(s.log[d.id], s.calls);
    assert Accepts(e.client, HDR_SIZE, d.hdr);
    run := Before(e, Receive(HDR_SIZE, d, [], t), []);
    run := Before(s, Call(t, t), run);
  }
}
