/** Round-trip time estimation and the retransmission timer (lib/rtt.c). The floats of
    `struct rtt_info` are modelled as reals. */
module Rtt {

  const RXTMIN: real := 2.0
  const RXTMAX: real := 60.0
  const MAXNREXMT: int := 3
  const WORD32: int := 0x1_0000_0000

  /** A reading of the clock, as `gettimeofday` returns it. */
  datatype Time = Time(sec: int, usec: nat) {
    function Ms(): int {
      sec * 1000 + usec / 1000
    }
  }

  /** The fields of `struct rtt_info`. */
  datatype Info = Info(rtt: real, srtt: real, rttvar: real, rto: real, nrexmt: int, base: int)

  function MinMax(rto: real): (r: real)
    ensures RXTMIN <= r <= RXTMAX
    ensures RXTMIN <= rto <= RXTMAX ==> r == rto
  {
    if rto < RXTMIN then RXTMIN else if rto > RXTMAX then RXTMAX else rto
  }

  function RtoCalc(srtt: real, rttvar: real): real {
    srtt + 4.0 * rttvar
  }

  function Init(i: Info, now: Time): Info {
    Info(0.0, 0.0, 0.75, MinMax(RtoCalc(0.0, 0.75)), i.nrexmt, now.sec % WORD32)
  }

  /** `rtt_ts`: milliseconds since the second of `rtt_init`, as a `uint32_t`. */
  function Ts(i: Info, now: Time): (ts: int)
    ensures 0 <= ts < WORD32
  {
    ((now.sec - i.base) * 1000 + now.usec / 1000) % WORD32
  }

  function NewPack(i: Info): Info {
    i.(nrexmt := 0)
  }

  /** The conversion of a float to an `int`. */
  function Truncate(x: real): int {
    if x >= 0.0 then x.Floor else -((-x).Floor)
  }

  /** `rtt_start`: the float is rounded by adding a half and truncating. */
  function Start(i: Info): int {
    Truncate(i.rto + 0.5)
  }

  function Abs(x: real): real {
    if x < 0.0 then -x else x
  }

  function Stop(i: Info, ms: nat): Info {
    var rtt := ms as real / 1000.0;
    var delta := rtt - i.srtt;
    var srtt := i.srtt + delta / 8.0;
    var rttvar := i.rttvar + (Abs(delta) - i.rttvar) / 4.0;
    i.(rtt := rtt, srtt := srtt, rttvar := rttvar, rto := MinMax(RtoCalc(srtt, rttvar)))
  }

  function Timeout(i: Info): Info {
    i.(rto := i.rto * 2.0, nrexmt := i.nrexmt + 1)
  }

  predicate GivesUp(i: Info) {
    i.nrexmt > MAXNREXMT
  }

  // ----- Properties -----

  function Max(x: real, y: real): real {
    if x < y then y else x
  }

  /** The estimators against the largest sample seen, in seconds. */
  predicate Estimates(i: Info, peak: real) {
    0.0 <= i.srtt <= peak && 0.0 <= i.rttvar <= Max(0.75, peak)
  }

  /** Between requests the timeout is within its limits. */
  predicate Ready(i: Info) {
    RXTMIN <= i.rto <= RXTMAX
  }

  function Backoff(n: nat): (b: int)
    ensures b >= 1
  {
    if n == 0 then 1 else 2 * Backoff(n - 1)
  }

  /** During a request that has been retransmitted `nrexmt` times. */
  predicate InRequest(i: Info) {
    0 <= i.nrexmt <= MAXNREXMT && RXTMIN <= i.rto <= RXTMAX * Backoff(i.nrexmt) as real
  }

  /** Of the values within the limits, `rtt_minmax` takes the one nearest to what it is given. */
  lemma {:induction false} MinMaxIsNearest(rto: real, x: real)
    requires RXTMIN <= x <= RXTMAX
    ensures Abs(MinMax(rto) - rto) <= Abs(x - rto)
    ensures Abs(MinMax(rto) - rto) == Abs(x - rto) ==> x == MinMax(rto)
  {
  }

  lemma {:induction false} InitIsReady(i: Info, now: Time)
    ensures Ready(Init(i, now)) && Init(i, now).rto == 3.0 && Estimates(Init(i, now), 0.0)
  {
  }

  /** The estimators are convex combinations: no sample moves them past the largest so far. */
  lemma {:induction false} StopKeepsEstimates(i: Info, ms: nat, peak: real)
    requires Estimates(i, peak)
    ensures Estimates(Stop(i, ms), Max(peak, ms as real / 1000.0)) && Ready(Stop(i, ms))
  {
  }

  /** The update of Jacobson's Appendix A: gains of 1/8 and 1/4, the deviation taken from the old estimate, and a
      timeout of the new estimate plus four new deviations, within the limits. */
  lemma {:induction false} StopIsJacobson(i: Info, ms: nat)
    ensures var (m, n) := (ms as real / 1000.0, Stop(i, ms));
      && n.rtt == m
      && n.srtt == 0.875 * i.srtt + 0.125 * m
      && n.rttvar == 0.75 * i.rttvar + 0.25 * (if m < i.srtt then i.srtt - m else m - i.srtt)
      && (2.0 <= n.srtt + 4.0 * n.rttvar <= 60.0 ==> n.rto == n.srtt + 4.0 * n.rttvar)
      && (n.srtt + 4.0 * n.rttvar < 2.0 ==> n.rto == 2.0)
      && (n.srtt + 4.0 * n.rttvar > 60.0 ==> n.rto == 60.0)
      && n.nrexmt == i.nrexmt && n.base == i.base
  {
  }

  function StopMany(i: Info, ms: nat, k: nat): Info
    decreases k
  {
    if k == 0 then i else StopMany(Stop(i, ms), ms, k - 1)
  }

  function Power(x: real, k: nat): real {
    if k == 0 then 1.0 else x * Power(x, k - 1)
  }

  lemma {:induction false} Regroup(p: real, c: real, x: real)
    ensures p * (c * x) == (c * p) * x
  {
  }

  lemma {:induction false} ExactSample(i: Info, ms: nat)
    requires i.srtt == ms as real / 1000.0
    ensures Stop(i, ms).srtt == i.srtt && Stop(i, ms).rttvar == 3.0 / 4.0 * i.rttvar
    ensures Stop(i, ms).rto == MinMax(i.srtt + 4.0 * Stop(i, ms).rttvar)
  {
  }

  lemma {:induction false} SteadySample(i: Info, ms: nat)
    ensures var m := ms as real / 1000.0; Stop(i, ms).srtt - m == 7.0 / 8.0 * (i.srtt - m)
  {
  }

  /** On a steady network the distance of `srtt` to the true value shrinks by 1/8 a sample. */
  lemma {:induction false} SteadySamplesConverge(i: Info, ms: nat, k: nat)
    ensures var m := ms as real / 1000.0;
      StopMany(i, ms, k).srtt - m == Power(7.0 / 8.0, k) * (i.srtt - m)
    decreases k
  {
    hide Stop;
    if k > 0 {
      var m := ms as real / 1000.0;
      SteadySamplesConverge(Stop(i, ms), ms, k - 1);
      SteadySample(i, ms);
      Regroup(Power(7.0 / 8.0, k - 1), 7.0 / 8.0, i.srtt - m);
    }
  }

  /** Once `srtt` is exact, the deviation decays by a quarter a sample, and the timeout with it towards `srtt`. */
  lemma {:induction false} ExactEstimateDecays(i: Info, ms: nat, k: nat)
    requires i.srtt == ms as real / 1000.0
    ensures StopMany(i, ms, k).srtt == i.srtt
    ensures StopMany(i, ms, k).rttvar == Power(3.0 / 4.0, k) * i.rttvar
    ensures k > 0 ==> StopMany(i, ms, k).rto == MinMax(i.srtt + 4.0 * (Power(3.0 / 4.0, k) * i.rttvar))
    decreases k
  {
    hide Stop;
    if k > 0 {
      ExactSample(i, ms);
      ExactEstimateDecays(Stop(i, ms), ms, k - 1);
      Regroup(Power(3.0 / 4.0, k - 1), 3.0 / 4.0, i.rttvar);
    }
  }

  lemma {:induction false} TimeoutKeepsRequest(i: Info)
    requires InRequest(i)
    ensures GivesUp(Timeout(i)) || InRequest(Timeout(i))
  {
  }

  /** Every alarm of a request is between 2 and 480 seconds: `alarm(0)`, which would cancel the
      timer, is never asked for. */
  lemma {:induction false} AlarmBounds(i: Info)
    requires InRequest(i)
    ensures 2 <= Start(i) <= 60 * Backoff(i.nrexmt) <= 480
  {
  }

  /** Two timestamps under one base differ by the elapsed milliseconds, modulo 2^32. */
  lemma {:induction false} TimestampsMeasureElapsed(i: Info, sent: Time, now: Time)
    ensures (Ts(i, now) - Ts(i, sent)) % WORD32 == (now.Ms() - sent.Ms()) % WORD32
  {
  }

  // ----- The structure, updated in place -----

  class RttInfo {
    var rtt: real
    var srtt: real
    var rttvar: real
    var rto: real
    var nrexmt: int
    var base: int

    ghost function View(): Info
      reads this
    {
      Info(rtt, srtt, rttvar, rto, nrexmt, base)
    }

    constructor ()
      ensures View() == Info(0.0, 0.0, 0.0, 0.0, 0, 0)
    {
      rtt, srtt, rttvar, rto, nrexmt, base := 0.0, 0.0, 0.0, 0.0, 0, 0;
    }

    method RttInit(now: Time)
      modifies this
      ensures rto == 3.0 && srtt == 0.0 && rttvar == 0.75 && base == now.sec % WORD32 && nrexmt == old(nrexmt)
      ensures View() == Init(old(View()), now)
    {
      base := now.sec % WORD32;
      rtt, srtt, rttvar := 0.0, 0.0, 0.75;
      rto := MinMax(RtoCalc(srtt, rttvar));
    }

    /** A 32-bit number that is congruent to the milliseconds since the base second. */
    method RttTs(now: Time) returns (ts: int)
      ensures 0 <= ts < WORD32 && (ts - (now.Ms() - 1000 * base)) % WORD32 == 0
      ensures ts == Ts(View(), now)
    {
      ts := ((now.sec - base) * 1000 + now.usec / 1000) % WORD32;
    }

    method RttNewpack()
      modifies this
      ensures nrexmt == 0 && srtt == old(srtt) && rttvar == old(rttvar) && rto == old(rto) && base == old(base)
      ensures View() == NewPack(old(View()))
    {
      nrexmt := 0;
    }

    /** The whole number of seconds nearest to the timeout, the upper one half way between two. */
    method RttStart() returns (seconds: int)
      ensures rto >= 0.0 ==> seconds as real - 0.5 <= rto < seconds as real + 0.5
      ensures seconds == Start(View())
    {
      seconds := Truncate(rto + 0.5);
    }

    method RttStop(ms: nat)
      modifies this
      ensures srtt == 0.875 * old(srtt) + 0.125 * (ms as real / 1000.0)
      ensures rttvar == 0.75 * old(rttvar) + 0.25 * Abs(ms as real / 1000.0 - old(srtt))
      ensures 2.0 <= rto <= 60.0 && (2.0 <= srtt + 4.0 * rttvar <= 60.0 ==> rto == srtt + 4.0 * rttvar)
      ensures nrexmt == old(nrexmt) && base == old(base)
      ensures View() == Stop(old(View()), ms)
    {
      rtt := ms as real / 1000.0;
      var delta := rtt - srtt;
      srtt := srtt + delta / 8.0;
      if delta < 0.0 {
        delta := -delta;
      }
      rttvar := rttvar + (delta - rttvar) / 4.0;
      rto := MinMax(RtoCalc(srtt, rttvar));
    }

    /** The next timeout is twice this one, and past the third retransmission it is time to give up. */
    method RttTimeout() returns (rc: int)
      modifies this
      ensures rto == 2.0 * old(rto) && nrexmt == old(nrexmt) + 1 && rc == if nrexmt > 3 then -1 else 0
      ensures rtt == old(rtt) && srtt == old(srtt) && rttvar == old(rttvar) && base == old(base)
      ensures View() == Timeout(old(View()))
    {
      rto := rto * 2.0;
      nrexmt := nrexmt + 1;
      if nrexmt > MAXNREXMT {
        return -1;
      }
      return 0;
    }
  }
}
