/**
  The round-trip estimator of lib/rtt.c. Times are milliseconds since the epoch; the floats
  are reals.
*/
module Rtt {
  import opened Machine

  const RXTMIN: real := 2.0
  const RXTMAX: real := 60.0
  const MAXNREXMT: int := 3

  datatype Rtt = Rtt(rtt: real, srtt: real, rttvar: real, rto: real, nrexmt: int, base: int)

  function MinMax(rto: real): (r: real)
    ensures RXTMIN <= r <= RXTMAX
  {
    if rto < RXTMIN then RXTMIN else if rto > RXTMAX then RXTMAX else rto
  }

  function Calc(srtt: real, rttvar: real): real {
    srtt + 4.0 * rttvar
  }

  /** `rtt_init`: the base is the current second, in 32 bits; the retransmission count is not touched. */
  function InitRtt(r: Rtt, now: nat): Rtt {
    Rtt(0.0, 0.0, 0.75, MinMax(Calc(0.0, 0.75)), r.nrexmt, (now / 1000) % WORD)
  }

  /** `rtt_ts`: milliseconds since the base second, in 32 bits. */
  function Ts(base: int, now: nat): (ts: nat)
    ensures ts < WORD
  {
    ((now / 1000 - base) * 1000 + now % 1000) % WORD
  }

  function NewPack(r: Rtt): Rtt {
    r.(nrexmt := 0)
  }

  /** `rtt_start`: the alarm in whole seconds. */
  function Start(r: Rtt): int {
    (r.rto + 0.5).Floor
  }

  function Abs(x: real): real {
    if x < 0.0 then -x else x
  }

  /** `rtt_stop`: Jacobson's update with gains 1/8 and 1/4. */
  function Stop(r: Rtt, ms: nat): Rtt {
    var rtt := ms as real / 1000.0;
    var delta := rtt - r.srtt;
    var srtt := r.srtt + delta / 8.0;
    var rttvar := r.rttvar + (Abs(delta) - r.rttvar) / 4.0;
    Rtt(rtt, srtt, rttvar, MinMax(Calc(srtt, rttvar)), r.nrexmt, r.base)
  }

  /** `rtt_timeout`: back off; the caller gives up when the count passes the limit. */
  function Timeout(r: Rtt): Rtt {
    r.(rto := r.rto * 2.0, nrexmt := r.nrexmt + 1)
  }

  predicate GivesUp(r: Rtt) {
    r.nrexmt > MAXNREXMT
  }

  /** The structure `rtt_info` itself, updated in place. */
  class RttInfo {
    var rtt: real
    var srtt: real
    var rttvar: real
    var rto: real
    var nrexmt: int
    var base: int

    function Val(): Rtt
      reads this
    {
      Rtt(rtt, srtt, rttvar, rto, nrexmt, base)
    }

    /** Static storage, all zero. */
    constructor ()
      ensures Val() == Rtt(0.0, 0.0, 0.0, 0.0, 0, 0)
    {
      rtt, srtt, rttvar, rto, nrexmt, base := 0.0, 0.0, 0.0, 0.0, 0, 0;
    }

    method InitAt(now: nat)
      modifies this
      ensures Val() == InitRtt(old(Val()), now)
    {
      base := (now / 1000) % WORD;
      rtt, srtt, rttvar := 0.0, 0.0, 0.75;
      rto := MinMax(Calc(srtt, rttvar));
    }

    method NewPacket()
      modifies this`nrexmt
      ensures Val() == NewPack(old(Val()))
    {
      nrexmt := 0;
    }

    method StopAfter(ms: nat)
      modifies this
      ensures Val() == Stop(old(Val()), ms)
    {
      rtt := ms as real / 1000.0;
      var delta := rtt - srtt;
      srtt := srtt + delta / 8.0;
      if delta < 0.0 {
        delta := -delta;
      }
      rttvar := rttvar + (delta - rttvar) / 4.0;
      rto := MinMax(Calc(srtt, rttvar));
    }

    method TimedOut() returns (rc: int)
      modifies this`rto, this`nrexmt
      ensures Val() == Timeout(old(Val()))
      ensures rc == if GivesUp(Val()) then -1 else 0
    {
      rto := rto * 2.0;
      nrexmt := nrexmt + 1;
      rc := if nrexmt > MAXNREXMT then -1 else 0;
    }
  }

  // ---- what the estimator keeps ----

  function Times(x: real, y: real): real {
    x * y
  }

  /** Clamping picks the point of [2, 60] nearest to the value. */
  lemma MinMaxIsNearest(rto: real, x: real)
    requires RXTMIN <= x <= RXTMAX
    ensures RXTMIN <= MinMax(rto) <= RXTMAX
    ensures Abs(MinMax(rto) - rto) <= Abs(x - rto)
  {}

  /** Both estimators lie in [0, m]. */
  predicate Within(r: Rtt, m: real) {
    0.0 <= r.srtt <= m && 0.0 <= r.rttvar <= m
  }

  lemma StopWithin(r: Rtt, ms: nat, m: real)
    requires Within(r, m) && ms as real / 1000.0 <= m
    ensures Within(Stop(r, ms), m)
  {
    var rtt := ms as real / 1000.0;
    var r' := Stop(r, ms);
    var delta := rtt - r.srtt;
    assert 8.0 * r'.srtt == 7.0 * r.srtt + rtt;
    assert 4.0 * r'.rttvar == 3.0 * r.rttvar + Abs(delta);
    assert 0.0 <= Abs(delta) <= m;
  }

  function Doublings(n: int): (p: real)
    ensures p > 0.0
  {
    if n <= 0 then 1.0 else 2.0 * Doublings(n - 1)
  }

  /** The timeout is the clamped srtt + 4 rttvar, doubled once per retransmission. */
  predicate BackedOff(r: Rtt) {
    r.rto == Times(MinMax(Calc(r.srtt, r.rttvar)), Doublings(r.nrexmt))
  }

  lemma TimeoutBacksOff(r: Rtt)
    requires 0 <= r.nrexmt && BackedOff(r)
    ensures BackedOff(Timeout(r))
  {
    var b, d := MinMax(Calc(r.srtt, r.rttvar)), Doublings(r.nrexmt);
    assert Doublings(r.nrexmt + 1) == 2.0 * d;
    assert Times(b, d) * 2.0 == Times(b, 2.0 * d);
  }

  function Gap(x: real, y: real): real {
    Abs(x - y)
  }

  /** `b` is the point of [2, 60] nearest to `c`. */
  ghost predicate Nearest(b: real, c: real) {
    2.0 <= b <= 60.0 && forall x :: 2.0 <= x <= 60.0 ==> Gap(b, c) <= Gap(x, c)
  }

  /** Undoing the doublings gives the point of [2, 60] nearest to srtt + 4 rttvar. */
  lemma BackedOffIs(r: Rtt) returns (b: real)
    requires BackedOff(r)
    ensures r.rto == Times(b, Doublings(r.nrexmt)) && Nearest(b, r.srtt + 4.0 * r.rttvar)
    ensures 2.0 * Doublings(r.nrexmt) <= r.rto <= 60.0 * Doublings(r.nrexmt)
  {
    hide Times, Nearest;
    b := MinMax(Calc(r.srtt, r.rttvar));
    ClampIsNearest(Calc(r.srtt, r.rttvar));
    Scaled(b, Doublings(r.nrexmt));
  }

  lemma ClampIsNearest(c: real)
    ensures Nearest(MinMax(c), c)
  {
    forall x | 2.0 <= x <= 60.0 ensures Gap(MinMax(c), c) <= Gap(x, c) { MinMaxIsNearest(c, x); }
  }

  lemma NotNegative(x: real, y: real)
    requires x >= 0.0 && y >= 0.0
    ensures x * y >= 0.0
  {}

  lemma Scaled(b: real, d: real)
    requires 2.0 <= b <= 60.0 && d > 0.0
    ensures 2.0 * d <= Times(b, d) <= 60.0 * d
  {
    var lo, hi := b - 2.0, 60.0 - b;
    NotNegative(lo, d);
    NotNegative(hi, d);
    assert b * d == lo * d + 2.0 * d && 60.0 * d == hi * d + b * d;
  }

  lemma DoublingsAre()
    ensures Doublings(0) == 1.0 && Doublings(1) == 2.0 && Doublings(2) == 4.0 && Doublings(3) == 8.0
  {
    assert Doublings(2) == 2.0 * Doublings(1) && Doublings(3) == 2.0 * Doublings(2);
  }

  /** The alarm is between 2 and 480 seconds, so it is never off. */
  lemma AlarmRange(r: Rtt)
    requires 0 <= r.nrexmt <= MAXNREXMT && BackedOff(r)
    ensures 2 <= Start(r) <= 480
  {
    DoublingsAre();
    hide Times;
    Scaled(MinMax(Calc(r.srtt, r.rttvar)), Doublings(r.nrexmt));
  }

  /** The alarm is the timeout rounded to the nearest second, halves up. */
  lemma StartRounds(r: Rtt)
    ensures Start(r) as real - 0.5 <= r.rto < Start(r) as real + 0.5
  {}

  // ---- what the update rule does ----

  function Power(b: real, n: nat): real {
    if n == 0 then 1.0 else b * Power(b, n - 1)
  }

  /** The same sample over and over. */
  function StopTimes(r: Rtt, ms: nat, n: nat): Rtt {
    if n == 0 then r else Stop(StopTimes(r, ms, n - 1), ms)
  }

  lemma {:induction false} PowerPositive(b: real, n: nat)
    requires b > 0.0
    ensures Power(b, n) > 0.0
  {
    if n == 0 {
    } else {
      PowerPositive(b, n - 1);
      assert b * Power(b, n - 1) > 0.0;
    }
  }

  lemma AbsScaled(a: real, d: real)
    requires a > 0.0
    ensures Abs(Times(a, d)) == Times(a, Abs(d))
  {
    if d < 0.0 {
      assert a * d < 0.0;
      assert a * -d == -(a * d);
    } else {
      assert a * d >= 0.0;
    }
  }

  lemma Associates(c: real, a: real, d: real, ca: real)
    requires ca == c * a
    ensures Times(ca, d) == c * Times(a, d)
  {
    assert (c * a) * d == c * (a * d);
  }

  /** One more sample x, when srtt is off it by `off`. */
  lemma StopOnce(r: Rtt, ms: nat, off: real)
    requires r.srtt == ms as real / 1000.0 - off
    ensures Stop(r, ms).srtt == ms as real / 1000.0 - 7.0 / 8.0 * off
    ensures Stop(r, ms).rttvar == 3.0 / 4.0 * r.rttvar + 1.0 / 4.0 * Abs(off)
  {}

  /**
    Gains 1/8 and 1/4, by their effect: after n equal samples x the estimate has closed in on x by
    (7/8)^n, and the deviation follows with (3/4)^n.
  */
  lemma {:induction false} EqualSamples(r: Rtt, ms: nat, n: nat)
    ensures var x := ms as real / 1000.0; var d := x - r.srtt;
      && StopTimes(r, ms, n).srtt == x - Times(Power(7.0 / 8.0, n), d)
      && StopTimes(r, ms, n).rttvar
         == 2.0 * Times(Power(7.0 / 8.0, n), Abs(d)) + Times(Power(3.0 / 4.0, n), r.rttvar - 2.0 * Abs(d))
  {
    hide *;
    var x := ms as real / 1000.0;
    var d := x - r.srtt;
    var w := r.rttvar - 2.0 * Abs(d);
    var a', b' := Power(7.0 / 8.0, n), Power(3.0 / 4.0, n);
    if n == 0 {
      NoSamples(r, ms);
      One(a', d);
      One(a', Abs(d));
      One(b', w);
    } else {
      var a, b, before := Power(7.0 / 8.0, n - 1), Power(3.0 / 4.0, n - 1), StopTimes(r, ms, n - 1);
      OneMore(r, ms, n);
      EqualSamples(r, ms, n - 1);
      PowerPositive(7.0 / 8.0, n - 1);
      AbsScaled(a, d);
      var off, off' := Times(a, d), Times(a', d);
      EqualStep(before, ms, off, Times(a, Abs(d)), Times(b, w), off', Times(a', Abs(d)), Times(b', w)) by {
        Associates(7.0 / 8.0, a, d, a');
        Associates(7.0 / 8.0, a, Abs(d), a');
        Associates(3.0 / 4.0, b, w, b');
      }
    }
  }

  lemma NoSamples(r: Rtt, ms: nat)
    ensures Power(7.0 / 8.0, 0) == 1.0 && Power(3.0 / 4.0, 0) == 1.0 && StopTimes(r, ms, 0) == r
  {}

  lemma OneMore(r: Rtt, ms: nat, n: nat)
    requires n > 0
    ensures Power(7.0 / 8.0, n) == 7.0 / 8.0 * Power(7.0 / 8.0, n - 1)
    ensures Power(3.0 / 4.0, n) == 3.0 / 4.0 * Power(3.0 / 4.0, n - 1)
    ensures StopTimes(r, ms, n) == Stop(StopTimes(r, ms, n - 1), ms)
  {}

  lemma One(p: real, d: real)
    requires p == 1.0
    ensures Times(p, d) == d
  {}

  lemma EqualStep(r: Rtt, ms: nat, off: real, absOff: real, rest: real, off': real, absOff': real, rest': real)
    requires r.srtt == ms as real / 1000.0 - off && r.rttvar == 2.0 * absOff + rest && Abs(off) == absOff
    requires off' == 7.0 / 8.0 * off && absOff' == 7.0 / 8.0 * absOff && rest' == 3.0 / 4.0 * rest
    ensures Stop(r, ms).srtt == ms as real / 1000.0 - off' && Stop(r, ms).rttvar == 2.0 * absOff' + rest'
  {
    hide Stop, Abs;
    StopOnce(r, ms, off);
  }

  /** A fresh estimator starts at 3 seconds; a first sample of 8 s takes it to 11.25 s and an alarm of 11. */
  lemma FirstTimeouts(r: Rtt, now: nat)
    ensures var r0 := InitRtt(r, now); var r1 := Stop(r0, 8000);
      && r0.srtt == 0.0 && r0.rttvar == 0.75 && r0.rto == 3.0 && Start(r0) == 3
      && r1.srtt == 1.0 && r1.rttvar == 2.5625 && r1.rto == 11.25 && Start(r1) == 11
  {}

  /** A timestamp counts the milliseconds since the base second. */
  lemma TsCounts(base: nat, now: nat)
    requires now >= 1000 * base
    ensures Ts(base, now) == (now - 1000 * base) % 0x1_0000_0000
  {}

  /** Timestamp differences measure elapsed time modulo the word, whatever the base. */
  lemma TsElapsed(base: int, t0: nat, t1: nat)
    ensures (Ts(base, t1) - Ts(base, t0)) % WORD == (t1 - t0) % WORD
  {
    var x0, x1 := (t0 / 1000 - base) * 1000 + t0 % 1000, (t1 / 1000 - base) * 1000 + t1 % 1000;
    assert x1 - x0 == t1 - t0;
    assert x0 == Ts(base, t0) + (x0 / WORD) * WORD && x1 == Ts(base, t1) + (x1 / WORD) * WORD;
    Wraps(Ts(base, t1) - Ts(base, t0), x1 / WORD - x0 / WORD, WORD);
  }
}
