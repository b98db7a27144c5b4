/** The round-trip estimator of `ikcp_update_ack`, on 32-bit signed words. */
module Rtt {
  import opened Words

  const RTO_MAX: int := 60000

  /** `rx_srtt`, `rx_rttval` and `rx_rto`. */
  datatype Estimate = Estimate(srtt: int, rttval: int, rto: int)

  /** `rx_rto` from the smoothed values; the maximum and the bounds compare unsigned words. */
  function Timeout(srtt: int, rttval: int, interval: u32, minRto: u32): u32 {
    Min(Max(minRto, Wrap(srtt + Max(interval, Wrap(4 * rttval)))), RTO_MAX)
  }

  /** The mean deviation, with every 32-bit intermediate wrapped as the machine would. */
  function Deviation(rttval: int, srtt: int, rtt: int): int {
    var diff := Signed32(rtt - srtt);
    Signed32(TruncDiv(Signed32(3 * rttval) + (if diff < 0 then -diff else diff), 4))
  }

  function Smooth(srtt: int, rtt: int): int {
    Max(TruncDiv(Signed32(Signed32(7 * srtt) + rtt), 8), 1)
  }

  /** One sample. */
  function Update(e: Estimate, rtt: int, interval: u32, minRto: u32): Estimate {
    var rttval := if e.srtt == 0 then TruncDiv(rtt, 2) else Deviation(e.rttval, e.srtt, rtt);
    var srtt := if e.srtt == 0 then rtt else Smooth(e.srtt, rtt);
    Estimate(srtt, rttval, Timeout(srtt, rttval, interval, minRto))
  }

  function Abs(x: int): int { if x < 0 then -x else x }

  /** The estimator on unbounded numbers, in the shape of section 2 of RFC 6298: gains of
      1/4 and 1/8, four deviations of slack, at most a minute. */
  function Ideal(e: Estimate, rtt: nat, interval: u32, minRto: u32): Estimate {
    var rttval := if e.srtt == 0 then rtt / 2 else (3 * e.rttval + Abs(rtt - e.srtt)) / 4;
    var srtt := if e.srtt == 0 then rtt else Max((7 * e.srtt + rtt) / 8, 1);
    Estimate(srtt, rttval, Min(Max(minRto, srtt + Max(interval, 4 * rttval)), 60000))
  }

  predicate Within(e: Estimate, bound: int) {
    0 <= e.srtt <= bound && 0 <= e.rttval <= bound
  }

  function Run(e: Estimate, samples: seq<int>, interval: u32, minRto: u32): Estimate {
    if samples == [] then e
    else Update(Run(e, samples[..|samples| - 1], interval, minRto), samples[|samples| - 1], interval, minRto)
  }

  function IdealRun(e: Estimate, samples: seq<int>, interval: u32, minRto: u32): Estimate
    requires forall i :: 0 <= i < |samples| ==> samples[i] >= 0
  {
    if samples == [] then e
    else Ideal(IdealRun(e, samples[..|samples| - 1], interval, minRto), samples[|samples| - 1], interval, minRto)
  }

  /** While no sample exceeds `r` milliseconds and 8r fits a signed word, nothing wraps: the
      machine estimator is the ideal one over the whole run, both averages stay within the
      largest sample, and the timeout stays between its bounds. */
  lemma {:induction false} RunIsIdeal(samples: seq<int>, r: int, interval: u32, minRto: u32)
    requires forall i :: 0 <= i < |samples| ==> 0 <= samples[i] <= r
    requires 8 * Max(r, 1) < TWO31 && interval <= 5000 && minRto <= 60000
    ensures var e := Run(Estimate(0, 0, 200), samples, interval, minRto);
            && e == IdealRun(Estimate(0, 0, 200), samples, interval, minRto)
            && Within(e, Max(r, 1))
            && (samples != [] ==> minRto <= e.rto <= 60000)
  {
    if samples != [] {
      var last := |samples| - 1;
      RunIsIdeal(samples[..last], r, interval, minRto);
      var e := Run(Estimate(0, 0, 200), samples[..last], interval, minRto);
      UpdateIsIdeal(e, samples[last], Max(r, 1), interval, minRto);
    }
  }

  lemma UpdateIsIdeal(e: Estimate, rtt: int, bound: int, interval: u32, minRto: u32)
    requires Within(e, bound) && 0 <= rtt <= bound && 1 <= bound && 8 * bound < TWO31
    requires interval <= 5000 && minRto <= 60000
    ensures Update(e, rtt, interval, minRto) == Ideal(e, rtt, interval, minRto)
    ensures Within(Update(e, rtt, interval, minRto), bound)
  {
    if e.srtt != 0 {
      DeviationExact(e.rttval, e.srtt, rtt, bound);
      SmoothExact(e.srtt, rtt, bound);
    }
    var e' := Ideal(e, rtt, interval, minRto);
    TimeoutExact(e'.srtt, e'.rttval, bound, interval, minRto);
  }

  lemma DeviationExact(rttval: int, srtt: int, rtt: int, bound: int)
    requires 0 <= rttval <= bound && 0 <= srtt <= bound && 0 <= rtt <= bound && 8 * bound < TWO31
    ensures Deviation(rttval, srtt, rtt) == (3 * rttval + Abs(rtt - srtt)) / 4 <= bound
    ensures Deviation(rttval, srtt, rtt) >= 0
  {
    SignedSmall(rtt - srtt);
    SignedSmall(3 * rttval);
    SignedSmall((3 * rttval + Abs(rtt - srtt)) / 4);
  }

  lemma SmoothExact(srtt: int, rtt: int, bound: int)
    requires 0 <= srtt <= bound && 0 <= rtt <= bound && 1 <= bound && 8 * bound < TWO31
    ensures 0 <= Smooth(srtt, rtt) == Max((7 * srtt + rtt) / 8, 1) <= bound
  {
    SignedSmall(7 * srtt);
    SignedSmall(7 * srtt + rtt);
  }

  lemma TimeoutExact(srtt: int, rttval: int, bound: int, interval: u32, minRto: u32)
    requires 0 <= srtt <= bound && 0 <= rttval <= bound && 8 * bound < TWO31 && interval <= 5000
    ensures Timeout(srtt, rttval, interval, minRto) == Min(Max(minRto, srtt + Max(interval, 4 * rttval)), 60000)
  {
    WrapSmall(4 * rttval);
    WrapSmall(srtt + Max(interval, 4 * rttval));
  }

  /** Whatever bytes arrive, the timeout never leaves its bounds. */
  lemma UpdateTimeoutBounds(e: Estimate, rtt: int, interval: u32, minRto: u32)
    requires minRto <= 60000
    ensures minRto <= Update(e, rtt, interval, minRto).rto <= 60000
  {
  }
}
