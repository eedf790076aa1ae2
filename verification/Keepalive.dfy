/** Keepalive timeouts: smoothed round-trip times in fixed point (ais/kalive.go), after section 2 of
    RFC 6298. Times are in nanoseconds. */
module Keepalives {

  type NodeId = string

  newtype int64 = x: int | -0x8000_0000_0000_0000 <= x < 0x8000_0000_0000_0000

  const MAX_INT64: int := 0x7fff_ffff_ffff_ffff

  datatype Stats = Stats(srtt: int64, rttvar: int64, timeout: int64)

  function Abs(x: int): nat {
    if x < 0 then -x else x
  }

  function Clamp(x: int, lo: int, hi: int): int {
    if x > hi then hi else if x < lo then lo else x
  }

  // ---------------------------------------------------------------- rounded smoothing

  /** `weight` parts in 1000 of the old value, the rest of the new one, rounded to nearest. */
  function Smooth(weight: int, old_: int, new_: int): int {
    (weight * old_ + (1000 - weight) * new_ + 500) / 1000
  }

  lemma SmoothStays(weight: int, a: int, b: int, bound: int)
    requires 0 <= weight <= 1000 && 0 <= a <= bound && 0 <= b <= bound
    ensures 0 <= Smooth(weight, a, b) <= bound
    ensures 0 <= weight * a + (1000 - weight) * b <= 1000 * bound
  {
    assert weight * a <= weight * bound && (1000 - weight) * b <= (1000 - weight) * bound;
    assert weight * bound + (1000 - weight) * bound == 1000 * bound;
    assert weight * a >= 0 && (1000 - weight) * b >= 0;
  }

  /** The largest intermediate results of one update. */
  function SrttSum(srtt: int, next: int): int {
    (1000 - 125) * srtt + 125 * next + 500
  }

  function RttvarSum(rttvar: int, diff: int): int {
    (1000 - 250) * rttvar + 250 * diff + 500
  }

  /** The averages are these sums, divided. */
  lemma SumsAre(srtt: int, rttvar: int, next: int, diff: int)
    ensures Smooth(875, srtt, next) == SrttSum(srtt, next) / 1000
    ensures Smooth(750, rttvar, diff) == RttvarSum(rttvar, diff) / 1000
  {
  }

  /** No update of values up to `bound` overflows if and only if this product does not. */
  lemma NoOverflowIff(bound: nat)
    ensures 1000 * bound + 500 <= MAX_INT64 <==>
              && (forall a, b :: 0 <= a <= bound && 0 <= b <= bound ==> SrttSum(a, b) <= MAX_INT64)
              && (forall a, b :: 0 <= a <= bound && 0 <= b <= bound ==> RttvarSum(a, b) <= MAX_INT64)
  {
    assert SrttSum(bound, bound) == 1000 * bound + 500;
  }

  class Keepalive {
    const maxKeepalive: int64
    ghost const bound: int64  // on the samples
    var stats: map<NodeId, Stats>

    ghost predicate Valid()
      reads this
    {
      && 0 <= maxKeepalive <= bound && 1000 * (bound as int) + 500 <= MAX_INT64
      && forall id :: id in stats ==> InRange(stats[id])
    }

    ghost predicate InRange(s: Stats) {
      0 <= s.srtt <= bound && 0 <= s.rttvar <= bound && maxKeepalive / 2 <= s.timeout <= maxKeepalive
    }

    constructor (maxKeepalive: int64, ghost bound: int64)
      requires 0 <= maxKeepalive <= bound && 1000 * (bound as int) + 500 <= MAX_INT64
      ensures Valid() && stats == map[] && this.maxKeepalive == maxKeepalive && this.bound == bound
    {
      this.maxKeepalive, this.bound, stats := maxKeepalive, bound, map[];
    }

    method TimeoutStats(sid: NodeId) returns (s: Stats)
      requires Valid()
      modifies this
      ensures Valid() && sid in stats && s == stats[sid]
      ensures stats == if sid in old(stats) then old(stats) else old(stats)[sid := Stats(maxKeepalive, maxKeepalive / 2, maxKeepalive)]
    {
      if sid in stats {
        return stats[sid];
      }
      s := Stats(maxKeepalive, maxKeepalive / 2, maxKeepalive);
      stats := stats[sid := s];
    }

    /** No computation leaves 64 bits, the averages stay within the bound of the samples, and the
        timeout stays between half the maximum and the maximum. */
    method UpdateTimeoutFor(sid: NodeId, d: int64) returns (timeout: int64)
      requires Valid() && 0 <= d <= bound
      modifies this
      ensures Valid() && sid in stats && timeout == stats[sid].timeout && maxKeepalive / 2 <= timeout <= maxKeepalive
      ensures stats - {sid} == old(stats) - {sid}
      ensures var was := if sid in old(stats) then old(stats)[sid] else Stats(maxKeepalive, maxKeepalive / 2, maxKeepalive);
              && Averages(stats[sid].srtt as int, stats[sid].rttvar as int) == Updated(Averages(was.srtt as int, was.rttvar as int), d as int)
              && timeout as int == Clamp(stats[sid].srtt as int + 4 * (stats[sid].rttvar as int), maxKeepalive as int / 2, maxKeepalive as int)
    {
      var ts := TimeoutStats(sid);
      var srtt, rttvar := Average(ts, d);
      timeout := srtt + 4 * rttvar;
      if maxKeepalive < timeout {
        timeout := maxKeepalive;
      }
      if timeout < maxKeepalive / 2 {
        timeout := maxKeepalive / 2;
      }
      stats := stats[sid := Stats(srtt, rttvar, timeout)];
    }

    method Average(ts: Stats, d: int64) returns (srtt: int64, rttvar: int64)
      requires Valid() && InRange(ts) && 0 <= d <= bound
      ensures rttvar as int == Smooth(750, ts.rttvar as int, Abs(ts.srtt as int - d as int))
      ensures srtt as int == Smooth(875, ts.srtt as int, d as int)
      ensures 0 <= srtt <= bound && 0 <= rttvar <= bound
    {
      var diff := ts.srtt - d;
      if diff < 0 {
        diff := -diff;
      }
      SmoothStays(750, ts.rttvar as int, diff as int, bound as int);
      SmoothStays(875, ts.srtt as int, d as int, bound as int);
      rttvar := (1000 - 250) * ts.rttvar + 250 * diff;
      rttvar := DivRound(rttvar, 1000);
      srtt := (1000 - 125) * ts.srtt + 125 * d;
      srtt := DivRound(srtt, 1000);
    }
  }

  function DivRound(a: int64, b: int64): int64
    requires 0 <= a && 0 < b && a as int + b as int / 2 <= MAX_INT64
  {
    (a + b / 2) / b
  }

  // ---------------------------------------------------------------- a constant sample

  /** What becomes of a difference to the sample. */
  function Shrink(weight: int, e: int): int {
    (weight * e + 500) / 1000
  }

  lemma SmoothShrinks(weight: int, a: int, b: int)
    ensures Smooth(weight, a, b) - b == Shrink(weight, a - b)
  {
    assert weight * a + (1000 - weight) * b + 500 == weight * (a - b) + 500 + 1000 * b;
  }

  /** The error of the smoothed time never grows nor changes sign, and it shrinks if and only if it
      is outside [-3, 4]. */
  lemma SrttErrorShrinks(e: int)
    ensures Abs(Shrink(875, e)) <= Abs(e)
    ensures Abs(Shrink(875, e)) < Abs(e) <==> !(-3 <= e <= 4)
    ensures e > 4 ==> 4 <= Shrink(875, e)
    ensures e < -3 ==> Shrink(875, e) <= -3
    ensures -3 <= e <= 4 ==> Shrink(875, e) == e
  {
  }

  lemma RttvarErrorShrinks(e: int)
    ensures Abs(Shrink(750, e)) <= Abs(e)
    ensures Abs(Shrink(750, e)) < Abs(e) <==> !(-1 <= e <= 2)
    ensures e > 2 ==> 2 <= Shrink(750, e)
    ensures e < -1 ==> Shrink(750, e) <= -1
    ensures -1 <= e <= 2 ==> Shrink(750, e) == e
  {
  }

  function ErrorAfter(weight: int, e: int, n: nat): int
    decreases n
  {
    if n == 0 then e else ErrorAfter(weight, Shrink(weight, e), n - 1)
  }

  /** Samples that stay the same bring the smoothed time to within 4 ns above or 3 ns below them, for
      good, after at most as many samples as the error was nanoseconds. */
  lemma {:induction false} SrttConverges(e: int, n: nat)
    requires n >= Abs(e)
    ensures ErrorAfter(875, e, n) == Clamp(e, -3, 4)
    decreases n
  {
    SrttErrorShrinks(e);
    if n > 0 {
      if -3 <= e <= 4 {
        Stuck(875, e, n);
      } else {
        SrttConverges(Shrink(875, e), n - 1);
      }
    }
  }

  /** Likewise the variation, once the smoothed time stands still. */
  lemma {:induction false} RttvarConverges(e: int, n: nat)
    requires n >= Abs(e)
    ensures ErrorAfter(750, e, n) == Clamp(e, -1, 2)
    decreases n
  {
    RttvarErrorShrinks(e);
    if n > 0 {
      if -1 <= e <= 2 {
        Stuck(750, e, n);
      } else {
        RttvarConverges(Shrink(750, e), n - 1);
      }
    }
  }

  lemma {:induction false} Stuck(weight: int, e: int, n: nat)
    requires Shrink(weight, e) == e
    ensures ErrorAfter(weight, e, n) == e
  {
    if n > 0 {
      Stuck(weight, e, n - 1);
    }
  }

  /** The smoothed times that `n` equal samples give. */
  function SrttAfter(srtt: int, sample: int, n: nat): int
    decreases n
  {
    if n == 0 then srtt else SrttAfter(Smooth(875, srtt, sample), sample, n - 1)
  }

  lemma {:induction false} ConstantSample(srtt: int, sample: int, n: nat)
    requires n >= Abs(srtt - sample)
    ensures SrttAfter(srtt, sample, n) == sample + Clamp(srtt - sample, -3, 4)
  {
    SrttErrors(srtt, sample, n);
    SrttConverges(srtt - sample, n);
  }

  lemma {:induction false} SrttErrors(srtt: int, sample: int, n: nat)
    ensures SrttAfter(srtt, sample, n) - sample == ErrorAfter(875, srtt - sample, n)
    decreases n
  {
    if n > 0 {
      SmoothShrinks(875, srtt, sample);
      SrttErrors(Smooth(875, srtt, sample), sample, n - 1);
    }
  }

  // ---------------------------------------------------------------- the timeout of a constant sample

  datatype Averages = Averages(srtt: int, rttvar: int)

  /** One update, and `n` of them with equal samples. */
  function Updated(a: Averages, sample: int): Averages {
    Averages(Smooth(875, a.srtt, sample), Smooth(750, a.rttvar, Abs(a.srtt - sample)))
  }

  function UpdatedFor(a: Averages, sample: int, n: nat): Averages
    decreases n
  {
    if n == 0 then a else UpdatedFor(Updated(a, sample), sample, n - 1)
  }

  ghost predicate Within(a: Averages, bound: int) {
    0 <= a.srtt <= bound && 0 <= a.rttvar <= bound
  }

  lemma {:induction false} UpdatedTwice(a: Averages, sample: int, n: nat, k: nat)
    ensures UpdatedFor(a, sample, n + k) == UpdatedFor(UpdatedFor(a, sample, n), sample, k)
    decreases n
  {
    if n > 0 {
      UpdatedTwice(Updated(a, sample), sample, n - 1, k);
    }
  }

  lemma {:induction false} UpdatedSrtt(a: Averages, sample: int, bound: int, n: nat)
    requires Within(a, bound) && 0 <= sample <= bound
    ensures UpdatedFor(a, sample, n).srtt == SrttAfter(a.srtt, sample, n) && Within(UpdatedFor(a, sample, n), bound)
    decreases n
  {
    if n > 0 {
      SmoothStays(875, a.srtt, sample, bound);
      SmoothStays(750, a.rttvar, Abs(a.srtt - sample), bound);
      UpdatedSrtt(Updated(a, sample), sample, bound, n - 1);
    }
  }

  /** Once the smoothed time stands still, the variation goes to its distance from the sample. */
  lemma {:induction false} UpdatedRttvar(a: Averages, sample: int, n: nat)
    requires Smooth(875, a.srtt, sample) == a.srtt
    ensures UpdatedFor(a, sample, n).srtt == a.srtt
    ensures UpdatedFor(a, sample, n).rttvar - Abs(a.srtt - sample) == ErrorAfter(750, a.rttvar - Abs(a.srtt - sample), n)
    decreases n
  {
    if n > 0 {
      SmoothShrinks(750, a.rttvar, Abs(a.srtt - sample));
      UpdatedRttvar(Updated(a, sample), sample, n - 1);
    }
  }

  /** The smoothed time has come as close as it gets. */
  lemma SrttStands(a: Averages, sample: int, bound: int)
    requires Within(a, bound) && 0 <= sample <= bound
    ensures var mid := UpdatedFor(a, sample, Abs(a.srtt - sample));
            && Within(mid, bound) && sample - 3 <= mid.srtt <= sample + 4
            && Smooth(875, mid.srtt, sample) == mid.srtt
  {
    var first := Abs(a.srtt - sample);
    UpdatedSrtt(a, sample, bound, first);
    ConstantSample(a.srtt, sample, first);
    SmoothShrinks(875, SrttAfter(a.srtt, sample, first), sample);
    SrttErrorShrinks(SrttAfter(a.srtt, sample, first) - sample);
  }

  lemma SumAround(srtt: int, rttvar: int, sample: int)
    requires sample - 3 <= srtt <= sample + 4 && 0 <= rttvar && -1 <= rttvar - Abs(srtt - sample) <= 2
    ensures sample - 1 <= srtt + 4 * rttvar <= sample + 28
  {
  }

  lemma RttvarStands(a: Averages, sample: int, bound: int, n: nat)
    requires Within(a, bound) && 0 <= sample <= bound && sample - 3 <= a.srtt <= sample + 4 && n >= bound
    requires Smooth(875, a.srtt, sample) == a.srtt
    ensures Around(UpdatedFor(a, sample, n), sample)
  {
    UpdatedRttvar(a, sample, n);
    UpdatedSrtt(a, sample, bound, n);
    RttvarConverges(a.rttvar - Abs(a.srtt - sample), n);
    SumAround(a.srtt, UpdatedFor(a, sample, n).rttvar, sample);
  }

  /** The smoothed time and four times the variation add up to the sample, less 1 ns at most and plus 28 ns
      at most. */
  ghost predicate Around(a: Averages, sample: int) {
    sample - 1 <= a.srtt + 4 * a.rttvar <= sample + 28
  }

  /** After enough equal samples, the timeout before it is limited is the sample, less 1 ns at most and plus
      28 ns at most. */
  lemma TimeoutSettles(a: Averages, sample: int, bound: int, n: nat)
    requires Within(a, bound) && 0 <= sample <= bound && n >= Abs(a.srtt - sample) + bound
    ensures Around(UpdatedFor(a, sample, n), sample)
  {
    var first := Abs(a.srtt - sample);
    var mid := UpdatedFor(a, sample, first);
    SrttStands(a, sample, bound);
    RttvarStands(mid, sample, bound, n - first);
    Continued(a, sample, first, n, mid);
  }

  lemma Continued(a: Averages, sample: int, first: nat, n: nat, mid: Averages)
    requires first <= n && mid == UpdatedFor(a, sample, first)
    ensures UpdatedFor(a, sample, n) == UpdatedFor(mid, sample, n - first)
  {
    UpdatedTwice(a, sample, first, n - first);
  }
}
