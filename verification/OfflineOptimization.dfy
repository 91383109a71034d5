// The work the TimeConversion constructor does once: the bisection that makes the
// two coefficients as inverse to each other as it can, and the search for the
// interval over which one online adjustment may be cached (timeconversion.cpp).

module OfflineOptimization {
  import opened Word
  import opened FixedPoint

  /** The time point on which the coefficients are optimised, about 146 years. */
  const LONG_UPTIME_NS: u64 := 0x4000_0000_0000_0000
  const FIRST_INTERVAL_NS: u64 := 128_000_000_000
  const INTERVAL_TRIES: nat := 9

  /** Ticks lost by an unadjusted round trip of tick with toTick corrected by delta. */
  function RoundTripLoss(toNs: Factor, toTick: Factor, tick: u64, delta: int): i64
  {
    Signed(Wrap64(tick - Convert(Convert(tick, toNs), toTick.Plus(delta))))
  }

  method ConvertBy(x: u64, tcf: Factor) returns (r: u64)
    ensures r == Convert(x, tcf)
  {
    r := Mul64x32d32(x, tcf.i, tcf.f);
  }

  method ComputeRoundTripError(toNs: Factor, toTick: Factor, tick: u64, delta: int) returns (loss: i64)
    ensures loss == RoundTripLoss(toNs, toTick, tick, delta)
  {
    var ns := ConvertBy(tick, toNs);
    var roundTrip := ConvertBy(ns, toTick.Plus(delta));
    loss := Signed(Wrap64(tick - roundTrip));
  }

  // ----- the bisection

  /** Integer division by two of C: towards zero. */
  function Half(x: int): int
  {
    if x >= 0 then x / 2 else -((-x) / 2)
  }

  /** The largest correction tried, 25 parts per million of the fractional part. */
  function MaxCorrection(toTick: Factor): int
  {
    toTick.f / 40_000
  }

  /** No correction in the range, and no conversion made with it, overflows. */
  predicate Tunable(toNs: Factor, toTick: Factor, tick: u64)
  {
    && toTick.f + MaxCorrection(toTick) < 0x1_0000_0000
    && tick < 0x8000_0000_0000_0000
    && Scale(tick, toNs.Scaled()) < 0x1_0000_0000_0000_0000
    && Scale(Scale(tick, toNs.Scaled()), toTick.Scaled() + MaxCorrection(toTick)) < 0x8000_0000_0000_0000
  }

  /** Within the range the loss is what it says, on true integers. */
  lemma LossIsTrue(toNs: Factor, toTick: Factor, tick: u64, delta: int)
    requires Tunable(toNs, toTick, tick) && Abs(delta) <= MaxCorrection(toTick)
    ensures 0 <= toTick.Scaled() + delta && RoundTripLoss(toNs, toTick, tick, delta) == tick - Scale(Scale(tick, toNs.Scaled()), toTick.Scaled() + delta)
  {
    PlusScaled(toTick, delta);
    var K, K' := toTick.Scaled(), toTick.Scaled() + delta;
    var ns := Scale(tick, toNs.Scaled());
    ScaleMonotoneFactor(ns, K', K + MaxCorrection(toTick));
    assert Convert(tick, toNs) == ns;
    var back := Convert(ns, toTick.Plus(delta));
    assert back == Scale(ns, K');
    SignedDifference(tick, back);
  }

  lemma PlusScaled(toTick: Factor, delta: int)
    requires toTick.f + MaxCorrection(toTick) < 0x1_0000_0000 && Abs(delta) <= MaxCorrection(toTick)
    ensures toTick.Plus(delta).Scaled() == toTick.Scaled() + delta
  {
  }

  /** A larger coefficient gives back more ticks. */
  lemma LossDecreases(toNs: Factor, toTick: Factor, tick: u64, d: int, e: int)
    requires Tunable(toNs, toTick, tick)
    requires Abs(d) <= MaxCorrection(toTick) && Abs(e) <= MaxCorrection(toTick) && d <= e
    ensures RoundTripLoss(toNs, toTick, tick, d) >= RoundTripLoss(toNs, toTick, tick, e)
  {
    LossIsTrue(toNs, toTick, tick, d);
    LossIsTrue(toNs, toTick, tick, e);
    ScaleMonotoneFactor(Scale(tick, toNs.Scaled()), toTick.Scaled() + d, toTick.Scaled() + e);
  }

  /** delta loses no more ticks than any other correction in the range. */
  ghost predicate Optimal(toNs: Factor, toTick: Factor, tick: u64, delta: int)
  {
    && Abs(delta) <= MaxCorrection(toTick)
    && forall d :: Abs(d) <= MaxCorrection(toTick) ==>
         Abs(RoundTripLoss(toNs, toTick, tick, delta)) <= Abs(RoundTripLoss(toNs, toTick, tick, d))
  }

  /** The two ends of the bisection when it stops bracket every better correction. */
  predicate Bracket(toNs: Factor, toTick: Factor, tick: u64, a: int, b: int)
  {
    && -MaxCorrection(toTick) <= b <= a <= MaxCorrection(toTick)
    && (RoundTripLoss(toNs, toTick, tick, a) >= 0 ==> a == MaxCorrection(toTick))
    && (RoundTripLoss(toNs, toTick, tick, b) < 0 ==> b == -MaxCorrection(toTick))
    && (a - b <= 1
        || (RoundTripLoss(toNs, toTick, tick, a) >= 0) == (RoundTripLoss(toNs, toTick, tick, b) >= 0))
  }

  lemma BracketHoldsOptimum(toNs: Factor, toTick: Factor, tick: u64, a: int, b: int)
    requires Tunable(toNs, toTick, tick) && Bracket(toNs, toTick, tick, a, b)
    ensures Optimal(toNs, toTick, tick,
              if Abs(RoundTripLoss(toNs, toTick, tick, a)) < Abs(RoundTripLoss(toNs, toTick, tick, b)) then a else b)
  {
    forall d | Abs(d) <= MaxCorrection(toTick)
      ensures Abs(RoundTripLoss(toNs, toTick, tick, a)) <= Abs(RoundTripLoss(toNs, toTick, tick, d))
           || Abs(RoundTripLoss(toNs, toTick, tick, b)) <= Abs(RoundTripLoss(toNs, toTick, tick, d))
    {
      LossDecreases(toNs, toTick, tick, b, a);
      if d >= a { LossDecreases(toNs, toTick, tick, a, d); } else { LossDecreases(toNs, toTick, tick, d, a); }
      if d >= b { LossDecreases(toNs, toTick, tick, b, d); } else { LossDecreases(toNs, toTick, tick, d, b); }
    }
  }

  /** The bisection always ends, and finds the best correction of the whole range. */
  method Bisect(toNs: Factor, toTick: Factor, tick: u64) returns (delta: int)
    ensures Abs(delta) <= MaxCorrection(toTick)
    ensures Tunable(toNs, toTick, tick) ==> Optimal(toNs, toTick, tick, delta)
  {
    var aDelta: int := toTick.f / 40_000;
    var bDelta := -aDelta;
    var aError := ComputeRoundTripError(toNs, toTick, tick, aDelta);
    var bError := ComputeRoundTripError(toNs, toTick, tick, bDelta);
    if Tunable(toNs, toTick, tick) { LossDecreases(toNs, toTick, tick, bDelta, aDelta); }
    if (aError >= 0) != (bError >= 0) {
      while true
        invariant -MaxCorrection(toTick) <= bDelta <= aDelta <= MaxCorrection(toTick)
        invariant aError == RoundTripLoss(toNs, toTick, tick, aDelta)
        invariant bError == RoundTripLoss(toNs, toTick, tick, bDelta)
        invariant Tunable(toNs, toTick, tick) ==> aError < 0 <= bError
        decreases aDelta - bDelta
      {
        var cDelta := Half(aDelta + bDelta);
        if cDelta == aDelta || cDelta == bDelta { break; }
        var cError := ComputeRoundTripError(toNs, toTick, tick, cDelta);
        if (aError >= 0) == (cError >= 0) {
          aDelta, aError := cDelta, cError;
        } else {
          bDelta, bError := cDelta, cError;
        }
      }
    }
    delta := if Abs(aError) < Abs(bError) then aDelta else bDelta;
    if Tunable(toNs, toTick, tick) { BracketHoldsOptimum(toNs, toTick, tick, aDelta, bDelta); }
  }

  /** tuned is ticks with the best correction for a long uptime. */
  ghost predicate Tuned(toNs: Factor, ticks: Factor, tuned: Factor)
  {
    exists delta: int ::
      && Abs(delta) <= MaxCorrection(ticks) && tuned == ticks.Plus(delta)
      && (Tunable(toNs, ticks, Convert(LONG_UPTIME_NS, ticks)) ==>
            Optimal(toNs, ticks, Convert(LONG_UPTIME_NS, ticks), delta))
  }

  // ----- the caching interval

  /** Halves the interval until an unadjusted round trip of it loses less than two ticks. */
  function SearchInterval(toNs: Factor, toTick: Factor, tick: u64, interval: u64, tries: nat): u64
    decreases tries
  {
    if tries == 0 || Abs(RoundTripLoss(toNs, toTick, tick, 0)) < 2 then interval / 2
    else SearchInterval(toNs, toTick, tick / 2, interval / 2, tries - 1)
  }

  function ChosenInterval(toNs: Factor, toTick: Factor): u64
  {
    SearchInterval(toNs, toTick, Convert(FIRST_INTERVAL_NS, toTick), FIRST_INTERVAL_NS, INTERVAL_TRIES)
  }

  method ChooseInterval(toNs: Factor, toTick: Factor) returns (interval: u64)
    ensures interval == ChosenInterval(toNs, toTick)
  {
    interval := FIRST_INTERVAL_NS;
    var tick := ConvertBy(interval, toTick);
    var i := 0;
    while i < INTERVAL_TRIES
      invariant 0 <= i <= INTERVAL_TRIES
      invariant ChosenInterval(toNs, toTick) == SearchInterval(toNs, toTick, tick, interval, INTERVAL_TRIES - i)
    {
      var loss := ComputeRoundTripError(toNs, toTick, tick, 0);
      if Abs(loss) < 2 { break; }
      tick := tick / 2;
      interval := interval / 2;
      i := i + 1;
    }
    interval := interval / 2;
  }

  lemma ScaleHalves(interval: nat, K: nat)
    requires interval % 2 == 0
    ensures Scale(interval / 2, K) == Scale(interval, K) / 2
  {
    var h := interval / 2;
    assert interval * K == 2 * (h * K);
    ScaleBounds(h, K);
    ScaleBounds(interval, K);
  }

  predicate SmallLoss(toNs: Factor, toTick: Factor, interval: nat)
    requires Scale(interval, toTick.Scaled()) < 0x1_0000_0000_0000_0000
  {
    Abs(RoundTripLoss(toNs, toTick, Scale(interval, toTick.Scaled()), 0)) < 2
  }

  /**
   * The interval is half of one over which a round trip loses less than two
   * ticks, or the shortest the search allows, if twice that loses two.
   */
  lemma {:induction false} SearchFinds(toNs: Factor, toTick: Factor, tick: u64, interval: u64, tries: nat, q: nat) returns (last: u64)
    requires tick == Scale(interval, toTick.Scaled()) && interval == q * Pow2(tries) && q > 0
    ensures SearchInterval(toNs, toTick, tick, interval, tries) == last / 2
    ensures last <= interval <= last * Pow2(tries) && Scale(last, toTick.Scaled()) <= tick
    ensures SmallLoss(toNs, toTick, last) || last * Pow2(tries) == interval
    ensures last * Pow2(tries) == interval || last * Pow2(tries) >= 2 * interval
    ensures last * Pow2(tries) == interval && tries > 0 ==>
      Scale(2 * last, toTick.Scaled()) <= tick && !SmallLoss(toNs, toTick, 2 * last)
    decreases tries
  {
    if tries == 0 || Abs(RoundTripLoss(toNs, toTick, tick, 0)) < 2 {
      last := interval;
      MulMono(interval, 1, interval, Pow2(tries));
      if tries > 0 { AboveItself(interval, q, Pow2(tries - 1)); }
    } else {
      var p := Pow2(tries - 1);
      DoubleFactor(q, p);
      ScaleHalves(interval, toTick.Scaled());
      last := SearchFinds(toNs, toTick, tick / 2, interval / 2, tries - 1, q);
      DoubleFactor(last, p);
    }
  }

  lemma AboveItself(x: nat, q: nat, p: nat)
    requires x == q * (2 * p) && q > 0 && p > 0
    ensures x < 2 * x <= x * (2 * p)
  {
    assert x > 0 by { MulMono(1, 1, q, 2 * p); }
    MulMono(x, 2, x, 2 * p);
  }

  lemma DoubleFactor(q: nat, p: nat)
    ensures q * (2 * p) == 2 * (q * p) && q * (2 * p) % 2 == 0 && q * (2 * p) / 2 == q * p
  {
  }
}
