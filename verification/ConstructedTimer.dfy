// What the constructor guarantees for ns2tick: the coefficients it tunes and the
// interval it chooses meet the hypotheses of the online adjustment.

module ConstructedTimer {
  import opened Word
  import opened FixedPoint
  import opened TimeConversions
  import opened OfflineOptimization
  import opened RoundTripArithmetic
  import opened OnlineAdjustment

  /**
   * First approximations for a timer between 10 kHz and 1 GHz, inverse to each
   * other within almost 61 parts per million.
   */
  predicate Approximations(toNs: Factor, ticks: Factor)
  {
    && 0x1_0000_0000 <= toNs.Scaled() <= 100_000 * 0x1_0000_0000
    && Abs(Skew(toNs.Scaled(), ticks.Scaled())) <= 0x3_ffff_ff00_0000
    && ticks.f + MaxCorrection(ticks) < 0x1_0000_0000
  }

  /** Ticks lost by a round trip that starts from ticks, in terms of the skew. */
  lemma TickRoundTripIdentity(N: nat, K: nat, t: nat, ns: nat, back: int, a: int, d: int)
    requires t * N == ns * 0x1_0000_0000 + a
    requires ns * K == back * 0x1_0000_0000 + d
    ensures (t - back) * 0x1_0000_0000_0000_0000 == -(t * Skew(N, K)) + a * K + d * 0x1_0000_0000
  {
    var P := K * N;
    assert t * P == t * N * K;
    assert (ns * 0x1_0000_0000 + a) * K == ns * K * 0x1_0000_0000 + a * K;
    assert t * P == t * Skew(N, K) + t * 0x1_0000_0000_0000_0000;
  }

  lemma TickLoss(N: nat, K: nat, t: nat)
    ensures var loss := t - Scale(Scale(t, N), K);
      -Times(t, Skew(N, K)) <= loss * 0x1_0000_0000_0000_0000
        <= -Times(t, Skew(N, K)) + 0x1_0000_0000 * K + 0x1_0000_0000_0000_0000
  {
    var ns := Scale(t, N);
    var back := Scale(ns, K);
    var a := Rest(t, N);
    var d := Rest(ns, K);
    TickRoundTripIdentity(N, K, t, ns, back, a, d);
    assert 0 <= a * K <= 0xffff_ffff * K by { MulMono(a, K, 0xffff_ffff, K); }
  }

  lemma CoefficientBounds(toNs: Factor, ticks: Factor)
    requires Approximations(toNs, ticks)
    ensures 40_000 <= ticks.Scaled() <= 0x1_0004_0000
    ensures ticks.Scaled() + MaxCorrection(ticks) <= 0x1_0006_0000
  {
    var N, K := toNs.Scaled(), ticks.Scaled();
    TickCoefficientBound(N, K);
    if K < 40_000 {
      MulMono(K, N, 40_000, 429_496_729_600_000);
    }
  }

  lemma LongUptime(ticks: Factor)
    requires ticks.Scaled() <= 0x1_0004_0000
    ensures Convert(LONG_UPTIME_NS, ticks) == 0x4000_0000 * ticks.Scaled()
  {
    ScaleUnique(LONG_UPTIME_NS, ticks.Scaled(), 0x4000_0000 * ticks.Scaled());
  }

  /** The bisection runs without overflow. */
  lemma ApproximationsTunable(toNs: Factor, ticks: Factor)
    requires Approximations(toNs, ticks)
    ensures Tunable(toNs, ticks, Convert(LONG_UPTIME_NS, ticks))
  {
    CoefficientBounds(toNs, ticks);
    LongUptime(ticks);
    var N, K := toNs.Scaled(), ticks.Scaled();
    var tick := 0x4000_0000 * K;
    assert tick * N == 0x4000_0000 * (K * N);
    var ns := Scale(tick, N);
    ScaleBounds(tick, N);
    assert ns <= 0x4001_0000_0000_0000;
    var top := K + MaxCorrection(ticks);
    ScaleBounds(ns, top);
    assert ns * top <= 0x4001_0000_0000_0000 * 0x1_0006_0000 by { MulMono(ns, top, 0x4001_0000_0000_0000, 0x1_0006_0000); }
  }

  /** Losing no more ticks than before means being no more skewed than before, up to rounding. */
  lemma LossBoundsSkew(N: nat, K: nat, K': nat, t: nat)
    requires K <= 0x1_0006_0000 && K' <= 0x1_0006_0000 && t >= 0x1000_0000_0000
    requires Abs(t - Scale(Scale(t, N), K')) <= Abs(t - Scale(Scale(t, N), K))
    ensures Abs(Skew(N, K')) <= Abs(Skew(N, K)) + 0x100_0000
  {
    var m, m' := Abs(Skew(N, K)), Abs(Skew(N, K'));
    var loss, loss' := t - Scale(Scale(t, N), K), t - Scale(Scale(t, N), K');
    TickLoss(N, K, t);
    TickLoss(N, K', t);
    AbsProduct(t, Skew(N, K));
    AbsProduct(t, Skew(N, K'));
    SkewBound(Times(t, m), Times(t, m'), K, K', loss, loss', Times(t, Skew(N, K)), Times(t, Skew(N, K')));
    DivideBySkew(t, m, m');
  }

  lemma DivideBySkew(t: nat, m: nat, m': nat)
    requires t >= 0x1000_0000_0000 && Times(t, m') <= Times(t, m) + 0x8_0000_0000_0000_0000
    ensures m' <= m + 0x100_0000
  {
    assert (m + 0x100_0000) * t == Times(t, m) + t * 0x100_0000;
    CancelLeq(m', m + 0x100_0000, t);
  }

  lemma AbsProduct(t: nat, x: int)
    ensures Abs(Times(t, x)) == Times(t, Abs(x))
  {
    if x < 0 { assert t * x == -(t * (-x)); MulMono(0, 0, t, -x); } else { MulMono(0, 0, t, x); }
  }

  lemma SkewBound(m: nat, m': nat, K: nat, K': nat, loss: int, loss': int, p: int, p': int)
    requires K <= 0x1_0006_0000 && K' <= 0x1_0006_0000 && Abs(loss') <= Abs(loss)
    requires m == Abs(p) && m' == Abs(p')
    requires -p <= loss * 0x1_0000_0000_0000_0000 <= -p + 0x1_0000_0000 * K + 0x1_0000_0000_0000_0000
    requires -p' <= loss' * 0x1_0000_0000_0000_0000 <= -p' + 0x1_0000_0000 * K' + 0x1_0000_0000_0000_0000
    ensures m' <= m + 0x8_0000_0000_0000_0000
  {
  }

  /** The bisection leaves coefficients the online adjustment can work with. */
  lemma TunedWithinDesign(toNs: Factor, ticks: Factor, tuned: Factor)
    requires Approximations(toNs, ticks) && Tuned(toNs, ticks, tuned)
    ensures Abs(Skew(toNs.Scaled(), tuned.Scaled())) <= 0x4_0000_0000_0000
  {
    ApproximationsTunable(toNs, ticks);
    var tick := Convert(LONG_UPTIME_NS, ticks);
    var delta: int :| Abs(delta) <= MaxCorrection(ticks) && tuned == ticks.Plus(delta) && Optimal(toNs, ticks, tick, delta);
    OptimalWithinDesign(toNs, ticks, tick, delta);
    PlusScaled(ticks, delta);
  }

  lemma OptimalWithinDesign(toNs: Factor, ticks: Factor, tick: u64, delta: int)
    requires Approximations(toNs, ticks) && tick == Convert(LONG_UPTIME_NS, ticks) && Tunable(toNs, ticks, tick)
    requires Optimal(toNs, ticks, tick, delta)
    ensures 0 <= ticks.Scaled() + delta && Abs(Skew(toNs.Scaled(), ticks.Scaled() + delta)) <= 0x4_0000_0000_0000
  {
    CoefficientBounds(toNs, ticks);
    LongUptime(ticks);
    BetterIsLessSkewed(toNs, ticks, tick, delta, 0);
  }

  /** A correction that loses no more ticks than another is no more skewed, up to rounding. */
  lemma BetterIsLessSkewed(toNs: Factor, ticks: Factor, tick: u64, delta: int, other: int)
    requires Tunable(toNs, ticks, tick) && tick >= 0x1000_0000_0000 && ticks.Scaled() + MaxCorrection(ticks) <= 0x1_0006_0000
    requires Abs(delta) <= MaxCorrection(ticks) && Abs(other) <= MaxCorrection(ticks)
    requires Abs(RoundTripLoss(toNs, ticks, tick, delta)) <= Abs(RoundTripLoss(toNs, ticks, tick, other))
    ensures 0 <= ticks.Scaled() + delta && 0 <= ticks.Scaled() + other
    ensures Abs(Skew(toNs.Scaled(), ticks.Scaled() + delta)) <= Abs(Skew(toNs.Scaled(), ticks.Scaled() + other)) + 0x100_0000
  {
    LossIsTrue(toNs, ticks, tick, delta);
    LossIsTrue(toNs, ticks, tick, other);
    LossBoundsSkew(toNs.Scaled(), ticks.Scaled() + other, ticks.Scaled() + delta, tick);
  }

  /** The interval before the last, unconditional, halving. */
  lemma ChosenIntervalFrom(toNs: Factor, toTick: Factor) returns (last: u64)
    requires toTick.Scaled() <= 0x1_0006_0000
    ensures ChosenInterval(toNs, toTick) == last / 2 && 250_000_000 <= last <= FIRST_INTERVAL_NS
    ensures Scale(last, toTick.Scaled()) <= 0x100_0000_0000
    ensures SmallLoss(toNs, toTick, last) || last == 250_000_000
    ensures last == 250_000_000 || last >= 500_000_000
    ensures last == 250_000_000 ==>
      Scale(500_000_000, toTick.Scaled()) <= 0x100_0000_0000 && !SmallLoss(toNs, toTick, 500_000_000)
  {
    var K := toTick.Scaled();
    var tick := Scale(FIRST_INTERVAL_NS, K);
    ScaleBounds(FIRST_INTERVAL_NS, K);
    assert tick <= 0x100_0000_0000;
    NineDoublings();
    last := SearchFinds(toNs, toTick, tick, FIRST_INTERVAL_NS, INTERVAL_TRIES, 250_000_000);
  }

  lemma NineDoublings()
    ensures Pow2(INTERVAL_TRIES) == 512
  {
    assert Pow2(3) == 8;
    assert Pow2(6) == 64;
  }

  /**
   * An interval whose round trip loses less than two ticks keeps the drift of
   * half of it within two ticks, below 666 MHz, and within three up to 1 GHz.
   */
  lemma SmallLossBoundsDrift(N: nat, K: nat, last: nat, c: nat)
    requires 0 < K && Abs(Skew(N, K)) <= 0x4_0000_0000_0000
    requires Abs(Scale(last, K) - Scale(Scale(Scale(last, K), N), K)) < 2
    requires (c == 2 && K <= 0xaaa0_0000) || (c == 3 && K <= 0x1_0006_0000)
    ensures last / 2 * Abs(Skew(N, K)) + 0x1_0000_0000_0000_0000 <= c * 0x1_0000_0000 * N
  {
    var t := Scale(last, K);
    var m := Abs(Skew(N, K));
    assert t * m <= 0x2_0000_0000_0000_0000 + 0x1_0000_0000 * K by {
      TickLoss(N, K, t);
      AbsProduct(t, Skew(N, K));
    }
    assert last * K <= (t + 1) * 0x1_0000_0000 by { ScaleBounds(last, K); }
    ProductBound(last * K, t, m, 0x2_0000_0000_0000_0000 + 0x1_0000_0000 * K);
    DriftFromProduct(N, K, last, m, c, last * m);
  }

  lemma ProductBound(x: nat, t: nat, m: nat, bound: nat)
    requires x <= (t + 1) * 0x1_0000_0000 && t * m <= bound
    ensures x * m <= 0x1_0000_0000 * bound + 0x1_0000_0000 * m
  {
    MulMono(x, m, (t + 1) * 0x1_0000_0000, m);
    assert (t + 1) * 0x1_0000_0000 * m == 0x1_0000_0000 * (t * m) + 0x1_0000_0000 * m;
  }

  lemma DriftFromProduct(N: nat, K: nat, last: nat, m: nat, c: nat, lm: nat)
    requires 0 < K && K * N >= 0x1_0000_0000_0000_0000 - 0x4_0000_0000_0000
    requires lm == last * m && m <= 0x4_0000_0000_0000
    requires last * K * m <= 0x1_0000_0000 * (0x2_0000_0000_0000_0000 + 0x1_0000_0000 * K) + 0x1_0000_0000 * m
    requires (c == 2 && K <= 0xaaa0_0000) || (c == 3 && K <= 0x1_0006_0000)
    ensures last / 2 * m + 0x1_0000_0000_0000_0000 <= c * 0x1_0000_0000 * N
  {
    var goal := Times(c, 0x2_0000_0000 * N);
    var lmK, KN, goalK := Times(lm, K), Times(K, N), Times(goal, K);
    assert last * K * m == lmK;
    GoalProduct(N, K, c);
    assert (lm + 0x2_0000_0000_0000_0000) * K == lmK + 0x2_0000_0000_0000_0000 * K;
    DriftSum(K, KN, lmK, m, c, goalK);
    CancelLeq(lm + 0x2_0000_0000_0000_0000, goal, K);
    HalfProduct(last, m);
    assert goal == 2 * (c * 0x1_0000_0000 * N);
  }

  lemma GoalProduct(N: nat, K: nat, c: nat)
    requires c == 2 || c == 3
    ensures Times(Times(c, 0x2_0000_0000 * N), K) == c * 0x2_0000_0000 * Times(K, N)
  {
  }

  lemma HalfProduct(last: nat, m: nat)
    ensures 2 * (last / 2 * m) <= last * m
  {
    OrderTimes(2 * (last / 2), last, m);
    assert 2 * (last / 2) * m == 2 * (last / 2 * m);
  }

  lemma DriftSum(K: nat, KN: int, lmK: int, m: nat, c: nat, goalK: int)
    requires KN >= 0x1_0000_0000_0000_0000 - 0x4_0000_0000_0000 && m <= 0x4_0000_0000_0000
    requires lmK <= 0x1_0000_0000 * (0x2_0000_0000_0000_0000 + 0x1_0000_0000 * K) + 0x1_0000_0000 * m
    requires (c == 2 && K <= 0xaaa0_0000) || (c == 3 && K <= 0x1_0006_0000)
    requires goalK == c * 0x2_0000_0000 * KN
    ensures lmK + 0x2_0000_0000_0000_0000 * K <= goalK
  {
  }

  /**
   * A freshly constructed converter meets the hypotheses of the online
   * adjustment. When the interval search ended with a small loss, the round
   * trip error is bounded by two ticks up to 666 MHz and three up to 1 GHz.
   */
  lemma ConstructedMeetsDesign(toNs: Factor, ticks: Factor, s: State)
    requires Approximations(toNs, ticks)
    requires s.toNs == toNs && Tuned(toNs, ticks, s.toTick) && s.interval == ChosenInterval(s.toNs, s.toTick)
    ensures Design(s)
    ensures s.interval > 125_000_000 && s.K() <= 0xaaa0_0000 ==> DriftWithin(s, 2)
    ensures s.interval > 125_000_000 ==> DriftWithin(s, 3)
  {
    TunedWithinDesign(toNs, ticks, s.toTick);
    TickCoefficientBound(s.N(), s.K());
    var last := ChosenIntervalFrom(s.toNs, s.toTick);
    if s.interval > 125_000_000 {
      LossWithoutCorrection(s, Scale(last, s.K()));
      SmallLossBoundsDrift(s.N(), s.K(), last, 3);
      if s.K() <= 0xaaa0_0000 { SmallLossBoundsDrift(s.N(), s.K(), last, 2); }
    }
  }

  /** The loss at delta zero, on true integers. */
  lemma LossWithoutCorrection(s: State, t: u64)
    requires 0x1_0000_0000 <= s.N() <= 100_000 * 0x1_0000_0000 && Abs(Skew(s.N(), s.K())) <= 0x4_0000_0000_0000
    requires t <= 0x100_0000_0000
    ensures RoundTripLoss(s.toNs, s.toTick, t, 0) == t - Scale(Scale(t, s.N()), s.K())
  {
    TickCoefficientBound(s.N(), s.K());
    var ns := Scale(t, s.N());
    ScaleBounds(t, s.N());
    assert t * s.N() <= 0x100_0000_0000 * 429_496_729_600_000 by { MulMono(t, s.N(), 0x100_0000_0000, 429_496_729_600_000); }
    assert ns < 0x2_0000_0000_0000_00;
    ScaleBounds(ns, s.K());
    assert ns * s.K() <= 0x2_0000_0000_0000_00 * 0x1_0004_0000 by { MulMono(ns, s.K(), 0x2_0000_0000_0000_00, 0x1_0004_0000); }
    SignedDifference(t, Scale(ns, s.K()));
  }

  // ----- coefficients whose product is not above one

  /** A loss below two bounds the drift over half the interval by one tick, below 499 MHz. */
  lemma SmallLossNegativeSkew(N: nat, K: nat, last: nat)
    requires 0 < K <= 0x7ff0_0000 && -0x4_0000_0000_0000 <= Skew(N, K) <= 0
    requires Abs(Scale(last, K) - Scale(Scale(Scale(last, K), N), K)) < 2
    ensures last / 2 * Abs(Skew(N, K)) + 0x1_0000_0000_0000_0000 <= 0x1_0000_0000 * N
  {
    var t := Scale(last, K);
    var m := Abs(Skew(N, K));
    assert t * m <= 0x1_0000_0000_0000_0000 by {
      TickLoss(N, K, t);
      AbsProduct(t, Skew(N, K));
    }
    assert last * K <= (t + 1) * 0x1_0000_0000 by { ScaleBounds(last, K); }
    ProductBound(last * K, t, m, 0x1_0000_0000_0000_0000);
    NegativeDrift(N, K, last, m, last * m);
  }

  lemma NegativeDrift(N: nat, K: nat, last: nat, m: nat, lm: nat)
    requires 0 < K <= 0x7ff0_0000 && K * N == 0x1_0000_0000_0000_0000 - m
    requires lm == last * m && m <= 0x4_0000_0000_0000
    requires last * K * m <= 0x1_0000_0000 * 0x1_0000_0000_0000_0000 + 0x1_0000_0000 * m
    ensures last / 2 * m + 0x1_0000_0000_0000_0000 <= 0x1_0000_0000 * N
  {
    var goal := 0x2_0000_0000 * N;
    var lmK, KN := Times(lm, K), Times(K, N);
    assert last * K * m == lmK;
    assert goal * K == 0x2_0000_0000 * KN;
    assert (lm + 0x2_0000_0000_0000_0000) * K == lmK + 0x2_0000_0000_0000_0000 * K;
    CancelLeq(lm + 0x2_0000_0000_0000_0000, goal, K);
    HalfProduct(last, m);
  }

  /** When the product is not below one, the drift over half the interval is one tick and a nanosecond at most. */
  lemma SmallLossPositiveSkew(N: nat, K: nat, last: nat)
    requires 0 < K && 0 <= Skew(N, K) <= 0x4_0000_0000_0000
    requires Abs(Scale(last, K) - Scale(Scale(Scale(last, K), N), K)) < 2
    ensures last / 2 * Abs(Skew(N, K)) <= 0x1_0000_0000 * N + 0x1_0000_0000_0000_0000
  {
    var t := Scale(last, K);
    var m := Abs(Skew(N, K));
    assert t * m <= 0x2_0000_0000_0000_0000 + 0x1_0000_0000 * K by {
      TickLoss(N, K, t);
      AbsProduct(t, Skew(N, K));
    }
    assert last * K <= (t + 1) * 0x1_0000_0000 by { ScaleBounds(last, K); }
    ProductBound(last * K, t, m, 0x2_0000_0000_0000_0000 + 0x1_0000_0000 * K);
    PositiveDrift(N, K, last, m, last * m);
  }

  lemma PositiveDrift(N: nat, K: nat, last: nat, m: nat, lm: nat)
    requires 0 < K && K * N == 0x1_0000_0000_0000_0000 + m && lm == last * m
    requires last * K * m <= 0x1_0000_0000 * (0x2_0000_0000_0000_0000 + 0x1_0000_0000 * K) + 0x1_0000_0000 * m
    ensures last / 2 * m <= 0x1_0000_0000 * N + 0x1_0000_0000_0000_0000
  {
    var goal := 0x2_0000_0000 * N + 0x2_0000_0000_0000_0000;
    var lmK, KN := Times(lm, K), Times(K, N);
    assert last * K * m == lmK;
    assert goal * K == 0x2_0000_0000 * KN + 0x2_0000_0000_0000_0000 * K;
    CancelLeq(lm, goal, K);
    HalfProduct(last, m);
  }

  /** Then a measured offset never takes a time below itself. */
  lemma OffsetNotNegative(s: State)
    requires Measured(s) && Skew(s.N(), s.K()) <= 0
    ensures s.offset >= 0
  {
    var y :| MeasuredAt(s, y);
    RoundTripError(s.N(), s.K(), y);
    assert y * Skew(s.N(), s.K()) <= 0 by { OrderTimes(Skew(s.N(), s.K()), 0, y); }
  }
}
