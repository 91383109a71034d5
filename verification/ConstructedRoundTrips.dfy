// From the constructor to the conversions: what a freshly constructed timer promises, whatever is
// converted before (timeconversion.cpp).

module ConstructedRoundTrips {
  import opened Word
  import opened FixedPoint
  import opened TimeConversions
  import opened OfflineOptimization
  import opened RoundTripArithmetic
  import opened OnlineAdjustment
  import opened OneTick
  import opened ConstructedTimer

  // ----- how near the bisection gets

  /** The range of the bisection reaches coefficients whose product is one, up to half a step. */
  predicate Correctable(toNs: Factor, ticks: Factor)
  {
    Abs(Skew(toNs.Scaled(), ticks.Scaled())) < MaxCorrection(ticks) * toNs.Scaled() + toNs.Scaled() / 2
  }

  /** Some correction of the range leaves half a step at most. */
  lemma NearestCorrection(N: nat, K: nat, max: int) returns (delta: int)
    requires N > 0 && 0 <= max <= K && Abs(Skew(N, K)) < max * N + N / 2
    ensures Abs(delta) <= max && Abs(Skew(N, K + delta)) <= N / 2
  {
    var x := Skew(N, K);
    delta := Nearest(x, N, max);
    assert (K + delta) * N == K * N + delta * N;
  }

  lemma Nearest(x: int, N: nat, max: int) returns (delta: int)
    requires N > 0 && 0 <= max && Abs(x) < max * N + N / 2
    ensures Abs(delta) <= max && Abs(x + delta * N) <= N / 2
  {
    var q := (x + N / 2) / N;
    var qN, mN := q * N, max * N;
    assert qN <= x + N / 2 < qN + N;
    OnePlus(max, N);
    OnePlus(q, N);
    CancelLess(q, max + 1, N);
    CancelLess(0 - max, q + 1, N) by { Minus(max, N); }
    delta := 0 - q;
    Minus(q, N);
  }

  lemma OnePlus(x: int, N: nat)
    ensures (x + 1) * N == x * N + N
  {
  }

  lemma Minus(x: int, N: nat)
    ensures (0 - x) * N == -(x * N)
  {
  }

  /** The bisection leaves about half a step. */
  lemma TunedHalfStep(toNs: Factor, ticks: Factor, tuned: Factor)
    requires Approximations(toNs, ticks) && Correctable(toNs, ticks) && Tuned(toNs, ticks, tuned)
    ensures Abs(Skew(toNs.Scaled(), tuned.Scaled())) <= toNs.Scaled() / 2 + 0x100_0000
  {
    ApproximationsTunable(toNs, ticks);
    var tick := Convert(LONG_UPTIME_NS, ticks);
    var delta: int :| Abs(delta) <= MaxCorrection(ticks) && tuned == ticks.Plus(delta) && Optimal(toNs, ticks, tick, delta);
    OptimalHalfStep(toNs, ticks, tick, delta);
    PlusScaled(ticks, delta);
  }

  lemma OptimalHalfStep(toNs: Factor, ticks: Factor, tick: u64, delta: int)
    requires Approximations(toNs, ticks) && tick == Convert(LONG_UPTIME_NS, ticks) && Tunable(toNs, ticks, tick)
    requires Optimal(toNs, ticks, tick, delta) && Correctable(toNs, ticks)
    ensures 0 <= ticks.Scaled() + delta && Abs(Skew(toNs.Scaled(), ticks.Scaled() + delta)) <= toNs.Scaled() / 2 + 0x100_0000
  {
    CoefficientBounds(toNs, ticks);
    LongUptime(ticks);
    var nearest := NearestCorrection(toNs.Scaled(), ticks.Scaled(), MaxCorrection(ticks));
    BetterIsLessSkewed(toNs, ticks, tick, delta, nearest);
  }

  // ----- how soon the search for the interval ends

  /** Half a step of skew loses less than two ticks over half a second, up to 900 MHz. */
  lemma HalfStepSmallLoss(N: nat, K: nat)
    requires N >= 0x1_0000_0000 && K <= 0xe660_0000 && Abs(Skew(N, K)) <= N / 2 + 0x100_0000
    requires Abs(Skew(N, K)) <= 0x4_0000_0000_0000
    ensures var t := Scale(500_000_000, K); Abs(t - Scale(Scale(t, N), K)) < 2
  {
    var t, m := Scale(500_000_000, K), Abs(Skew(N, K));
    ScaleBounds(500_000_000, K);
    HalfStepProduct(N, K, t, m);
    TickLoss(N, K, t);
    AbsProduct(t, Skew(N, K));
    LossBelowTwo(t - Scale(Scale(t, N), K), Times(t, Skew(N, K)), K);
  }

  lemma LossBelowTwo(loss: int, p: int, K: nat)
    requires Abs(p) <= 0x1000_0000_0000_0000 && K <= 0xe660_0000
    requires -p <= loss * 0x1_0000_0000_0000_0000 <= -p + 0x1_0000_0000 * K + 0x1_0000_0000_0000_0000
    ensures Abs(loss) < 2
  {
  }

  lemma HalfStepProduct(N: nat, K: nat, t: nat, m: nat)
    requires N >= 0x1_0000_0000 && m <= N / 2 + 0x100_0000 && t * 0x1_0000_0000 <= 500_000_000 * K
    requires K * N <= 0x1_0000_0000_0000_0000 + 0x4_0000_0000_0000
    ensures t * m <= 0x1000_0000_0000_0000
  {
    assert 128 * m <= 65 * N;
    var KN, tm, tN := K * N, t * m, t * N;
    assert t * (128 * m) <= t * (65 * N) by { MulMono(t, 128 * m, t, 65 * N); }
    assert t * (128 * m) == 128 * tm && t * (65 * N) == 65 * tN;
    assert t * 0x1_0000_0000 * N <= 500_000_000 * K * N by { OrderTimes(t * 0x1_0000_0000, 500_000_000 * K, N); }
    assert t * 0x1_0000_0000 * N == 0x1_0000_0000 * tN && 500_000_000 * K * N == 500_000_000 * KN;
  }

  /** So the interval is never the shortest. */
  lemma IntervalNotShortest(toNs: Factor, ticks: Factor, s: State)
    requires Approximations(toNs, ticks) && Correctable(toNs, ticks)
    requires s.toNs == toNs && Tuned(toNs, ticks, s.toTick) && s.interval == ChosenInterval(s.toNs, s.toTick)
    requires s.K() <= 0xe660_0000
    ensures s.interval > 125_000_000
  {
    TunedWithinDesign(toNs, ticks, s.toTick);
    TunedHalfStep(toNs, ticks, s.toTick);
    var last := ChosenIntervalFrom(s.toNs, s.toTick);
    if last == 250_000_000 { HalfSecondIsSmall(s); }
  }

  lemma HalfSecondIsSmall(s: State)
    requires 0x1_0000_0000 <= s.N() <= 100_000 * 0x1_0000_0000 && Abs(Skew(s.N(), s.K())) <= 0x4_0000_0000_0000
    requires Abs(Skew(s.N(), s.K())) <= s.N() / 2 + 0x100_0000 && s.K() <= 0xe660_0000
    requires Scale(500_000_000, s.K()) <= 0x100_0000_0000
    ensures SmallLoss(s.toNs, s.toTick, 500_000_000)
  {
    HalfStepSmallLoss(s.N(), s.K());
    LossWithoutCorrection(s, Scale(500_000_000, s.K()));
  }

  // ----- every history

  /** The converter that the constructor leaves, when its search for the interval finds one. */
  ghost predicate Constructed(toNs: Factor, ticks: Factor, s: State)
  {
    && Approximations(toNs, ticks) && s.toNs == toNs && Tuned(toNs, ticks, s.toTick)
    && s.interval == ChosenInterval(s.toNs, s.toTick) && s.last == 0 && s.offset == 0
    && (Correctable(toNs, ticks) || s.interval > 125_000_000)
  }

  lemma ConstructedDesign(toNs: Factor, ticks: Factor, s: State)
    requires Constructed(toNs, ticks, s) && s.K() <= 0xe660_0000
    ensures Design(s) && s.interval > 125_000_000 && (s.K() <= 0xaaa0_0000 ==> DriftWithin(s, 2)) && DriftWithin(s, 3)
    ensures s.toTick.i == 0
  {
    if Correctable(toNs, ticks) { IntervalNotShortest(toNs, ticks, s); }
    ConstructedMeetsDesign(toNs, ticks, s);
  }

  /** A search that ended with a small loss. */
  lemma ConstructedSmallLoss(toNs: Factor, ticks: Factor, s: State) returns (last: nat)
    requires Constructed(toNs, ticks, s) && s.K() <= 0xe660_0000
    ensures s.interval == last / 2 && Abs(Scale(last, s.K()) - Scale(Scale(Scale(last, s.K()), s.N()), s.K())) < 2
  {
    ConstructedDesign(toNs, ticks, s);
    last := ChosenIntervalFrom(s.toNs, s.toTick);
    LossWithoutCorrection(s, Scale(last, s.K()));
  }

  /**
   * Up to 666 MHz, whatever was converted before: a time read from the counter comes back within two
   * ticks exactly when the offset in use does not take it below zero.
   */
  lemma ConstructedRoundTrip(toNs: Factor, ticks: Factor, s: State, calls: seq<i64>, now: State, t: nat)
    requires Constructed(toNs, ticks, s) && s.K() <= 0xaaa0_0000
    requires (forall i :: 0 <= i < |calls| ==> calls[i] >= 0) && now == After(s, calls)
    requires Scale(t, s.N()) < 0x8000_0000_0000_0000 && t + 2 < 0x8000_0000_0000_0000
    ensures var ns := NanosecondsOf(now, t);
      Abs(TicksOf(now, ns) - t) <= 2 <==> ns + Adjusted(now, ns).offset >= 0
  {
    ConstructedDesign(toNs, ticks, s);
    RoundTripAfterHistory(s, calls, now, t, 2);
  }

  /**
   * Up to 499 MHz: if the product of the tuned coefficients is not above one, every tick comes back
   * within one tick, less than two, after every history.
   */
  lemma ConstructedOneTick(toNs: Factor, ticks: Factor, s: State, calls: seq<i64>, now: State, t: nat)
    requires Constructed(toNs, ticks, s) && s.K() <= 0x7ff0_0000 && Skew(s.N(), s.K()) <= 0
    requires (forall i :: 0 <= i < |calls| ==> calls[i] >= 0) && now == After(s, calls)
    requires Scale(t, s.N()) < 0x8000_0000_0000_0000 && t + 1 < 0x8000_0000_0000_0000
    ensures Abs(TicksOf(now, NanosecondsOf(now, t)) - t) <= 1
  {
    ConstructedDesign(toNs, ticks, s);
    TickCoefficientBound(s.N(), s.K());
    var last := ConstructedSmallLoss(toNs, ticks, s);
    SmallLossNegativeSkew(s.N(), s.K(), last);
    assert DriftWithin(s, 1);
    HistoryKeepsMeasured(s, calls);
    OffsetNotNegative(now);
    RoundTripOneTick(s, calls, now, t);
  }

  /** Up to 333 MHz half the interval is a safe distance, whatever the product. */
  lemma ConstructedHalfSafe(toNs: Factor, ticks: Factor, s: State)
    requires Constructed(toNs, ticks, s) && s.N() >= 3 * 0x1_0000_0000
    ensures Design(s) && HalfSafe(s)
  {
    TunedWithinDesign(toNs, ticks, s.toTick);
    TickCoefficientBound(s.N(), s.K());
    SlowCoefficient(s.N(), s.K());
    ConstructedDesign(toNs, ticks, s);
    var last := ConstructedSmallLoss(toNs, ticks, s);
    if Skew(s.N(), s.K()) <= 0 {
      SmallLossNegativeSkew(s.N(), s.K(), last);
    } else {
      SmallLossPositiveSkew(s.N(), s.K(), last);
    }
    HalfOf(last / 2, Abs(Skew(s.N(), s.K())), s.N());
  }

  lemma HalfOf(interval: nat, m: nat, N: nat)
    requires N >= 3 * 0x1_0000_0000 && interval * m <= 0x1_0000_0000 * N + 0x1_0000_0000_0000_0000
    ensures interval / 2 * m + 0x1_0000_0000_0000_0000 <= 0x1_0000_0000 * N
  {
    HalfProduct(interval, m);
  }

  lemma SlowCoefficient(N: nat, K: nat)
    requires N >= 3 * 0x1_0000_0000 && Abs(Skew(N, K)) <= 0x4_0000_0000_0000
    ensures K <= 0x5557_0000
  {
    if K > 0x5557_0000 { MulMono(0x5557_0001, 3 * 0x1_0000_0000, K, N); }
  }

  /** So up to 333 MHz every call that readjusts comes back within one tick, after every history: only cached calls can fail. */
  lemma ConstructedReadjusted(toNs: Factor, ticks: Factor, s: State, calls: seq<i64>, now: State, t: nat)
    requires Constructed(toNs, ticks, s) && s.N() >= 3 * 0x1_0000_0000
    requires (forall i :: 0 <= i < |calls| ==> calls[i] >= 0) && now == After(s, calls)
    requires Scale(t, s.N()) < 0x8000_0000_0000_0000 && t + 1 < 0x8000_0000_0000_0000
    requires !Cached(now, NanosecondsOf(now, t))
    ensures Abs(TicksOf(now, NanosecondsOf(now, t)) - t) <= 1
  {
    ConstructedHalfSafe(toNs, ticks, s);
    ReadjustedAfterHistory(s, calls, now, t);
  }

  /** And a call that fails, but for time zero, is further from the last adjustment than half the interval. */
  lemma ConstructedFailsFar(toNs: Factor, ticks: Factor, s: State, calls: seq<i64>, now: State, t: nat)
    requires Constructed(toNs, ticks, s) && s.N() >= 3 * 0x1_0000_0000 && t > 0
    requires (forall i :: 0 <= i < |calls| ==> calls[i] >= 0) && now == After(s, calls)
    requires Scale(t, s.N()) < 0x8000_0000_0000_0000 && t + 1 < 0x8000_0000_0000_0000
    requires Abs(TicksOf(now, NanosecondsOf(now, t)) - t) > 1
    ensures Cached(now, NanosecondsOf(now, t)) && Abs(NanosecondsOf(now, t) - now.last) > s.interval / 2
    ensures Skew(s.N(), s.K()) > 0 && s.interval * Skew(s.N(), s.K()) + 0x1_0000_0000_0000_0000 > 0x1_0000_0000 * s.N()
  {
    ConstructedHalfSafe(toNs, ticks, s);
    HistoryKeepsMeasured(s, calls);
    FailsFar(s, calls, now, t, NanosecondsOf(now, t));
    if Skew(s.N(), s.K()) <= 0 {
      SlowCoefficient(s.N(), s.K());
      ConstructedOneTick(toNs, ticks, s, calls, now, t);
    }
    if s.interval * Abs(Skew(s.N(), s.K())) + 0x1_0000_0000_0000_0000 <= 0x1_0000_0000 * s.N() {
      RoundTripOneTick(s, calls, now, t);
    }
  }

  lemma FailsFar(s: State, calls: seq<i64>, now: State, t: nat, ns: i64)
    requires Design(s) && HalfSafe(s) && s.last == 0 && s.offset == 0 && t > 0
    requires (forall i :: 0 <= i < |calls| ==> calls[i] >= 0) && now == After(s, calls)
    requires Scale(t, s.N()) < 0x8000_0000_0000_0000 && t + 1 < 0x8000_0000_0000_0000
    requires ns == NanosecondsOf(now, t) && Abs(TicksOf(now, ns) - t) > 1
    ensures Cached(now, ns) && Abs(ns - now.last) > s.interval / 2
  {
    HistoryKeepsMeasured(s, calls);
    ReadsTrueNanoseconds(now, t);
    if !Cached(now, ns) {
      ReadjustedAfterHistory(s, calls, now, t);
    } else if Abs(ns - now.last) <= s.interval / 2 {
      NearIsSafe(now, ns, s.interval / 2);
      SafeAfterHistory(s, calls, now, t);
    }
  }
}
