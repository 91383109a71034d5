// Two timers as the constructor sets them up, and what becomes of the promise of less than two
// ticks (timeconversion.cpp).

module ConstructedInstances {
  import opened Word
  import opened FixedPoint
  import opened OfflineOptimization
  import opened TimeConversions
  import opened RoundTripArithmetic
  import opened OnlineAdjustment
  import opened ConstructedTimer
  import opened ConstructedRoundTrips

  // ----- evaluating the constructor

  /** The loss of a round trip, from its two conversions. */
  lemma LossIs(toNs: Factor, toTick: Factor, tick: u64, delta: int, ns: u64, back: u64)
    requires Tunable(toNs, toTick, tick) && Abs(delta) <= MaxCorrection(toTick) && toTick.Scaled() + delta >= 0
    requires Scale(tick, toNs.Scaled()) == ns && Scale(ns, toTick.Scaled() + delta) == back
    ensures RoundTripLoss(toNs, toTick, tick, delta) == tick - back
  {
    LossIsTrue(toNs, toTick, tick, delta);
  }

  /** The losses one below a correction, at it, and one above it. */
  predicate ChangesSign(below: int, least: int, above: int)
  {
    below > Abs(least) && above + Abs(least) < 0
  }

  /** Where the loss changes sign, and is smaller than on either side, the correction is the only best one. */
  lemma OnlyOptimum(toNs: Factor, ticks: Factor, tick: u64, delta: int, below: int, least: int, above: int, d: int)
    requires Tunable(toNs, ticks, tick) && -MaxCorrection(ticks) < delta < MaxCorrection(ticks) && ChangesSign(below, least, above)
    requires RoundTripLoss(toNs, ticks, tick, delta - 1) == below && RoundTripLoss(toNs, ticks, tick, delta + 1) == above
    requires Abs(d) <= MaxCorrection(ticks) && d != delta
    ensures Abs(least) < Abs(RoundTripLoss(toNs, ticks, tick, d))
  {
    if d < delta {
      LossDecreases(toNs, ticks, tick, d, delta - 1);
    } else {
      LossDecreases(toNs, ticks, tick, delta + 1, d);
    }
  }

  lemma OnlyOptimal(toNs: Factor, ticks: Factor, tick: u64, delta: int, below: int, least: int, above: int, d: int)
    requires Tunable(toNs, ticks, tick) && -MaxCorrection(ticks) < delta < MaxCorrection(ticks) && ChangesSign(below, least, above)
    requires RoundTripLoss(toNs, ticks, tick, delta - 1) == below && RoundTripLoss(toNs, ticks, tick, delta + 1) == above
    requires RoundTripLoss(toNs, ticks, tick, delta) == least
    ensures Optimal(toNs, ticks, tick, d) <==> d == delta
  {
    forall e | Abs(e) <= MaxCorrection(ticks) && e != delta
      ensures Abs(least) < Abs(RoundTripLoss(toNs, ticks, tick, e))
    {
      OnlyOptimum(toNs, ticks, tick, delta, below, least, above, e);
    }
  }

  /** So the bisection can find no other coefficient. */
  lemma TunedIs(toNs: Factor, ticks: Factor, tick: u64, delta: int, below: int, least: int, above: int, tuned: Factor)
    requires tick == Convert(LONG_UPTIME_NS, ticks)
    requires Tunable(toNs, ticks, tick) && -MaxCorrection(ticks) < delta < MaxCorrection(ticks) && ChangesSign(below, least, above)
    requires RoundTripLoss(toNs, ticks, tick, delta - 1) == below && RoundTripLoss(toNs, ticks, tick, delta + 1) == above
    requires RoundTripLoss(toNs, ticks, tick, delta) == least
    ensures Tuned(toNs, ticks, tuned) <==> tuned == ticks.Plus(delta)
  {
    forall d
      ensures Optimal(toNs, ticks, tick, d) <==> d == delta
    {
      OnlyOptimal(toNs, ticks, tick, delta, below, least, above, d);
    }
    assert Optimal(toNs, ticks, tick, delta);
  }

  /** The round trip that the interval search makes from tick. */
  predicate Trip(toNs: Factor, toTick: Factor, tick: u64, ns: nat, back: nat)
  {
    Scale(tick, toNs.Scaled()) == ns < 0x1_0000_0000_0000_0000 && Scale(ns, toTick.Scaled()) == back && Abs(tick - back) < 100
  }

  /** One turn of the interval search. */
  lemma SearchTurn(toNs: Factor, toTick: Factor, tick: u64, interval: u64, tries: nat, ns: nat, back: nat)
    requires tries > 0 && Trip(toNs, toTick, tick, ns, back) && tick < 0x8000_0000_0000_0000
    ensures SearchInterval(toNs, toTick, tick, interval, tries) ==
      if Abs(tick - back) < 2 then interval / 2 else SearchInterval(toNs, toTick, tick / 2, interval / 2, tries - 1)
  {
    assert toTick.Plus(0) == toTick;
    SignedDifference(tick, back);
  }

  /** The last two round trips of the search. */
  predicate LastTrips(toNs: Factor, toTick: Factor, tick: nat, n1: nat, b1: nat, n2: nat, b2: nat)
    requires tick < 0x1_0000_0000_0000_0000
  {
    && Trip(toNs, toTick, tick, n1, b1) && Abs(tick - b1) >= 2
    && Trip(toNs, toTick, tick / 2, n2, b2) && Abs(tick / 2 - b2) < 2
  }

  /** The search ends in its second turn, or its third. */
  lemma TwoTurns(toNs: Factor, toTick: Factor, tick: u64, interval: u64, tries: nat, n1: nat, b1: nat, n2: nat, b2: nat)
    requires tries > 1 && tick < 0x8000_0000_0000_0000 && LastTrips(toNs, toTick, tick, n1, b1, n2, b2)
    ensures SearchInterval(toNs, toTick, tick, interval, tries) == interval / 4
  {
    SearchTurn(toNs, toTick, tick, interval, tries, n1, b1);
    SearchTurn(toNs, toTick, tick / 2, interval / 2, tries - 1, n2, b2);
  }

  lemma ThreeTurns(toNs: Factor, toTick: Factor, tick: u64, interval: u64, tries: nat,
                   n1: nat, b1: nat, n2: nat, b2: nat, n3: nat, b3: nat)
    requires tries > 2 && tick < 0x8000_0000_0000_0000
    requires Trip(toNs, toTick, tick, n1, b1) && Abs(tick - b1) >= 2 && LastTrips(toNs, toTick, tick / 2, n2, b2, n3, b3)
    ensures SearchInterval(toNs, toTick, tick, interval, tries) == interval / 8
  {
    SearchTurn(toNs, toTick, tick, interval, tries, n1, b1);
    TwoTurns(toNs, toTick, tick / 2, interval / 2, tries - 1, n2, b2, n3, b3);
  }

  lemma ChosenIs(toNs: Factor, toTick: Factor, tick: u64, interval: u64, tries: nat)
    requires tick == Convert(interval, toTick) && interval == FIRST_INTERVAL_NS && tries == INTERVAL_TRIES
    ensures ChosenInterval(toNs, toTick) == SearchInterval(toNs, toTick, tick, interval, tries)
  {
  }

  // ----- 16 MHz

  /** The first approximations, rounded to the 24 bits of a float: 16000000 Hz over 10^9, and 10^9 over 16000000 Hz. */
  const TO_NS_16: Factor := Factor(62, 2_147_483_648)
  const TICKS_16: Factor := Factor(0, 68_719_480)

  const TIMER_16MHZ: State := State(TO_NS_16, Factor(0, 68_719_477), 16_000_000_000, 0, 0)

  /** The constructor leaves this state, and no other. */
  lemma Constructed16(tuned: Factor)
    ensures Approximations(TO_NS_16, TICKS_16) && Correctable(TO_NS_16, TICKS_16)
    ensures Tuned(TO_NS_16, TICKS_16, tuned) <==> tuned == TIMER_16MHZ.toTick
    ensures ChosenInterval(TIMER_16MHZ.toNs, TIMER_16MHZ.toTick) == TIMER_16MHZ.interval
  {
    Bisected16(tuned);
    Approximated16();
    Searched16(TIMER_16MHZ, 2_048_000_007, FIRST_INTERVAL_NS, INTERVAL_TRIES);
  }

  lemma Approximated16()
    ensures Approximations(TO_NS_16, TICKS_16) && Correctable(TO_NS_16, TICKS_16)
  {
  }

  lemma Bisected16(tuned: Factor)
    ensures Tuned(TO_NS_16, TICKS_16, tuned) <==> tuned == TIMER_16MHZ.toTick
  {
    var tick, ns: u64 := 73_786_979_799_531_520, 4_611_686_237_470_720_000;
    assert Scale(LONG_UPTIME_NS, 68_719_480) == tick;
    assert Scale(tick, 268_435_456_000) == ns;
    assert Scale(ns, 68_719_476) == 73_786_979_009_257_500;
    assert Scale(ns, 68_719_477) == 73_786_980_082_999_375;
    assert Scale(ns, 68_719_478) == 73_786_981_156_741_250;
    assert Scale(ns, 68_721_197) == 73_788_826_919_024_375;
    assert Tunable(TO_NS_16, TICKS_16, tick);
    LossIs(TO_NS_16, TICKS_16, tick, -4, ns, 73_786_979_009_257_500);
    LossIs(TO_NS_16, TICKS_16, tick, -3, ns, 73_786_980_082_999_375);
    LossIs(TO_NS_16, TICKS_16, tick, -2, ns, 73_786_981_156_741_250);
    TunedIs(TO_NS_16, TICKS_16, tick, -3, 790_274_020, -283_467_855, -1_357_209_730, tuned);
  }

  lemma Trips16()
    ensures Trip(TIMER_16MHZ.toNs, TIMER_16MHZ.toTick, 2_048_000_007, 128_000_000_437, 2_048_000_014)
    ensures LastTrips(TIMER_16MHZ.toNs, TIMER_16MHZ.toTick, 1_024_000_003, 64_000_000_187, 1_024_000_006, 32_000_000_062, 512_000_002)
  {
    assert Scale(2_048_000_007, 268_435_456_000) == 128_000_000_437;
    assert Scale(128_000_000_437, 68_719_477) == 2_048_000_014;
    assert Scale(1_024_000_003, 268_435_456_000) == 64_000_000_187;
    assert Scale(64_000_000_187, 68_719_477) == 1_024_000_006;
    assert Scale(512_000_001, 268_435_456_000) == 32_000_000_062;
    assert Scale(32_000_000_062, 68_719_477) == 512_000_002;
  }

  lemma FirstTick16()
    ensures Convert(FIRST_INTERVAL_NS, TIMER_16MHZ.toTick) == 2_048_000_007
  {
    assert Scale(128_000_000_000, 68_719_477) == 2_048_000_007;
  }

  lemma Searched16(s: State, tick: u64, interval: u64, tries: nat)
    requires s == TIMER_16MHZ && interval == FIRST_INTERVAL_NS && tries == INTERVAL_TRIES && tick == 2_048_000_007
    ensures ChosenInterval(s.toNs, s.toTick) == s.interval
  {
    FirstTick16();
    ChosenIs(s.toNs, s.toTick, tick, interval, tries);
    Trips16();
    ThreeTurns(s.toNs, s.toTick, tick, interval, tries, 128_000_000_437, 2_048_000_014, 64_000_000_187, 1_024_000_006, 32_000_000_062, 512_000_002);
  }

  /**
   * A conversion of a late time, then one close below the cached interval, then
   * the conversion of tick zero, at 16 MHz: the cached offset of -27 ns wraps.
   */
  lemma TimeZeroFails()
    ensures Design(TIMER_16MHZ) && DriftWithin(TIMER_16MHZ, 1)
    ensures var now := After(TIMER_16MHZ, [LATE_NS, NEAR_NS]);
      now.offset == -27 && NanosecondsOf(now, 0) == 0 && TicksOf(now, 0) == 295_147_906_313_224_191
  {
    var s1, s2 := AfterLate(), AfterNear();
    LatePass();
    NearPass();
    var calls := [LATE_NS, NEAR_NS];
    assert calls[..1] == [LATE_NS] && calls[..1][..0] == [];
    assert After(TIMER_16MHZ, []) == TIMER_16MHZ;
    assert After(TIMER_16MHZ, calls[..1]) == s1;
    assert After(TIMER_16MHZ, calls) == s2;
    ZeroWraps();
  }

  const LATE_NS: i64 := 1_000_000_000_000_000
  const NEAR_NS: i64 := 15_999_998_223

  function AfterLate(): State { TIMER_16MHZ.(last := 1_000_000_003_841_687, offset := -3_841_687) }

  function AfterNear(): State { TIMER_16MHZ.(last := 15_999_998_250, offset := -27) }

  lemma LatePass()
    ensures Adjusted(TIMER_16MHZ, LATE_NS) == AfterLate()
  {
    assert Scale(1_000_000_000_000_000, 68_719_477) == 16_000_000_061_467;
    assert Scale(16_000_000_061_467, 268_435_456_000) == 1_000_000_003_841_687;
    OnePassAdjusts(TIMER_16MHZ, LATE_NS, AfterLate());
  }

  lemma NearPass()
    ensures Adjusted(AfterLate(), NEAR_NS) == AfterNear()
  {
    assert Scale(15_999_998_223, 68_719_477) == 255_999_972;
    assert Scale(255_999_972, 268_435_456_000) == 15_999_998_250;
    OnePassAdjusts(AfterLate(), NEAR_NS, AfterNear());
  }

  lemma ZeroWraps()
    ensures NanosecondsOf(AfterNear(), 0) == 0
    ensures TicksOf(AfterNear(), 0) == 295_147_906_313_224_191
  {
    assert Cached(AfterNear(), 0);
    assert Wrap64(0 - 27) == 0xffff_ffff_ffff_ffe5;
    assert Scale(0xffff_ffff_ffff_ffe5, 68_719_477) == 295_147_906_313_224_191;
  }

  // ----- 72 MHz

  /** The first approximations, rounded to the 24 bits of a float: 72000000 Hz over 10^9, and 10^9 over 72000000 Hz. */
  const TO_NS_72: Factor := Factor(13, 3_817_750_528)
  const TICKS_72: Factor := Factor(0, 309_237_632)

  const TIMER_72MHZ: State := State(TO_NS_72, Factor(0, 309_237_636), 32_000_000_000, 0, 0)

  /** The constructor leaves this state, and no other. */
  lemma Constructed72(tuned: Factor)
    ensures Approximations(TO_NS_72, TICKS_72) && Correctable(TO_NS_72, TICKS_72)
    ensures Tuned(TO_NS_72, TICKS_72, tuned) <==> tuned == TIMER_72MHZ.toTick
    ensures ChosenInterval(TIMER_72MHZ.toNs, TIMER_72MHZ.toTick) == TIMER_72MHZ.interval
  {
    Bisected72(tuned);
    Approximated72();
    Searched72(TIMER_72MHZ, 9_215_999_722, FIRST_INTERVAL_NS, INTERVAL_TRIES);
  }

  lemma Approximated72()
    ensures Approximations(TO_NS_72, TICKS_72) && Correctable(TO_NS_72, TICKS_72)
  {
  }

  lemma Bisected72(tuned: Factor)
    ensures Tuned(TO_NS_72, TICKS_72, tuned) <==> tuned == TIMER_72MHZ.toTick
  {
    var tick, ns: u64 := 332_041_379_033_120_768, 4_611_685_960_641_937_408;
    assert Scale(LONG_UPTIME_NS, 309_237_632) == tick;
    assert Scale(tick, 59_652_325_376) == ns;
    assert Scale(ns, 309_237_635) == 332_041_378_093_793_943;
    assert Scale(ns, 309_237_636) == 332_041_379_167_535_753;
    assert Scale(ns, 309_237_637) == 332_041_380_241_277_564;
    assert Scale(ns, 309_245_362) == 332_049_674_896_764_030;
    assert Tunable(TO_NS_72, TICKS_72, tick);
    LossIs(TO_NS_72, TICKS_72, tick, 3, ns, 332_041_378_093_793_943);
    LossIs(TO_NS_72, TICKS_72, tick, 4, ns, 332_041_379_167_535_753);
    LossIs(TO_NS_72, TICKS_72, tick, 5, ns, 332_041_380_241_277_564);
    TunedIs(TO_NS_72, TICKS_72, tick, 4, 939_326_825, -134_414_985, -1_208_156_796, tuned);
  }

  lemma Trips72()
    ensures LastTrips(TIMER_72MHZ.toNs, TIMER_72MHZ.toTick, 9_215_999_722, 128_000_000_045, 9_215_999_725, 64_000_000_022, 4_607_999_862)
  {
    assert Scale(9_215_999_722, 59_652_325_376) == 128_000_000_045;
    assert Scale(128_000_000_045, 309_237_636) == 9_215_999_725;
    assert Scale(4_607_999_861, 59_652_325_376) == 64_000_000_022;
    assert Scale(64_000_000_022, 309_237_636) == 4_607_999_862;
  }

  lemma FirstTick72()
    ensures Convert(FIRST_INTERVAL_NS, TIMER_72MHZ.toTick) == 9_215_999_722
  {
    assert Scale(128_000_000_000, 309_237_636) == 9_215_999_722;
  }

  lemma Searched72(s: State, tick: u64, interval: u64, tries: nat)
    requires s == TIMER_72MHZ && interval == FIRST_INTERVAL_NS && tries == INTERVAL_TRIES && tick == 9_215_999_722
    ensures ChosenInterval(s.toNs, s.toTick) == s.interval
  {
    FirstTick72();
    ChosenIs(s.toNs, s.toTick, tick, interval, tries);
    Trips72();
    TwoTurns(s.toNs, s.toTick, tick, interval, tries, 128_000_000_045, 9_215_999_725, 64_000_000_022, 4_607_999_862);
  }

  const FIRST_NS: i64 := 18_944_116_959_543

  function AfterFirst(): State { TIMER_72MHZ.(last := 18_944_116_967_197, offset := -7_654) }

  /**
   * The promise fails: at 72 MHz, after one conversion, a tick read within the cached interval
   * comes back two ticks later.
   */
  lemma TwoTicksOff()
    ensures Design(TIMER_72MHZ) && Skew(TIMER_72MHZ.N(), TIMER_72MHZ.K()) > 0
    ensures var now := After(TIMER_72MHZ, [FIRST_NS]);
      TicksOf(now, NanosecondsOf(now, 1_366_280_379_910)) == 1_366_280_379_912
  {
    FirstPass72();
    assert [FIRST_NS][..0] == [];
    assert After(TIMER_72MHZ, []) == TIMER_72MHZ;
    assert After(TIMER_72MHZ, [FIRST_NS]) == AfterFirst();
    SecondConversion();
  }

  lemma FirstPass72()
    ensures Adjusted(TIMER_72MHZ, FIRST_NS) == AfterFirst()
  {
    assert Scale(18_944_116_959_543, 309_237_636) == 1_363_976_380_013;
    assert Scale(1_363_976_380_013, 59_652_325_376) == 18_944_116_967_197;
    OnePassAdjusts(TIMER_72MHZ, FIRST_NS, AfterFirst());
  }

  lemma SecondConversion()
    ensures TicksOf(AfterFirst(), NanosecondsOf(AfterFirst(), 1_366_280_379_910)) == 1_366_280_379_912
  {
    assert Scale(1_366_280_379_910, 59_652_325_376) == 18_976_116_966_744;
    assert Cached(AfterFirst(), 18_976_116_966_744);
    assert Scale(18_976_116_959_090, 309_237_636) == 1_366_280_379_912;
  }
}
