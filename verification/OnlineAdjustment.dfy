// The online round trip adjustment of ns2tick, over all inputs and all histories of calls.

module OnlineAdjustment {
  import opened Word
  import opened FixedPoint
  import opened TimeConversions
  import opened RoundTripArithmetic

  /**
   * The coefficients of a timer between 10 kHz and 1 GHz: nanoseconds per tick
   * between 1 and 100000, the two coefficients inverse to each other within 61
   * parts per million, and an interval no shorter than the constructor allows.
   */
  predicate Design(s: State)
  {
    && 0x1_0000_0000 <= s.N() <= 100_000 * 0x1_0000_0000
    && Abs(Skew(s.N(), s.K())) <= 0x4_0000_0000_0000
    && 125_000_000 <= s.interval <= 0x4000_0000_0000_0000
  }

  /** Over one cached interval the skew of the coefficients costs at most c ticks. */
  predicate DriftWithin(s: State, c: nat)
  {
    c > 0 && s.interval * Abs(Skew(s.N(), s.K())) + 0x1_0000_0000_0000_0000 <= c * 0x1_0000_0000 * s.N()
  }

  /** The cached pair was measured by a round trip around y. */
  ghost predicate MeasuredAt(s: State, y: int)
  {
    && 0 <= y < 0x8008_0000_0000_0000
    && s.last == RoundTrip(y, s.N(), s.K())
    && s.offset == y - s.last
  }

  ghost predicate Measured(s: State)
  {
    exists y :: MeasuredAt(s, y)
  }

  predicate SameDesign(s: State, s': State)
  {
    s'.toNs == s.toNs && s'.toTick == s.toTick && s'.interval == s.interval
  }

  // ----- no conversion wraps

  lemma TickCoefficientBound(N: nat, K: nat)
    requires 0x1_0000_0000 <= N && Abs(Skew(N, K)) <= 0x4_0000_0000_0000
    ensures 0 < K <= 0x1_0004_0000
  {
    assert K * 0x1_0000_0000 <= K * N by { MulMono(K, 0x1_0000_0000, K, N); }
    if K < 1 { OrderTimes(K, 0, N); }
  }

  /** A round trip moves a time by 61 parts per million and the rounding, at most. */
  lemma RoundTripNear(s: State, y: nat)
    requires Design(s)
    ensures 16384 * (RoundTrip(y, s.N(), s.K()) - y) <= y
    ensures 16384 * (y - RoundTrip(y, s.N(), s.K())) <= y + 16384 * 100_001
  {
    var N, K := s.N(), s.K();
    RoundTripError(N, K, y);
    assert Abs(y * Skew(N, K)) <= y * 0x4_0000_0000_0000 by { ProductAbs(y, Skew(N, K), y, 0x4_0000_0000_0000); }
  }

  lemma ConversionsFit(s: State, y: nat)
    requires Design(s) && y < 0x8008_0000_0000_0000
    ensures Scale(y, s.K()) < 0x1_0000_0000_0000_0000
    ensures RoundTrip(y, s.N(), s.K()) < 0x800b_0000_0000_0000
    ensures Convert(Convert(y, s.toTick), s.toNs) == RoundTrip(y, s.N(), s.K())
  {
    TickCoefficientBound(s.N(), s.K());
    assert y * s.K() <= 0x8008_0000_0000_0000 * 0x1_0004_0000 by { MulMono(y, s.K(), 0x8008_0000_0000_0000, 0x1_0004_0000); }
    ScaleBounds(y, s.K());
    RoundTripNear(s, y);
  }

  // ----- the loop

  /** One pass measures the round trip around y = uns + offset, and nothing in it wraps. */
  lemma PassMeasures(s: State, uns: u64, y: nat)
    requires Design(s) && uns < 0x8000_0000_0000_0000
    requires y == uns + s.offset && y < 0x8004_0000_0000_0000
    requires 16384 * Abs(uns - y) <= 2 * y + 16384 * 200_000
    ensures SameDesign(s, Pass(s, uns)) && MeasuredAt(Pass(s, uns), y)
    ensures Distance(Pass(s, uns), uns) == Abs(uns - Pass(s, uns).last)
  {
    ConversionsFit(s, y);
    RoundTripNear(s, y);
    SignedDifference(y, RoundTrip(y, s.N(), s.K()));
    SignedDifference(uns, RoundTrip(y, s.N(), s.K()));
  }

  /** The contraction, with the numbers of the design. */
  lemma PassContracts(s: State, uns: u64, y: nat)
    requires Design(s) && MeasuredAt(s, y)
    requires 0 <= uns + s.offset
    ensures 16384 * Abs(uns - RoundTrip(uns + s.offset, s.N(), s.K())) <= Abs(uns - s.last) + 16384 * 100_001
  {
    var N, K := s.N(), s.K();
    Contraction(N, K, uns, y, uns + s.offset);
    assert Abs(uns - s.last) * Abs(Skew(N, K)) <= Abs(uns - s.last) * 0x4_0000_0000_0000
      by { MulMono(Abs(uns - s.last), Abs(Skew(N, K)), Abs(uns - s.last), 0x4_0000_0000_0000); }
  }

  /** A pass that starts from a measured state. */
  lemma NextPass(s: State, uns: u64, y: nat)
    requires Design(s) && MeasuredAt(s, y) && uns < 0x8000_0000_0000_0000
    requires 0 <= uns + s.offset < 0x8004_0000_0000_0000
    requires 16384 * Abs(s.offset) <= 2 * (uns + s.offset) + 16384 * 200_000
    ensures var s' := Pass(s, uns);
      && SameDesign(s, s') && MeasuredAt(s', uns + s.offset)
      && Distance(s', uns) == Abs(uns - s'.last)
      && 16384 * Abs(uns - s'.last) <= Abs(uns - s.last) + 16384 * 100_001
  {
    PassMeasures(s, uns, uns + s.offset);
    PassContracts(s, uns, y);
  }

  predicate NearEnough(s: State, uns: u64)
  {
    Distance(s, uns) < s.interval / 2
  }

  lemma FirstPass(s: State, uns: u64)
    requires Design(s) && s.offset == 0 && uns < 0x8000_0000_0000_0000
    ensures var s1 := Pass(s, uns);
      && SameDesign(s, s1) && MeasuredAt(s1, uns)
      && Distance(s1, uns) == Abs(uns - s1.last) <= 0x2_0000_0001_86a1
      && (!NearEnough(s1, uns) ==> uns >= 0xe8_0000_0000)
  {
    PassMeasures(s, uns, uns);
    RoundTripNear(s, uns);
  }

  lemma SecondPass(s1: State, uns: u64)
    requires Design(s1) && MeasuredAt(s1, uns) && 0xe8_0000_0000 <= uns < 0x8000_0000_0000_0000
    requires Abs(uns - s1.last) <= 0x2_0000_0001_86a1
    ensures var s2 := Pass(s1, uns);
      && SameDesign(s1, s2) && MeasuredAt(s2, uns + s1.offset)
      && Distance(s2, uns) == Abs(uns - s2.last) <= 0x8_0001_86b0
      && 0 <= uns + s2.offset < 0x8004_0000_0000_0000
      && 16384 * Abs(s2.offset) <= 2 * (uns + s2.offset) + 16384 * 200_000
  {
    RoundTripNear(s1, uns);
    NextPass(s1, uns, uns);
    RoundTripNear(s1, uns + s1.offset);
  }

  lemma ThirdPass(s2: State, uns: u64, y: nat)
    requires Design(s2) && MeasuredAt(s2, y) && uns < 0x8000_0000_0000_0000
    requires Abs(uns - s2.last) <= 0x8_0001_86b0
    requires 0 <= uns + s2.offset < 0x8004_0000_0000_0000
    requires 16384 * Abs(s2.offset) <= 2 * (uns + s2.offset) + 16384 * 200_000
    ensures var s3 := Pass(s2, uns);
      SameDesign(s2, s3) && MeasuredAt(s3, uns + s2.offset) && Distance(s3, uns) == Abs(uns - s3.last) && NearEnough(s3, uns)
  {
    NextPass(s2, uns, y);
  }

  /** The state after k passes, break or no break. */
  function Passes(s: State, uns: u64, k: nat): State
    decreases k
  {
    if k == 0 then s else Passes(Pass(s, uns), uns, k - 1)
  }

  predicate BreaksAt(s: State, uns: u64, k: nat)
  {
    k > 0 && NearEnough(Passes(s, uns, k), uns) && forall j :: 0 < j < k ==> !NearEnough(Passes(s, uns, j), uns)
  }

  lemma {:induction false} BreakEndsLoop(s: State, uns: u64, k: nat, limit: nat)
    requires BreaksAt(s, uns, k) && k <= limit
    ensures Readjust(s, uns, limit) == Passes(s, uns, k)
    decreases k
  {
    ReadjustOnce(s, uns, limit);
    if k > 1 {
      BreaksLater(s, uns, k);
      BreakEndsLoop(Pass(s, uns), uns, k - 1, limit - 1);
    } else {
      OnePass(s, uns);
    }
  }

  lemma BreaksLater(s: State, uns: u64, k: nat)
    requires BreaksAt(s, uns, k) && k > 1
    ensures !NearEnough(Pass(s, uns), uns) && BreaksAt(Pass(s, uns), uns, k - 1)
    ensures Passes(s, uns, k) == Passes(Pass(s, uns), uns, k - 1)
  {
    OnePass(s, uns);
    assert !NearEnough(Passes(s, uns, 1), uns);
    forall j | 0 < j < k - 1
      ensures !NearEnough(Passes(Pass(s, uns), uns, j), uns)
    {
      assert !NearEnough(Passes(s, uns, j + 1), uns);
    }
  }

  predicate Lands(s: State, uns: u64, r: State)
  {
    Abs(uns - r.last) < s.interval / 2
  }

  /** Some pass, at most the third, is near enough. */
  lemma SomePassLands(s: State, uns: u64) returns (k: nat, r: State)
    requires Design(s) && s.offset == 0 && uns < 0x8000_0000_0000_0000
    ensures k <= 3 && BreaksAt(s, uns, k) && r == Passes(s, uns, k)
    ensures SameDesign(s, r) && Measured(r) && Lands(s, uns, r)
  {
    var s1 := Pass(s, uns);
    FirstPass(s, uns);
    OnePass(s, uns);
    if NearEnough(s1, uns) {
      k, r := 1, s1;
    } else {
      k, r := LaterPassLands(s, s1, uns);
    }
  }

  lemma LaterPassLands(s: State, s1: State, uns: u64) returns (k: nat, r: State)
    requires s1 == Pass(s, uns) && !NearEnough(s1, uns)
    requires Design(s1) && SameDesign(s, s1) && MeasuredAt(s1, uns) && 0xe8_0000_0000 <= uns < 0x8000_0000_0000_0000
    requires Abs(uns - s1.last) <= 0x2_0000_0001_86a1
    ensures k <= 3 && BreaksAt(s, uns, k) && r == Passes(s, uns, k)
    ensures SameDesign(s, r) && Measured(r) && Lands(s, uns, r)
  {
    var s2 := Pass(s1, uns);
    SecondPass(s1, uns);
    OnePass(s, uns);
    TwoPasses(s, uns);
    if NearEnough(s2, uns) {
      k, r := 2, s2;
    } else {
      ThirdPass(s2, uns, uns + s1.offset);
      ThreePasses(s, uns);
      k, r := 3, Pass(s2, uns);
    }
  }

  /**
   * The loop leaves by its break within three passes, so the limit of five is
   * never what stops it; and it leaves a measurement nearer than half the interval.
   */
  lemma ReadjustConverges(s: State, uns: u64) returns (k: nat)
    requires Design(s) && s.offset == 0 && uns < 0x8000_0000_0000_0000
    ensures k <= 3 && BreaksAt(s, uns, k) && Readjust(s, uns, MAX_PASSES) == Passes(s, uns, k)
    ensures var r := Readjust(s, uns, MAX_PASSES);
      SameDesign(s, r) && Measured(r) && Lands(s, uns, r)
  {
    var r;
    k, r := SomePassLands(s, uns);
    BreakEndsLoop(s, uns, k, MAX_PASSES);
  }

  lemma OnePass(s: State, uns: u64)
    ensures Passes(s, uns, 1) == Pass(s, uns)
  {
    assert Passes(Pass(s, uns), uns, 0) == Pass(s, uns);
  }

  lemma TwoPasses(s: State, uns: u64)
    ensures Passes(s, uns, 2) == Pass(Pass(s, uns), uns)
  {
    OnePass(Pass(s, uns), uns);
  }

  lemma ThreePasses(s: State, uns: u64)
    ensures Passes(s, uns, 3) == Pass(Pass(Pass(s, uns), uns), uns)
  {
    TwoPasses(Pass(s, uns), uns);
  }

  // ----- every history of calls

  lemma CachedDistance(s: State, uns: u64)
    requires Design(s) && Measured(s) && uns < 0x8000_0000_0000_0000 && Distance(s, uns) <= s.interval
    ensures Abs(uns - s.last) <= s.interval
  {
    var y :| MeasuredAt(s, y);
    ConversionsFit(s, y);
    if uns - s.last >= -0x8000_0000_0000_0000 { SignedDifference(uns, s.last); }
  }

  /** Each call keeps the cache a true measurement, within one interval of the converted time. */
  lemma CallKeepsMeasured(s: State, ns: i64)
    requires Design(s) && Measured(s) && ns >= 0
    ensures SameDesign(s, Adjusted(s, ns)) && Measured(Adjusted(s, ns))
    ensures Abs(ns - Adjusted(s, ns).last) <= s.interval
  {
    var uns: u64 := Wrap64(ns);
    assert uns == ns;
    if Cached(s, ns) {
      CachedDistance(s, uns);
    } else {
      var s0 := s.(offset := 0);
      assert Design(s0) && SameDesign(s, s0);
      var k := ReadjustConverges(s0, uns);
    }
  }

  /** A time within one interval of the last adjustment changes nothing; any other is adjusted for, to nearer than half of it. */
  lemma AdjustsIff(s: State, ns: i64)
    requires Design(s) && Measured(s) && ns >= 0
    ensures Abs(ns - s.last) <= s.interval ==> Adjusted(s, ns) == s
    ensures Abs(ns - s.last) > s.interval ==> Abs(ns - Adjusted(s, ns).last) < s.interval / 2
  {
    var uns: u64 := Wrap64(ns);
    assert uns == ns;
    if Abs(ns - s.last) <= s.interval {
      SignedDifference(uns, s.last);
    } else {
      if Cached(s, ns) { CachedDistance(s, uns); }
      var k := ReadjustConverges(s.(offset := 0), uns);
    }
  }

  lemma {:induction false} HistoryKeepsMeasured(s: State, calls: seq<i64>)
    requires Design(s) && s.last == 0 && s.offset == 0
    requires forall i :: 0 <= i < |calls| ==> calls[i] >= 0
    ensures SameDesign(s, After(s, calls)) && Measured(After(s, calls))
  {
    if calls == [] {
      assert MeasuredAt(s, 0);
    } else {
      var before := calls[..|calls| - 1];
      HistoryKeepsMeasured(s, before);
      CallKeepsMeasured(After(s, before), calls[|calls| - 1]);
    }
  }

  // ----- the round trip

  /** Ticks of a time at or above zero after correction by the cached offset. */
  lemma CorrectedTicks(s: State, t: nat, c: nat)
    requires Design(s) && Measured(s) && DriftWithin(s, c)
    requires Scale(t, s.N()) < 0x8000_0000_0000_0000 && t + c < 0x8000_0000_0000_0000
    requires Abs(Scale(t, s.N()) - s.last) <= s.interval
    requires Scale(t, s.N()) + s.offset >= 0
    ensures Abs(Signed(Convert(Wrap64(Scale(t, s.N()) + s.offset), s.toTick)) - t) <= c
  {
    var y :| MeasuredAt(s, y);
    var z := Scale(t, s.N()) + s.offset;
    RoundTripNear(s, y);
    OffsetConversion(s.N(), s.K(), y, t, s.interval, c);
    TicksWithin(z, s.K(), t, c);
  }

  lemma TicksWithin(z: nat, K: nat, t: nat, c: nat)
    requires (t - c) * 0x1_0000_0000 < z * K < (t + c + 1) * 0x1_0000_0000
    ensures t - c <= Scale(z, K) <= t + c
  {
    ScaleBounds(z, K);
  }

  /**
   * When the correction takes the time below zero the addition wraps, and the
   * ticks that come out are far from the right ones.
   */
  lemma WrappedTicks(s: State, t: nat, c: nat)
    requires Design(s) && Measured(s) && DriftWithin(s, c) && c <= 0x1000_0000 && s.toTick.i == 0
    requires Scale(t, s.N()) < 0x8000_0000_0000_0000
    requires Abs(Scale(t, s.N()) - s.last) <= s.interval
    requires Scale(t, s.N()) + s.offset < 0
    ensures t < c
    ensures Abs(Signed(Convert(Wrap64(Scale(t, s.N()) + s.offset), s.toTick)) - t) > c
  {
    var y :| MeasuredAt(s, y);
    var z := Scale(t, s.N()) + s.offset;
    var K := s.K();
    RoundTripNear(s, y);
    OffsetConversion(s.N(), K, y, t, s.interval, c);
    TickCoefficientBound(s.N(), K);
    NegativeProduct(z, K, t, c);
  }

  lemma NegativeProduct(z: int, K: nat, t: nat, c: nat)
    requires -0x1_0000_0000_0000_0000 <= z < 0 < K < 0x1_0000_0000 && c <= 0x1000_0000
    requires (t - c) * 0x1_0000_0000 < z * K
    ensures t < c
    ensures 0x1_0000_0000 - c <= Scale(0x1_0000_0000_0000_0000 + z, K) < 0x1_0000_0000 * K <= 0xffff_ffff_0000_0000
  {
    assert z * K < 0 by { MulMono(1, 1, -z, K); assert (-z) * K == -(z * K); }
    var w := 0x1_0000_0000_0000_0000 + z;
    assert w * K == 0x1_0000_0000_0000_0000 * K + z * K;
    ScaleBounds(w, K);
  }

  lemma ReadsTrueNanoseconds(s: State, t: nat)
    requires Scale(t, s.N()) < 0x8000_0000_0000_0000 && t < 0x8000_0000_0000_0000
    ensures NanosecondsOf(s, t) == Scale(t, s.N())
  {
    assert Wrap64(t) == t;
  }

  lemma TicksOfSettled(s: State, ns: i64)
    requires ns >= 0
    ensures TicksOf(s, ns) == Signed(Convert(Wrap64(ns + Adjusted(s, ns).offset), s.toTick))
  {
    assert Wrap64(ns) == ns;
  }

  /**
   * A time read from the counter and converted to nanoseconds comes back with
   * an error of at most c ticks exactly when the offset the call uses does not
   * take it below zero.
   */
  lemma RoundTripWithin(s: State, t: nat, c: nat)
    requires Design(s) && Measured(s) && DriftWithin(s, c)
    requires Scale(t, s.N()) < 0x8000_0000_0000_0000 && t + c < 0x8000_0000_0000_0000
    ensures var ns := Scale(t, s.N());
      && (ns + Adjusted(s, ns).offset >= 0 ==> Abs(TicksOf(s, ns) - t) <= c)
      && (ns + Adjusted(s, ns).offset < 0 && s.toTick.i == 0 && c <= 0x1000_0000 ==> Abs(TicksOf(s, ns) - t) > c)
  {
    var ns := Scale(t, s.N());
    CallKeepsMeasured(s, ns);
    TicksOfSettled(s, ns);
    var settled := Adjusted(s, ns);
    if ns + settled.offset >= 0 {
      CorrectedTicks(settled, t, c);
    } else if s.toTick.i == 0 && c <= 0x1000_0000 {
      WrappedTicks(settled, t, c);
    }
  }

  /** RoundTripWithin for the state after any history of conversions. */
  lemma RoundTripAfterHistory(s: State, calls: seq<i64>, now: State, t: nat, c: nat)
    requires Design(s) && DriftWithin(s, c) && s.last == 0 && s.offset == 0
    requires (forall i :: 0 <= i < |calls| ==> calls[i] >= 0) && now == After(s, calls)
    requires Scale(t, s.N()) < 0x8000_0000_0000_0000 && t + c < 0x8000_0000_0000_0000
    ensures var ns := NanosecondsOf(now, t);
      && (ns + Adjusted(now, ns).offset >= 0 ==> Abs(TicksOf(now, ns) - t) <= c)
      && (ns + Adjusted(now, ns).offset < 0 && s.toTick.i == 0 && c <= 0x1000_0000 ==> Abs(TicksOf(now, ns) - t) > c)
  {
    HistoryKeepsMeasured(s, calls);
    ReadsTrueNanoseconds(now, t);
    RoundTripWithin(now, t, c);
  }

  /** At 1 GHz a drift within one tick leaves no room for skew: the offset is always zero. */
  lemma FastestTimerIsExact(s: State)
    requires Design(s) && Measured(s) && DriftWithin(s, 1) && s.toTick.i > 0
    ensures s.offset == 0
  {
    var N, K := s.N(), s.K();
    assert K >= 0x1_0000_0000;
    assert K * N >= 0x1_0000_0000 * N by { MulMono(0x1_0000_0000, N, K, N); }
    var skew := Skew(N, K);
    assert skew >= 0x1_0000_0000 * N - 0x1_0000_0000_0000_0000 >= 0;
    assert s.interval * skew >= 2 * skew by { MulMono(2, skew, s.interval, skew); }
    assert skew == 0 && N == 0x1_0000_0000 && K == 0x1_0000_0000;
  }

  /** A readjustment for time zero measures the round trip of zero. */
  lemma ReadjustZero(s: State)
    requires Design(s) && s.offset == 0
    ensures Readjust(s, 0, MAX_PASSES).offset == 0
  {
    PassMeasures(s, 0, 0);
    ZeroPass(s);
    ReadjustOnce(s, 0, MAX_PASSES);
  }

  lemma ZeroPass(s: State)
    requires Design(s) && MeasuredAt(Pass(s, 0), 0) && SameDesign(s, Pass(s, 0))
    ensures Pass(s, 0).offset == 0 && NearEnough(Pass(s, 0), 0)
  {
    assert Scale(0, s.K()) == 0 && Scale(0, s.N()) == 0;
  }

  /** The offset takes no time but zero below zero. */
  lemma OnlyZeroWraps(s: State, t: nat)
    requires Design(s) && Measured(s) && DriftWithin(s, 1)
    requires Scale(t, s.N()) < 0x8000_0000_0000_0000
    requires Abs(Scale(t, s.N()) - s.last) <= s.interval
    requires Scale(t, s.N()) + s.offset < 0
    ensures t == 0 && s.toTick.i == 0
  {
    if s.toTick.i > 0 { FastestTimerIsExact(s); }
    WrappedTicks(s, t, 1);
  }

  lemma ExactAboveZero(s: State, t: nat)
    requires Design(s) && Measured(s) && DriftWithin(s, 1) && t > 0
    requires Scale(t, s.N()) < 0x8000_0000_0000_0000 && t + 1 < 0x8000_0000_0000_0000
    ensures Abs(TicksOf(s, Scale(t, s.N())) - t) <= 1
  {
    var ns := Scale(t, s.N());
    RoundTripWithin(s, t, 1);
    CallKeepsMeasured(s, ns);
    if ns + Adjusted(s, ns).offset < 0 { OnlyZeroWraps(Adjusted(s, ns), t); }
  }

  lemma ExactForZero(s: State)
    requires Design(s) && Measured(s) && DriftWithin(s, 1)
    ensures Abs(TicksOf(s, 0)) <= 1 <==> !Cached(s, 0) || s.offset >= 0
  {
    assert Scale(0, s.N()) == 0;
    RoundTripWithin(s, 0, 1);
    CallKeepsMeasured(s, 0);
    var settled := Adjusted(s, 0);
    if settled.offset < 0 { OnlyZeroWraps(settled, 0); }
    ZeroOffset(s);
  }

  lemma ExactForOneTick(s: State, t: nat)
    requires Design(s) && Measured(s) && DriftWithin(s, 1)
    requires Scale(t, s.N()) < 0x8000_0000_0000_0000 && t + 1 < 0x8000_0000_0000_0000
    ensures Abs(TicksOf(s, Scale(t, s.N())) - t) <= 1 <==> t > 0 || !Cached(s, 0) || s.offset >= 0
  {
    if t > 0 {
      ExactAboveZero(s, t);
    } else {
      assert Scale(t, s.N()) == 0;
      ExactForZero(s);
    }
  }

  lemma ZeroOffset(s: State)
    requires Design(s)
    ensures Adjusted(s, 0).offset == if Cached(s, 0) then s.offset else 0
  {
    if !Cached(s, 0) { ReadjustZero(s.(offset := 0)); }
  }

  /**
   * The promise of less than two ticks holds after every history of conversions
   * for every time but zero, and for zero exactly when the call readjusts or
   * finds an offset that is not negative.
   */
  lemma RoundTripOneTick(s: State, calls: seq<i64>, now: State, t: nat)
    requires Design(s) && DriftWithin(s, 1) && s.last == 0 && s.offset == 0
    requires (forall i :: 0 <= i < |calls| ==> calls[i] >= 0) && now == After(s, calls)
    requires Scale(t, s.N()) < 0x8000_0000_0000_0000 && t + 1 < 0x8000_0000_0000_0000
    ensures Abs(TicksOf(now, NanosecondsOf(now, t)) - t) <= 1 <==> t > 0 || !Cached(now, 0) || now.offset >= 0
  {
    HistoryKeepsMeasured(s, calls);
    ReadsTrueNanoseconds(now, t);
    ExactForOneTick(now, t);
  }

  // ----- evaluating a history

  /** Evaluates a call whose loop leaves after the first pass. */
  lemma OnePassAdjusts(s: State, ns: i64, s': State)
    requires ns >= 0 && !Cached(s, ns)
    requires Pass(s.(offset := 0), ns) == s' && NearEnough(s', ns)
    ensures Adjusted(s, ns) == s'
  {
    OnePass(s.(offset := 0), ns);
    BreakEndsLoop(s.(offset := 0), ns, 1, MAX_PASSES);
  }
}
