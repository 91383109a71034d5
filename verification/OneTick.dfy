// When ns2tick keeps its promise of less than two ticks (timeconversion.cpp): the exact
// condition for a call, and the calls that always meet it.

module OneTick {
  import opened Word
  import opened FixedPoint
  import opened TimeConversions
  import opened RoundTripArithmetic
  import opened OnlineAdjustment

  /** What the roundings of three conversions, the two of the measurement and that of tick t, add up to. */
  function Rounding(s: State, t: nat): int
    requires s.last + s.offset >= 0
  {
    var y := s.last + s.offset;
    Rounded(y * s.K() % 0x1_0000_0000, Scale(y, s.K()) * s.N() % 0x1_0000_0000, t * s.N() % 0x1_0000_0000, s.N())
  }

  function Rounded(a: int, d: int, b: int, N: int): int
  {
    a * N + (d - b) * 0x1_0000_0000
  }

  /** How far the skew takes the conversion of ns with the offset measured at the last adjustment. */
  function Drift(s: State, ns: int): int
  {
    (ns - s.last) * Skew(s.N(), s.K())
  }

  /** Neither the skew nor the roundings take the result as far as two ticks; in units of 2^-64 ns. */
  predicate WithinOne(s: State, ns: nat, t: nat)
    requires s.last + s.offset >= 0
  {
    -0x1_0000_0000 * s.N() <= Rounding(s, t) + Drift(s, ns) < 0x2_0000_0000 * s.N()
  }

  lemma RestIs(x: nat, factor: nat)
    ensures x * factor == Scale(x, factor) * 0x1_0000_0000 + x * factor % 0x1_0000_0000
  {
  }

  /** The value that is converted, times both coefficients. */
  lemma ConvertedIs(s: State, t: nat)
    requires s.last + s.offset >= 0 && s.last == RoundTrip(s.last + s.offset, s.N(), s.K())
    ensures var ns := Scale(t, s.N());
      (ns + s.offset) * s.K() * s.N() == t * s.N() * 0x1_0000_0000 + Rounding(s, t) + Drift(s, ns)
  {
    var y, N, K := s.last + s.offset, s.N(), s.K();
    RestIs(y, K);
    RestIs(Scale(y, K), N);
    RestIs(t, N);
    DriftIdentity(N, K, y, Scale(y, K), t, s.last, Scale(t, N),
                  y * K % 0x1_0000_0000, t * N % 0x1_0000_0000, Scale(y, K) * N % 0x1_0000_0000);
  }

  /** Bounds on the result are bounds on the value before the division. */
  lemma ResultIff(z: int, K: nat, N: nat, t: nat, e: int)
    requires N > 0 && z * K * N == t * N * 0x1_0000_0000 + e
    ensures (t - 1) * 0x1_0000_0000 <= z * K < (t + 2) * 0x1_0000_0000 <==> -0x1_0000_0000 * N <= e < 0x2_0000_0000 * N
  {
    var x, tN := z * K, t * N;
    assert t * N * 0x1_0000_0000 == tN * 0x1_0000_0000;
    assert (t - 1) * 0x1_0000_0000 * N == (tN - N) * 0x1_0000_0000;
    assert (t + 2) * 0x1_0000_0000 * N == (tN + 2 * N) * 0x1_0000_0000;
    OrderIff((t - 1) * 0x1_0000_0000, x, N);
    OrderIff((t + 2) * 0x1_0000_0000, x, N);
  }

  lemma OrderIff(x: int, y: int, n: nat)
    requires n > 0
    ensures x <= y <==> x * n <= y * n
  {
    if x <= y { OrderTimes(x, y, n); } else { OrderTimes(y + 1, x, n); }
  }

  lemma ScaleIff(z: nat, K: nat, t: nat)
    ensures Abs(Scale(z, K) - t) <= 1 <==> (t - 1) * 0x1_0000_0000 <= z * K < (t + 2) * 0x1_0000_0000
  {
    ScaleBounds(z, K);
  }

  /** Reading the result as signed does not bring it nearer. */
  lemma SignedResult(s: State, z: nat, t: nat)
    requires Design(s) && z < 0x8008_0000_0000_0000 && t + 1 < 0x8000_0000_0000_0000
    ensures Abs(Signed(Convert(Wrap64(z), s.toTick)) - t) <= 1 <==> Abs(Scale(z, s.K()) - t) <= 1
  {
    ResultFits(s, z);
  }

  lemma ResultFits(s: State, z: nat)
    requires Design(s) && z < 0x8008_0000_0000_0000
    ensures Scale(z, s.K()) < 0x8100_0000_0000_0000 && Convert(Wrap64(z), s.toTick) == Scale(z, s.K())
  {
    TickCoefficientBound(s.N(), s.K());
    assert z * s.K() <= 0x8008_0000_0000_0000 * 0x1_0004_0000 by { MulMono(z, s.K(), 0x8008_0000_0000_0000, 0x1_0004_0000); }
    ScaleBounds(z, s.K());
  }

  /** A settled cache: the offset that the call uses does not take the time below zero. */
  lemma SettledIff(s: State, y: nat, t: nat, ns: nat, z: nat)
    requires Design(s) && MeasuredAt(s, y) && ns == Scale(t, s.N()) && z == ns + s.offset
    requires z < 0x8008_0000_0000_0000 && t + 1 < 0x8000_0000_0000_0000
    ensures Abs(Signed(Convert(Wrap64(z), s.toTick)) - t) <= 1 <==> WithinOne(s, ns, t)
  {
    ConvertedIs(s, t);
    ResultIff(z, s.K(), s.N(), t, Rounding(s, t) + Drift(s, ns));
    ScaleIff(z, s.K(), t);
    SignedResult(s, z, t);
  }

  // ----- a time below zero

  /** A time that the offset takes below zero is early, and comes back far from where it was. */
  lemma BelowZeroFar(s: State, y: nat, t: nat, ns: nat, z: int)
    requires Design(s) && MeasuredAt(s, y) && ns == Scale(t, s.N()) && z == ns + s.offset < 0 && s.toTick.i == 0
    ensures Abs(Signed(Convert(Wrap64(z), s.toTick)) - t) > 1
  {
    OffsetAbove(s, y);
    LargeCoefficient(s);
    BelowOne(s.toTick);
    EarlyTick(s.N(), s.K(), t, ns);
    FarResult(0x1_0000_0000_0000_0000 + z, s.K(), t);
    ConvertWrapped(s.toTick, z);
  }

  lemma OffsetAbove(s: State, y: nat)
    requires Design(s) && MeasuredAt(s, y)
    ensures s.offset > -0x4_0000_0000_0000
  {
    RoundTripNear(s, y);
  }

  lemma ConvertWrapped(tcf: Factor, z: int)
    requires -0x4_0000_0000_0000 < z < 0 && Scale(0x1_0000_0000_0000_0000 + z, tcf.Scaled()) < 0x1_0000_0000_0000_0000
    ensures Convert(Wrap64(z), tcf) == Scale(0x1_0000_0000_0000_0000 + z, tcf.Scaled())
  {
    assert Wrap64(z) == 0x1_0000_0000_0000_0000 + z;
  }

  lemma BelowOne(tcf: Factor)
    requires tcf.i == 0
    ensures tcf.Scaled() < 0x1_0000_0000
  {
  }

  lemma LargeCoefficient(s: State)
    requires Design(s)
    ensures s.K() >= 40_000
  {
    if s.K() < 40_000 { MulMono(s.K(), s.N(), 40_000, 429_496_729_600_000); }
  }

  lemma EarlyTick(N: nat, K: nat, t: nat, ns: nat)
    requires ns == Scale(t, N) && ns < 0x4_0000_0000_0000 && Skew(N, K) >= -0x4_0000_0000_0000
    ensures t <= 0x8_0000 * K
  {
    ScaleBounds(t, N);
    var P := K * N;
    assert t * N * K == t * P;
    assert t * 0x8000_0000_0000_0000 <= t * P by { MulMono(t, 0x8000_0000_0000_0000, t, P); }
    assert t * N * K <= (ns + 1) * 0x1_0000_0000 * K by { OrderTimes(t * N, (ns + 1) * 0x1_0000_0000, K); }
    assert (ns + 1) * 0x1_0000_0000 * K <= 0x4_0000_0000_0000 * 0x1_0000_0000 * K by { OrderTimes(ns + 1, 0x4_0000_0000_0000, K * 0x1_0000_0000); }
  }

  lemma FarResult(w: nat, K: nat, t: nat)
    requires 0xfff0_0000_0000_0000 <= w < 0x1_0000_0000_0000_0000 && 40_000 <= K < 0x1_0000_0000 && t <= 0x8_0000 * K
    ensures var r := Scale(w, K);
      r < 0x1_0000_0000_0000_0000 && Abs(Signed(r) - t) > 1
  {
    ScaleBounds(w, K);
    assert w * K >= 0xfff0_0000_0000_0000 * K by { OrderTimes(0xfff0_0000_0000_0000, w, K); }
    assert w * K <= 0x1_0000_0000_0000_0000 * K by { OrderTimes(w, 0x1_0000_0000_0000_0000, K); }
  }

  // ----- the calls

  /**
   * Exactly when a call is within one tick, less than two: the offset that it uses does not take the
   * time below zero, and the skew between the time and the last adjustment does not add up to two.
   */
  lemma CallIff(s: State, t: nat)
    requires Design(s) && Measured(s) && s.toTick.i == 0
    requires Scale(t, s.N()) < 0x8000_0000_0000_0000 && t + 1 < 0x8000_0000_0000_0000
    ensures var ns := Scale(t, s.N());
      var used := Adjusted(s, ns);
      && used.last + used.offset >= 0
      && (Abs(TicksOf(s, ns) - t) <= 1 <==> ns + used.offset >= 0 && WithinOne(used, ns, t))
  {
    var ns := Scale(t, s.N());
    CallKeepsMeasured(s, ns);
    TicksOfSettled(s, ns);
    var used := Adjusted(s, ns);
    var y :| MeasuredAt(used, y);
    if ns + used.offset >= 0 {
      OffsetBounded(used, y, ns);
      SettledIff(used, y, t, ns, ns + used.offset);
    } else {
      BelowZeroFar(used, y, t, ns, ns + used.offset);
    }
  }

  lemma OffsetBounded(s: State, y: nat, ns: nat)
    requires Design(s) && MeasuredAt(s, y) && ns < 0x8000_0000_0000_0000
    ensures ns + s.offset < 0x8008_0000_0000_0000
  {
    RoundTripNear(s, y);
  }

  /** The same after every history of calls. */
  lemma HistoryIff(s: State, calls: seq<i64>, now: State, t: nat)
    requires Design(s) && s.toTick.i == 0 && s.last == 0 && s.offset == 0
    requires (forall i :: 0 <= i < |calls| ==> calls[i] >= 0) && now == After(s, calls)
    requires Scale(t, s.N()) < 0x8000_0000_0000_0000 && t + 1 < 0x8000_0000_0000_0000
    ensures var ns := NanosecondsOf(now, t);
      var used := Adjusted(now, ns);
      && 0 <= ns && used.last + used.offset >= 0
      && (Abs(TicksOf(now, ns) - t) <= 1 <==> ns + used.offset >= 0 && WithinOne(used, ns, t))
  {
    HistoryKeepsMeasured(s, calls);
    ReadsTrueNanoseconds(now, t);
    CallIff(now, t);
  }

  // ----- a condition without the roundings

  lemma RoundingBounds(s: State, t: nat)
    requires s.last + s.offset >= 0
    ensures -0x1_0000_0000_0000_0000 < Rounding(s, t) < 0x1_0000_0000 * s.N() + 0x1_0000_0000_0000_0000
  {
    var a := (s.last + s.offset) * s.K() % 0x1_0000_0000;
    assert 0 <= a * s.N() <= 0xffff_ffff * s.N() by { MulMono(a, s.N(), 0xffff_ffff, s.N()); }
  }

  /** A drift of a tick less a nanosecond is always safe, and one of two ticks and a nanosecond never is. */
  lemma DriftDecides(s: State, ns: nat, t: nat)
    requires s.last + s.offset >= 0
    ensures Abs(Drift(s, ns)) + 0x1_0000_0000_0000_0000 <= 0x1_0000_0000 * s.N() ==> WithinOne(s, ns, t)
    ensures Abs(Drift(s, ns)) >= 0x2_0000_0000 * s.N() + 0x1_0000_0000_0000_0000 ==> !WithinOne(s, ns, t)
  {
    RoundingBounds(s, t);
  }

  /** The time is as near to the last adjustment as makes the drift safe. */
  predicate SafeDistance(s: State, ns: int)
  {
    Abs(Drift(s, ns)) + 0x1_0000_0000_0000_0000 <= 0x1_0000_0000 * s.N()
  }

  lemma NearIsSafe(s: State, ns: nat, distance: nat)
    requires Abs(ns - s.last) <= distance
    requires distance * Abs(Skew(s.N(), s.K())) + 0x1_0000_0000_0000_0000 <= 0x1_0000_0000 * s.N()
    ensures SafeDistance(s, ns)
  {
    ProductAbs(ns - s.last, Skew(s.N(), s.K()), distance, Abs(Skew(s.N(), s.K())));
  }

  /** A drift that is safe takes no time but zero below zero. */
  lemma SafeAboveZero(s: State, t: nat, ns: nat)
    requires s.last + s.offset >= 0 && s.last == RoundTrip(s.last + s.offset, s.N(), s.K())
    requires t > 0 && s.N() > 0 && ns == Scale(t, s.N()) && SafeDistance(s, ns)
    ensures ns + s.offset >= 0
  {
    ConvertedIs(s, t);
    RoundingBounds(s, t);
    NotNegative(ns + s.offset, s.K(), s.N(), t, Rounding(s, t) + Drift(s, ns));
  }

  lemma NotNegative(z: int, K: nat, N: nat, t: nat, e: int)
    requires z * K * N == t * N * 0x1_0000_0000 + e && t > 0 && N > 0 && e > -0x1_0000_0000 * N
    ensures z >= 0
  {
    assert t * N >= N by { MulMono(1, N, t, N); }
    assert t * N * 0x1_0000_0000 >= N * 0x1_0000_0000;
    if z < 0 {
      OrderTimes(z, 0, K);
      OrderTimes(z * K, 0, N);
    }
  }

  /** At 1 GHz and above, a drift that is safe at time zero leaves no negative offset. */
  lemma SafeAtTop(s: State, y: nat)
    requires Design(s) && MeasuredAt(s, y) && s.K() >= 0x1_0000_0000 && SafeDistance(s, 0)
    ensures s.offset >= 0
  {
    if s.last > 1 {
      AbsProductNegated(s.last, Skew(s.N(), s.K()));
      ExactPair(s.N(), s.K(), s.last);
    } else {
      ZeroTrip(s.N(), s.K());
    }
  }

  lemma AbsProductNegated(x: nat, y: int)
    ensures Abs((0 - x) * y) >= x * y
  {
    assert (0 - x) * y == -(x * y);
  }

  /** So much room only exact coefficients leave. */
  lemma ExactPair(N: nat, K: nat, last: nat)
    requires N >= 0x1_0000_0000 && K >= 0x1_0000_0000 && last > 1
    requires last * Skew(N, K) + 0x1_0000_0000_0000_0000 <= 0x1_0000_0000 * N
    ensures N == 0x1_0000_0000 && K == 0x1_0000_0000
  {
    var skew := Skew(N, K);
    assert skew >= 0x1_0000_0000 * N - 0x1_0000_0000_0000_0000 by { OrderTimes(0x1_0000_0000, K, N); }
    assert last * skew >= 2 * skew by { MulMono(2, skew, last, skew); }
    assert N == 0x1_0000_0000;
  }

  lemma ZeroTrip(N: nat, K: nat)
    ensures RoundTrip(0, N, K) == 0
  {
    ScaleZero(K);
    ScaleZero(N);
  }

  /**
   * A call whose time is safely near the last adjustment is within one tick for every time but zero,
   * and for zero exactly when the call readjusts or finds an offset that is not negative.
   */
  lemma SafeCall(s: State, t: nat, ns: i64)
    requires Design(s) && Measured(s) && ns == Scale(t, s.N()) && t + 1 < 0x8000_0000_0000_0000
    requires SafeDistance(Adjusted(s, ns), ns)
    ensures Abs(TicksOf(s, ns) - t) <= 1 <==> t > 0 || !Cached(s, 0) || s.offset >= 0
  {
    CallKeepsMeasured(s, ns);
    TicksOfSettled(s, ns);
    var used := Adjusted(s, ns);
    var y :| MeasuredAt(used, y);
    DriftDecides(used, ns, t);
    if t > 0 {
      SafeAboveZero(used, t, ns);
    } else {
      ScaleZero(s.N());
      ZeroOffset(s);
    }
    SafeResult(used, y, t, ns);
  }

  lemma ScaleZero(factor: nat)
    ensures Scale(0, factor) == 0
  {
  }

  lemma SafeResult(s: State, y: nat, t: nat, ns: nat)
    requires Design(s) && MeasuredAt(s, y) && ns == Scale(t, s.N()) && WithinOne(s, ns, t) && SafeDistance(s, ns)
    requires ns < 0x8000_0000_0000_0000 && t + 1 < 0x8000_0000_0000_0000 && (ns + s.offset >= 0 || t == 0)
    ensures Abs(Signed(Convert(Wrap64(ns + s.offset), s.toTick)) - t) <= 1 <==> ns + s.offset >= 0
  {
    if ns + s.offset >= 0 {
      OffsetBounded(s, y, ns);
      SettledIff(s, y, t, ns, ns + s.offset);
    } else {
      ScaleZero(s.N());
      if s.toTick.i == 0 { BelowZeroFar(s, y, t, ns, ns + s.offset); } else { SafeAtTop(s, y); }
    }
  }

  /** Half the interval is a safe distance. */
  predicate HalfSafe(s: State)
  {
    s.interval / 2 * Abs(Skew(s.N(), s.K())) + 0x1_0000_0000_0000_0000 <= 0x1_0000_0000 * s.N()
  }

  /** Then every call that readjusts is within one tick, for time zero too. */
  lemma ReadjustedOneTick(s: State, t: nat, ns: i64)
    requires Design(s) && Measured(s) && HalfSafe(s)
    requires ns == Scale(t, s.N()) && t + 1 < 0x8000_0000_0000_0000 && !Cached(s, ns)
    ensures Abs(TicksOf(s, ns) - t) <= 1
  {
    ReadjustedNear(s, ns);
    ScaleZero(s.N());
    SafeCall(s, t, ns);
  }

  lemma ReadjustedNear(s: State, ns: i64)
    requires Design(s) && HalfSafe(s) && ns >= 0 && !Cached(s, ns)
    ensures SafeDistance(Adjusted(s, ns), ns)
  {
    assert Wrap64(ns) == ns;
    var k := ReadjustConverges(s.(offset := 0), ns);
    NearIsSafe(Adjusted(s, ns), ns, s.interval / 2);
  }

  lemma ReadjustedAfterHistory(s: State, calls: seq<i64>, now: State, t: nat)
    requires Design(s) && HalfSafe(s) && s.last == 0 && s.offset == 0
    requires (forall i :: 0 <= i < |calls| ==> calls[i] >= 0) && now == After(s, calls)
    requires Scale(t, s.N()) < 0x8000_0000_0000_0000 && t + 1 < 0x8000_0000_0000_0000
    requires !Cached(now, NanosecondsOf(now, t))
    ensures Abs(TicksOf(now, NanosecondsOf(now, t)) - t) <= 1
  {
    HistoryKeepsMeasured(s, calls);
    ReadsTrueNanoseconds(now, t);
    ReadjustedOneTick(now, t, NanosecondsOf(now, t));
  }

  /** After every history: what is converted at a safe distance comes back within one tick, but for time zero. */
  lemma SafeAfterHistory(s: State, calls: seq<i64>, now: State, t: nat)
    requires Design(s) && s.last == 0 && s.offset == 0
    requires (forall i :: 0 <= i < |calls| ==> calls[i] >= 0) && now == After(s, calls)
    requires Scale(t, s.N()) < 0x8000_0000_0000_0000 && t + 1 < 0x8000_0000_0000_0000
    requires SafeDistance(Adjusted(now, NanosecondsOf(now, t)), NanosecondsOf(now, t))
    ensures Abs(TicksOf(now, NanosecondsOf(now, t)) - t) <= 1 <==> t > 0 || !Cached(now, 0) || now.offset >= 0
  {
    HistoryKeepsMeasured(s, calls);
    ReadsTrueNanoseconds(now, t);
    SafeCall(now, t, NanosecondsOf(now, t));
  }
}
