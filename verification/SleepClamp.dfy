// Why nanoSleepUntil (kernel.cpp) does not let a sleep end before 100 microseconds
// after boot: the offset of the time conversion cannot take such a time below zero.

module SleepClamp {
  import opened Word
  import opened FixedPoint
  import opened TimeConversions
  import opened RoundTripArithmetic
  import opened OnlineAdjustment
  import opened OfflineOptimization
  import opened ConstructedTimer

  const EARLIEST: i64 := 100_000

  /** The later of the time asked for and the earliest one. */
  function Clamped(absoluteTimeNs: i64): (r: i64)
    ensures r >= absoluteTimeNs && r >= 100_000 && (r == absoluteTimeNs || r == 100_000)
  {
    if absoluteTimeNs > EARLIEST then absoluteTimeNs else EARLIEST
  }

  /** The time that a measured offset takes away is the skew over the time itself and one interval. */
  lemma OffsetBelow(s: State, ns: nat)
    requires Design(s) && Measured(s) && Abs(ns - s.last) <= s.interval
    ensures BoundedBelow(s.offset, ns, s.interval * Abs(Skew(s.N(), s.K())))
    ensures s.offset <= 0x4000_0000_0000_0000
  {
    var y: nat :| MeasuredAt(s, y);
    RoundTripNear(s, y);
    RoundTripError(s.N(), s.K(), y);
    if s.offset < 0 {
      OffsetProduct(s.offset, y, Skew(s.N(), s.K()), ns, s.interval);
    } else {
      MulMono(0, 0, s.interval, Abs(Skew(s.N(), s.K())));
    }
  }

  /** In units of 2^-64 ns; p is the interval times the skew. */
  predicate BoundedBelow(offset: int, ns: nat, p: int)
  {
    offset * 0x1_0000_0000_0000_0000 + ns * 0x4_0000_0000_0000 + p >= 0
  }

  lemma OffsetProduct(offset: int, y: nat, skew: int, ns: nat, interval: nat)
    requires -(y * skew) <= offset * 0x1_0000_0000_0000_0000
    requires y <= ns + interval && Abs(skew) <= 0x4_0000_0000_0000
    ensures BoundedBelow(offset, ns, interval * Abs(skew))
  {
    var a := Abs(skew);
    assert y * skew <= (ns + interval) * a by { ProductAbs(y, skew, ns + interval, a); }
    assert (ns + interval) * a == ns * a + interval * a;
    assert ns * a <= ns * 0x4_0000_0000_0000 by { MulMono(ns, a, ns, 0x4_0000_0000_0000); }
  }

  /** The skew takes no more than the clamp over one interval. */
  predicate SkewBelowClamp(s: State)
  {
    s.interval * Abs(Skew(s.N(), s.K())) <= 99_993 * 0x1_0000_0000_0000_0000
  }

  /** The numbers: p is the interval times the skew. */
  lemma ClampSuffices(ns: nat, offset: int, p: int)
    requires ns >= 100_000 && p <= 99_993 * 0x1_0000_0000_0000_0000 && BoundedBelow(offset, ns, p)
    ensures ns + offset >= 0
  {
  }

  /** A clamped sleep is never taken below zero, after any history of conversions. */
  lemma ClampedSleepConverts(s: State, calls: seq<i64>, now: State, requested: i64)
    requires Design(s) && s.last == 0 && s.offset == 0 && (SkewBelowClamp(s) || Skew(s.N(), s.K()) <= 0)
    requires (forall i :: 0 <= i < |calls| ==> calls[i] >= 0) && now == After(s, calls)
    ensures var used := Clamped(requested) + Adjusted(now, Clamped(requested)).offset;
      && 0 <= used < 0x1_0000_0000_0000_0000
      && TicksOf(now, Clamped(requested)) == Signed(Convert(used, s.toTick))
  {
    var ns := Clamped(requested);
    HistoryKeepsMeasured(s, calls);
    CallKeepsMeasured(now, ns);
    var settled := Adjusted(now, ns);
    TicksOfSettled(now, ns);
    NotBelowZero(s, settled, ns);
  }

  lemma NotBelowZero(s: State, settled: State, ns: nat)
    requires Design(s) && (SkewBelowClamp(s) || Skew(s.N(), s.K()) <= 0)
    requires SameDesign(s, settled) && Measured(settled) && Abs(ns - settled.last) <= s.interval
    requires 100_000 <= ns < 0x8000_0000_0000_0000
    ensures 0 <= ns + settled.offset < 0x1_0000_0000_0000_0000
    ensures Wrap64(ns + settled.offset) == ns + settled.offset
  {
    OffsetBelow(settled, ns);
    if SkewBelowClamp(s) {
      ClampSuffices(ns, settled.offset, s.interval * Abs(Skew(s.N(), s.K())));
    } else {
      OffsetNotNegative(settled);
    }
  }

  /** The clamp is enough for every timer that the constructor sets up from 10001 Hz on. */
  lemma ConstructedSleepConverts(toNs: Factor, ticks: Factor, s: State, calls: seq<i64>, now: State, requested: i64)
    requires Approximations(toNs, ticks) && toNs.Scaled() <= 99_992 * 0x1_0000_0000
    requires s.toNs == toNs && Tuned(toNs, ticks, s.toTick) && s.interval == ChosenInterval(s.toNs, s.toTick)
    requires s.last == 0 && s.offset == 0
    requires (forall i :: 0 <= i < |calls| ==> calls[i] >= 0) && now == After(s, calls)
    ensures var used := Clamped(requested) + Adjusted(now, Clamped(requested)).offset;
      && 0 <= used < 0x1_0000_0000_0000_0000
      && TicksOf(now, Clamped(requested)) == Signed(Convert(used, s.toTick))
  {
    ConstructedMeetsDesign(toNs, ticks, s);
    if Skew(s.N(), s.K()) > 0 { ConstructedSkewBelowClamp(s); }
    ClampedSleepConverts(s, calls, now, requested);
  }

  lemma ConstructedSkewBelowClamp(s: State)
    requires Design(s) && Skew(s.N(), s.K()) > 0 && s.N() <= 99_992 * 0x1_0000_0000
    requires s.interval == ChosenInterval(s.toNs, s.toTick)
    ensures SkewBelowClamp(s)
  {
    TickCoefficientBound(s.N(), s.K());
    var last := ChosenIntervalFrom(s.toNs, s.toTick);
    if s.interval > 125_000_000 {
      LossWithoutCorrection(s, Scale(last, s.K()));
      SmallLossPositiveSkew(s.N(), s.K(), last);
    } else {
      MulMono(s.interval, Abs(Skew(s.N(), s.K())), 125_000_000, 0x4_0000_0000_0000);
    }
  }
}
