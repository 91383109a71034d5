// Conversion between timer ticks and nanoseconds, with the cached online round
// trip adjustment and its offline optimisation (timeconversion.h, timeconversion.cpp).

module TimeConversions {
  import opened Word
  import opened FixedPoint
  import opened OfflineOptimization

  /** The fields of a TimeConversion, as a value. */
  datatype State = State(toNs: Factor, toTick: Factor, interval: u64, last: u64, offset: i64) {
    function N(): nat { toNs.Scaled() }
    function K(): nat { toTick.Scaled() }
  }

  /** Distance between a time point and the last adjustment, as the code computes it. */
  function Distance(s: State, uns: u64): nat
  {
    Abs(Signed(Wrap64(uns - s.last)))
  }

  /** One pass of the adjustment loop: a round trip around uns plus the present guess. */
  function Pass(s: State, uns: u64): State
  {
    var y := Wrap64(uns + s.offset);
    var last := Convert(Convert(y, s.toTick), s.toNs);
    s.(last := last, offset := Signed(Wrap64(y - last)))
  }

  /** The hard limit of the adjustment loop. */
  const MAX_PASSES: nat := 5

  /** The adjustment loop, with at most limit passes. */
  function Readjust(s: State, uns: u64, limit: nat): (r: State)
    ensures r.toNs == s.toNs && r.toTick == s.toTick && r.interval == s.interval
    decreases limit
  {
    if limit == 0 then s
    else
      var s' := Pass(s, uns);
      if Distance(s', uns) < s'.interval / 2 then s' else Readjust(s', uns, limit - 1)
  }

  lemma ReadjustOnce(s: State, uns: u64, limit: nat)
    requires limit > 0
    ensures var s' := Pass(s, uns);
      Readjust(s, uns, limit) == if Distance(s', uns) < s'.interval / 2 then s' else Readjust(s', uns, limit - 1)
  {
  }

  predicate Cached(s: State, ns: i64)
  {
    Distance(s, Wrap64(ns)) <= s.interval
  }

  /** The state ns2tick leaves behind. */
  function Adjusted(s: State, ns: i64): (r: State)
    ensures r.toNs == s.toNs && r.toTick == s.toTick && r.interval == s.interval
  {
    if Cached(s, ns) then s else Readjust(s.(offset := 0), Wrap64(ns), MAX_PASSES)
  }

  /** The ticks ns2tick returns. */
  function TicksOf(s: State, ns: i64): i64
  {
    var s' := Adjusted(s, ns);
    Signed(Convert(Wrap64(Wrap64(ns) + s'.offset), s'.toTick))
  }

  lemma TicksFrom(s: State, s': State, ns: i64)
    requires s' == Adjusted(s, ns)
    ensures TicksOf(s, ns) == Signed(Convert(Wrap64(Wrap64(ns) + s'.offset), s'.toTick))
  {
  }

  function NanosecondsOf(s: State, tick: i64): i64
  {
    Signed(Convert(Wrap64(tick), s.toNs))
  }

  /** The state after a history of ns2tick calls. */
  function After(s: State, calls: seq<i64>): State
  {
    if calls == [] then s else Adjusted(After(s, calls[..|calls| - 1]), calls[|calls| - 1])
  }

  // ----- the object

  class TimeConversion {
    var toNs: Factor
    var toTick: Factor
    var adjustIntervalNs: u64
    var lastAdjustTimeNs: u64
    var adjustOffsetNs: i64

    function Contents(): State
      reads this
    {
      State(toNs, toTick, adjustIntervalNs, lastAdjustTimeNs, adjustOffsetNs)
    }

    /**
     * Builds a converter from the two coefficients of a frequency. The first
     * approximation of the coefficients, made in floating point, is given.
     */
    constructor (ns: Factor, ticks: Factor)
      ensures toNs == ns && Tuned(ns, ticks, toTick)
      ensures adjustIntervalNs == ChosenInterval(toNs, toTick)
      ensures lastAdjustTimeNs == 0 && adjustOffsetNs == 0
    {
      var longUptimeTick := ConvertBy(LONG_UPTIME_NS, ticks);
      var delta := Bisect(ns, ticks, longUptimeTick);
      var tuned := ticks.Plus(delta);
      var interval := ChooseInterval(ns, tuned);
      toNs, toTick := ns, tuned;
      adjustIntervalNs := interval;
      lastAdjustTimeNs, adjustOffsetNs := 0, 0;
    }

    method Tick2ns(tick: i64) returns (ns: i64)
      ensures ns == NanosecondsOf(Contents(), tick)
    {
      var uns := ConvertBy(Wrap64(tick), toNs);
      ns := Signed(uns);
    }

    /** The body of the adjustment loop; true if the loop is left. */
    method AdjustOnce(uns: u64) returns (near: bool)
      modifies this`lastAdjustTimeNs, this`adjustOffsetNs
      ensures Contents() == Pass(old(Contents()), uns)
      ensures near <==> Distance(Contents(), uns) < Contents().interval / 2
    {
      var guess := Wrap64(uns + adjustOffsetNs);
      var there := ConvertBy(guess, toTick);
      lastAdjustTimeNs := ConvertBy(there, toNs);
      adjustOffsetNs := Signed(Wrap64(guess - lastAdjustTimeNs));
      near := Abs(Signed(Wrap64(uns - lastAdjustTimeNs))) < adjustIntervalNs / 2;
    }

    /** The adjustment loop. */
    method Adjust(uns: u64)
      modifies this`lastAdjustTimeNs, this`adjustOffsetNs
      ensures Contents() == Readjust(old(Contents()).(offset := 0), uns, MAX_PASSES)
    {
      adjustOffsetNs := 0;
      ghost var start := Contents();
      var i := 0;
      while i < MAX_PASSES
        invariant 0 <= i <= MAX_PASSES
        invariant toNs == old(toNs) && toTick == old(toTick) && adjustIntervalNs == old(adjustIntervalNs)
        invariant Readjust(start, uns, MAX_PASSES) == Readjust(Contents(), uns, MAX_PASSES - i)
      {
        ReadjustOnce(Contents(), uns, MAX_PASSES - i);
        var near := AdjustOnce(uns);
        if near { break; }
        i := i + 1;
      }
    }

    /** The first part of a conversion: a readjustment, if the time is too far from the last one. */
    method Settle(ns: i64)
      modifies this`lastAdjustTimeNs, this`adjustOffsetNs
      ensures Contents() == Adjusted(old(Contents()), ns)
    {
      if Abs(Signed(Wrap64(Wrap64(ns) - lastAdjustTimeNs))) > adjustIntervalNs {
        Adjust(Wrap64(ns));
      }
    }

    method Ns2tick(ns: i64) returns (tick: i64)
      modifies this`lastAdjustTimeNs, this`adjustOffsetNs
      ensures Contents() == Adjusted(old(Contents()), ns)
      ensures tick == TicksOf(old(Contents()), ns)
    {
      Settle(ns);
      TicksFrom(old(Contents()), Contents(), ns);
      var utick := ConvertBy(Wrap64(Wrap64(ns) + adjustOffsetNs), toTick);
      tick := Signed(utick);
    }
  }
}
