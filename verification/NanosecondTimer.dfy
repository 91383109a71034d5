// The timer in nanoseconds (os_timer.h): the adapter between ticks and true time, and the
// conversion between ticks and nanoseconds, put together.

module NanosecondTimers {
  import opened Common
  import opened Word
  import opened FixedPoint
  import opened TimeConversions
  import opened RoundTripArithmetic
  import opened OnlineAdjustment
  import opened OneTick
  import opened OsTimer
  import opened TimerAdapters

  // ----- reading the time

  /** tick is a time whose nanoseconds are not beyond the largest signed number. */
  predicate Representable(s: State, tick: nat)
  {
    tick < 0x8000_0000_0000_0000 && Scale(tick, s.N()) < 0x8000_0000_0000_0000
  }

  lemma LaterIsMore(s: State, s': State, t: nat, t': nat)
    requires Representable(s, t) && Representable(s', t') && s'.toNs == s.toNs && t <= t'
    ensures NanosecondsOf(s, t) <= NanosecondsOf(s', t')
  {
    ReadsTrueNanoseconds(s, t);
    ReadsTrueNanoseconds(s', t');
    ScaleMonotone(t, t', s.N());
  }

  /**
   * Times reported in nanoseconds never decrease, in any run of the timer, whatever is converted the
   * other way between the reports: conversions change nothing that is used here.
   */
  lemma NanosecondsNeverDecrease(p: nat, states: seq<Timer>, events: seq<Event>, i: nat, j: nat,
                                 s: State, calls: seq<i64>, now: State)
    requires Run(p, states, events) && i < j < |events| && Reported(events[i]).Some? && Reported(events[j]).Some?
    requires now == After(s, calls)
    requires Representable(s, Reported(events[i]).value) && Representable(now, Reported(events[j]).value)
    ensures NanosecondsOf(s, Reported(events[i]).value) <= NanosecondsOf(now, Reported(events[j]).value)
  {
    ReportsNeverDecrease(p, states, events, i, j);
    ConversionsKeepFactor(s, calls);
    LaterIsMore(s, now, Reported(events[i]).value, Reported(events[j]).value);
  }

  lemma {:induction false} ConversionsKeepFactor(s: State, calls: seq<i64>)
    ensures After(s, calls).toNs == s.toNs
  {
    if calls != [] { ConversionsKeepFactor(s, calls[..|calls| - 1]); }
  }

  // ----- setting an alarm

  /** How far an alarm can be from the nanoseconds it was set for; in units of 2^-64 ns. */
  function Tolerance(s: State): nat
  {
    s.interval * Abs(Skew(s.N(), s.K())) + 0x1_0000_0000 * s.N() + 0x1_0000_0000_0000_0000
  }

  /** The alarm that is set for ns is that near to it, on either side. */
  lemma AlarmNear(s: State, ns: i64)
    requires Design(s) && Measured(s) && ns >= 0 && ns + Adjusted(s, ns).offset >= 0 && TicksOf(s, ns) >= 0
    ensures Abs(ns - Scale(TicksOf(s, ns), s.N())) * 0x1_0000_0000_0000_0000 <= Tolerance(s)
  {
    CallKeepsMeasured(s, ns);
    TicksOfSettled(s, ns);
    var used := Adjusted(s, ns);
    var y :| MeasuredAt(used, y);
    var z := ns + used.offset;
    OffsetBounded(used, y, ns);
    ResultFits(used, z);
    Contraction(s.N(), s.K(), ns, y, z);
    MulMono(Abs(ns - used.last), Abs(Skew(s.N(), s.K())), s.interval, Abs(Skew(s.N(), s.K())));
  }

  /** In ticks: with a drift of c ticks over the interval, c + 1 of them. */
  lemma ToleranceInTicks(s: State, c: nat)
    requires DriftWithin(s, c)
    ensures Tolerance(s) <= 0x1_0000_0000 * ((c + 1) * s.N())
  {
    assert c * 0x1_0000_0000 * s.N() == 0x1_0000_0000 * (c * s.N());
    assert (c + 1) * s.N() == c * s.N() + s.N();
  }

  /**
   * From the step that sets an alarm for ns to the step that fires it: the time that is reported then
   * is early by the tolerance at most, and when the time is later than ns by that much and a tick, an
   * interrupt is raised and the next one fires the alarm.
   */
  lemma AlarmInNanoseconds(p: nat, states: seq<Timer>, events: seq<Event>, i: nat, j: nat, s: State, ns: i64)
    requires Run(p, states, events) && i < j <= |events| && Quiet(events, i + 1, j) && !states[i].late
    requires Design(s) && Measured(s) && ns >= 0 && ns + Adjusted(s, ns).offset >= 0 && TicksOf(s, ns) >= 0
    requires events[i] == Arm(TicksOf(s, ns))
    ensures j < |events| && events[j].Handle? && events[j].fired.Some? ==>
      (ns - Scale(events[j].fired.value, s.N())) * 0x1_0000_0000_0000_0000 <= Tolerance(s)
    ensures (Scale(states[j].now, s.N()) - ns) * 0x1_0000_0000_0000_0000 > Tolerance(s) ==>
      Raised(states[j]) && (j < |events| && events[j].Handle? ==> events[j].fired.Some?)
  {
    AlarmFiresInTime(p, states, events, i, j);
    AlarmNear(s, ns);
    var a := TicksOf(s, ns);
    if j < |events| && events[j].Handle? && events[j].fired.Some? {
      ScaleMonotone(a, events[j].fired.value, s.N());
    }
    if states[j].now < a { ScaleMonotone(states[j].now, a, s.N()); }
  }

  lemma SignedIsWord(tick: i64)
    requires tick >= 0
    ensures IsWord(tick)
  {
    assert Pow2(1) == 2;
    PowTwice(1, 2);
    PowTwice(2, 4);
    PowTwice(4, 16);
    PowTwice(8, 256);
    PowTwice(16, 0x1_0000);
    PowTwice(32, 0x1_0000_0000);
  }

  lemma PowTwice(bits: nat, p: nat)
    requires Pow2(bits) == p
    ensures Pow2(2 * bits) == p * p
  {
    PowPlus(bits, bits);
  }

  lemma {:induction false} PowPlus(a: nat, b: nat)
    ensures Pow2(a + b) == Pow2(a) * Pow2(b)
    decreases b
  {
    if b > 0 {
      PowPlus(a, b - 1);
      DoubleProduct(Pow2(a), Pow2(b - 1));
    }
  }

  // ----- the object

  class NanosecondTimer {
    const timer: TimerAdapter
    const tc: TimeConversion

    ghost predicate Valid()
      reads timer, timer.hw
    {
      timer.Fits() && Ready(timer.hw.period, timer.View())
    }

    constructor (timer: TimerAdapter, tc: TimeConversion)
      ensures this.timer == timer && this.tc == tc
    {
      this.timer, this.tc := timer, tc;
    }

    method IRQgetTimeNs(deadline: nat) returns (ns: i64)
      requires Valid() && Representable(tc.Contents(), timer.hw.now)
      requires timer.hw.now <= deadline < timer.hw.now + timer.hw.period && deadline < timer.upperTimeTick + 2 * timer.hw.period
      modifies timer.hw`now, timer.hw`counter, timer.hw`overflowFlag, timer.hw`matchFlag
      ensures Valid() && tc.Contents() == old(tc.Contents())
      ensures ns == Scale(old(timer.hw.now), tc.Contents().N())
      ensures Step(timer.hw.period, old(timer.View()), timer.View(), Read(old(timer.hw.now)))
    {
      ReadsTrueNanoseconds(tc.Contents(), timer.hw.now);
      var tick := timer.IRQgetTimeTick(deadline);
      ns := tc.Tick2ns(tick);
    }

    method IRQgetIrqNs() returns (ns: i64)
      requires Valid() && Representable(tc.Contents(), Alarm(timer.View()))
      ensures ns == Scale(Alarm(timer.View()), tc.Contents().N())
    {
      ReadsTrueNanoseconds(tc.Contents(), Alarm(timer.View()));
      var tick := timer.IRQgetIrqTick();
      ns := tc.Tick2ns(tick);
    }

    /** Sets the alarm for ns, which must be a time that converts to one. */
    method IRQsetIrqNs(ns: i64, deadline: nat)
      requires Valid() && TicksOf(tc.Contents(), ns) >= 0
      requires timer.hw.now <= deadline < timer.hw.now + timer.hw.period && deadline < timer.upperTimeTick + 2 * timer.hw.period
      modifies tc`lastAdjustTimeNs, tc`adjustOffsetNs, timer`upperIrqTick, timer`lateIrq
      modifies timer.hw`now, timer.hw`counter, timer.hw`overflowFlag, timer.hw`matchFlag, timer.hw`matchReg, timer.hw`pendingIrq
      ensures Valid() && tc.Contents() == Adjusted(old(tc.Contents()), ns)
      ensures Step(timer.hw.period, old(timer.View()), timer.View(), Arm(old(TicksOf(tc.Contents(), ns))))
      ensures Alarm(timer.View()) == old(TicksOf(tc.Contents(), ns))
    {
      ghost var was := timer.View();
      var tick := tc.Ns2tick(ns);
      assert timer.View() == was;
      SignedIsWord(tick);
      SetIrq(tick, deadline);
    }

    method SetIrq(tick: nat, deadline: nat)
      requires Valid() && IsWord(tick)
      requires timer.hw.now <= deadline < timer.hw.now + timer.hw.period && deadline < timer.upperTimeTick + 2 * timer.hw.period
      modifies timer`upperIrqTick, timer`lateIrq
      modifies timer.hw`now, timer.hw`counter, timer.hw`overflowFlag, timer.hw`matchFlag, timer.hw`matchReg, timer.hw`pendingIrq
      ensures Valid() && Step(timer.hw.period, old(timer.View()), timer.View(), Arm(tick))
    {
      ghost var readAt := timer.IRQsetIrqTick(tick, deadline);
    }

    /** Moves the clock to ns if that is later; a time that converts to none is not. */
    method IRQsetTimeNs(ns: i64)
      requires Valid() && timer.hw.running && IsWord(Alarm(timer.View()))
      modifies tc`lastAdjustTimeNs, tc`adjustOffsetNs, timer, timer.hw
      ensures Valid() && timer.hw.running && tc.Contents() == Adjusted(old(tc.Contents()), ns)
      ensures var tick := old(TicksOf(tc.Contents(), ns));
        && Step(timer.hw.period, old(timer.View()), timer.View(), Jump(if tick > 0 then tick else 0))
        && timer.hw.now == if tick > old(timer.hw.now) then tick else old(timer.hw.now)
    {
      ghost var was := timer.View();
      var tick := tc.Ns2tick(ns);
      assert timer.View() == was;
      SignedIsWord(if tick > 0 then tick else 0);
      SetTime(if tick > 0 then tick else 0);
    }

    method SetTime(tick: nat)
      requires Valid() && timer.hw.running && IsWord(tick) && IsWord(Alarm(timer.View()))
      modifies timer, timer.hw
      ensures Valid() && timer.hw.running && Step(timer.hw.period, old(timer.View()), timer.View(), Jump(tick))
    {
      timer.IRQsetTimeTick(tick);
    }
  }
}
