// The timer adapter itself (os_timer.h): the hardware's registers, on which time can
// pass between any two accesses, and the methods that extend the counter to 64 bits.

module TimerAdapters {
  import opened Common
  import opened Word
  import opened OsTimer

  class HwTimer {
    const period: nat
    var now: nat
    var running: bool
    var counter: nat
    var overflowFlag: bool
    var matchReg: nat
    var matchFlag: bool
    var pendingIrq: bool

    constructor (period: nat)
      requires period > 0
      ensures this.period == period && now == 0 && counter == 0 && matchReg == 0
      ensures running && !overflowFlag && !matchFlag && !pendingIrq
    {
      this.period := period;
      now, running, counter, matchReg := 0, true, 0, 0;
      overflowFlag, matchFlag, pendingIrq := false, false, false;
    }

    /** One period of the clock that drives the counter. */
    method Tick()
      requires counter < period
      modifies this`now, this`counter, this`overflowFlag, this`matchFlag
      ensures !running ==> now == old(now) && counter == old(counter)
      ensures !running ==> overflowFlag == old(overflowFlag) && matchFlag == old(matchFlag)
      ensures running ==> now == old(now) + 1
      ensures running ==> counter == (if old(counter) + 1 == period then 0 else old(counter) + 1)
      ensures running ==> overflowFlag == (old(overflowFlag) || counter == 0)
      ensures running ==> matchFlag == (old(matchFlag) || counter == matchReg)
    {
      if running {
        now := now + 1;
        counter := counter + 1;
        if counter == period {
          counter := 0;
          overflowFlag := true;
        }
        if counter == matchReg { matchFlag := true; }
      }
    }
  }

  class TimerAdapter {
    const hw: HwTimer
    const bits: nat
    var upperTimeTick: nat
    var upperIrqTick: nat
    var lateIrq: bool

    ghost predicate Fits()
      reads this
    {
      bits <= 32 && hw.period == Pow2(bits)
    }

    function View(): Timer
      reads this, hw
    {
      Timer(hw.now, hw.counter, hw.overflowFlag, hw.matchReg, hw.matchFlag, hw.pendingIrq,
            upperTimeTick, upperIrqTick, lateIrq)
    }

    constructor (bits: nat)
      requires bits <= 32
      ensures Fits() && fresh(hw) && hw.running && Ready(hw.period, View()) && hw.now == 0 && !lateIrq
    {
      this.bits := bits;
      hw := new HwTimer(Pow2(bits));
      upperTimeTick, upperIrqTick, lateIrq := 0, 0, false;
      new;
      NoTimeYet(Pow2(bits), View());
    }

    /** Any amount of time up to the deadline passes; upper is the time that the counter and the flag add to. */
    method Elapse(deadline: nat, ghost upper: nat)
      requires Fits() && Synced(hw.period, upper, View()) && hw.matchReg < hw.period
      requires hw.now <= deadline < upper + 2 * hw.period
      modifies hw`now, hw`counter, hw`overflowFlag, hw`matchFlag
      ensures Synced(hw.period, upper, View()) && Later(hw.period, old(View()), View()) && hw.now <= deadline
      ensures !hw.running ==> View() == old(View())
    {
      ghost var s := View();
      StillLater(hw.period, s);
      while *
        invariant Synced(hw.period, upper, View()) && Later(hw.period, s, View()) && hw.now <= deadline
        invariant !hw.running ==> View() == s
        decreases deadline - hw.now
      {
        if !hw.running || hw.now == deadline { break; }
        ghost var r := View();
        hw.Tick();
        CounterIs(hw.period, upper, View());
        TickLater(hw.period, s, r, View());
      }
    }

    /** The pending bit trick: the true time of the first read of the counter, whatever happens meanwhile. */
    method IRQgetTimeTick(deadline: nat) returns (tick: nat)
      requires Fits() && Synced(hw.period, upperTimeTick, View()) && hw.matchReg < hw.period
      requires hw.now <= deadline < hw.now + hw.period && deadline < upperTimeTick + 2 * hw.period
      modifies hw`now, hw`counter, hw`overflowFlag, hw`matchFlag
      ensures tick == old(hw.now) && (old(Ready(hw.period, View())) ==> Step(hw.period, old(View()), View(), Read(tick)))
      ensures Synced(hw.period, upperTimeTick, View()) && Later(hw.period, old(View()), View()) && hw.now <= deadline
      ensures !hw.running ==> View() == old(View())
    {
      ghost var s := View();
      var counter := hw.counter;
      OrIsPlus(upperTimeTick, counter, bits);
      Elapse(deadline, upperTimeTick);
      ghost var r := View();
      var pending := hw.overflowFlag;
      if pending {
        Elapse(deadline, upperTimeTick);
        LaterTwice(hw.period, s, r, View());
        if hw.counter >= counter {
          return BitOr(upperTimeTick, counter) + hw.period;
        }
      }
      return BitOr(upperTimeTick, counter);
    }

    function IRQgetIrqTick(): (tick: nat)
      requires Fits() && AlarmSet(hw.period, View())
      reads this, hw
      ensures tick == Alarm(View())
    {
      OrIsPlus(upperIrqTick, hw.matchReg, bits);
      BitOr(upperIrqTick, hw.matchReg)
    }

    /** Writes the time of the alarm to the upper part in software and the match register. */
    method SetAlarm(tick: nat, deadline: nat)
      requires Fits() && Synced(hw.period, upperTimeTick, View()) && hw.matchReg < hw.period && IsWord(tick)
      requires hw.now <= deadline < upperTimeTick + 2 * hw.period
      modifies this`upperIrqTick, hw`now, hw`counter, hw`overflowFlag, hw`matchFlag, hw`matchReg
      ensures Synced(hw.period, upperTimeTick, View()) && AlarmSet(hw.period, View()) && Alarm(View()) == tick
      ensures old(hw.now) <= hw.now <= deadline && (old(hw.matchFlag) ==> hw.matchFlag)
    {
      MaskParts(tick, bits);
      upperIrqTick := Upper(tick, bits);
      Elapse(deadline, upperTimeTick);
      hw.matchReg := Lower(tick, bits);
    }

    method IRQsetIrqTick(tick: nat, deadline: nat) returns (ghost readAt: nat)
      requires Fits() && Synced(hw.period, upperTimeTick, View()) && hw.matchReg < hw.period && IsWord(tick)
      requires hw.now <= deadline < hw.now + hw.period && deadline < upperTimeTick + 2 * hw.period
      modifies this`upperIrqTick, this`lateIrq, hw`now, hw`counter, hw`overflowFlag, hw`matchFlag, hw`matchReg, hw`pendingIrq
      ensures Synced(hw.period, upperTimeTick, View()) && AlarmSet(hw.period, View())
      ensures Armed(hw.period, old(View()), View(), tick, readAt) && hw.now <= deadline
      ensures upperIrqTick + hw.matchReg == tick && (lateIrq <==> old(lateIrq) || tick <= readAt)
      ensures old(Ready(hw.period, View())) ==> Step(hw.period, old(View()), View(), Arm(tick))
    {
      SetAlarm(tick, deadline);
      Elapse(deadline, upperTimeTick);
      ghost var s := View();
      var now := IRQgetTimeTick(deadline);
      readAt := now;
      AlarmMatches(hw.period, s);
      if now >= tick {
        hw.pendingIrq := true;
        lateIrq := true;
      }
      assert Armed(hw.period, old(View()), View(), tick, now);
    }

    /** The counter and its extension are set to a time. */
    method SetCounter(tick: nat)
      requires Fits() && AlarmSet(hw.period, View()) && IsWord(tick)
      modifies this`upperTimeTick, hw`counter, hw`now, hw`overflowFlag
      ensures Synced(hw.period, upperTimeTick, View()) && hw.now == tick && !hw.overflowFlag
    {
      MaskParts(tick, bits);
      upperTimeTick := Upper(tick, bits);
      hw.counter := Lower(tick, bits);
      hw.now := tick;
      hw.overflowFlag := false;
    }

    /** Writing the alarm that is set already changes nothing. */
    method RewriteAlarm(tick: nat)
      requires Fits() && AlarmSet(hw.period, View()) && tick == Alarm(View()) && IsWord(tick)
      modifies this`upperIrqTick, hw`matchReg
      ensures upperIrqTick == old(upperIrqTick) && hw.matchReg == old(hw.matchReg)
    {
      MaskParts(tick, bits);
      SplitUnique(upperIrqTick, hw.matchReg, Upper(tick, bits), Lower(tick, bits), hw.period);
      upperIrqTick := Upper(tick, bits);
      hw.matchReg := Lower(tick, bits);
    }

    /** After a jump from oldTick to tick: the alarm is late if it has been jumped over. */
    method MoveAlarm(tick: nat, oldTick: nat)
      requires Fits() && AlarmSet(hw.period, View()) && IsWord(Alarm(View()))
      modifies this`upperIrqTick, this`lateIrq, hw`matchReg, hw`pendingIrq
      ensures var over := oldTick < Alarm(old(View())) <= tick;
        View() == old(View()).(late := old(lateIrq) || over, forced := old(hw.pendingIrq) || over)
    {
      var nextIrqTick := IRQgetIrqTick();
      if nextIrqTick > oldTick {
        RewriteAlarm(nextIrqTick);
        if tick >= nextIrqTick {
          hw.pendingIrq := true;
          lateIrq := true;
        }
      }
    }

    /** Moves the time forward, and the alarm's lateness with it. */
    method IRQsetTimeTick(tick: nat)
      requires Fits() && Ready(hw.period, View()) && hw.running && IsWord(tick) && IsWord(Alarm(View()))
      modifies this, hw
      ensures Fits() && hw.running && Step(hw.period, old(View()), View(), Jump(tick))
      ensures hw.now == if tick > old(hw.now) then tick else old(hw.now)
    {
      hw.running := false;
      var oldTick := IRQgetTimeTick(hw.now);
      if tick > oldTick {
        SetCounter(tick);
        MoveAlarm(tick, oldTick);
      }
      hw.running := true;
    }

    /** Clears the match flag at time c, then compares the alarm with a time read after that. */
    method ClearAndRead(deadline: nat) returns (tick: nat, ghost c: nat)
      requires Fits() && Synced(hw.period, upperTimeTick, View()) && AlarmSet(hw.period, View())
      requires hw.now <= deadline < hw.now + hw.period && deadline < upperTimeTick + 2 * hw.period
      modifies hw`now, hw`counter, hw`overflowFlag, hw`matchFlag
      ensures Synced(hw.period, upperTimeTick, View()) && old(hw.now) <= c <= tick <= hw.now <= deadline
      ensures hw.matchFlag <==> Crossed(hw.period, hw.matchReg, c, hw.now)
    {
      Elapse(deadline, upperTimeTick);
      hw.matchFlag := false;
      c := hw.now;
      ghost var cleared := View();
      Elapse(deadline, upperTimeTick);
      ghost var later := View();
      tick := IRQgetTimeTick(deadline);
      LaterTwice(hw.period, cleared, later, View());
    }

    /** The part of the interrupt routine that looks at the alarm; next is the alarm that the system sets when called. */
    method HandleMatch(next: Option<nat>, deadline: nat) returns (fired: Option<nat>, ghost c: nat, ghost u: nat)
      requires Fits() && Synced(hw.period, upperTimeTick, View()) && AlarmSet(hw.period, View())
      requires next.Some? ==> IsWord(next.value)
      requires hw.now <= deadline < hw.now + hw.period && deadline < upperTimeTick + 2 * hw.period
      modifies this`upperIrqTick, this`lateIrq, hw`now, hw`counter, hw`overflowFlag, hw`matchFlag, hw`matchReg, hw`pendingIrq
      ensures Synced(hw.period, upperTimeTick, View()) && AlarmSet(hw.period, View()) && hw.now <= deadline
      ensures lateIrq ==> hw.pendingIrq
      ensures fired.None? ==> Ignored(hw.period, old(View()), View(), c)
      ensures fired.Some? ==> Fired(hw.period, old(View()), View(), fired.value, next, u)
    {
      ghost var s := View();
      Elapse(deadline, upperTimeTick);
      if !hw.matchFlag && !lateIrq {
        NothingSeen(hw.period, s, View());
        return None, hw.now, 0;
      }
      fired, c, u := AnswerMatch(next, deadline, s);
    }

    /** The match flag or lateness has been seen, after some time since s. */
    method AnswerMatch(next: Option<nat>, deadline: nat, ghost s: Timer) returns (fired: Option<nat>, ghost c: nat, ghost u: nat)
      requires Fits() && Synced(hw.period, upperTimeTick, View()) && AlarmSet(hw.period, View())
      requires (next.Some? ==> IsWord(next.value)) && Later(hw.period, s, View())
      requires hw.now <= deadline < hw.now + hw.period && deadline < upperTimeTick + 2 * hw.period
      modifies this`upperIrqTick, this`lateIrq, hw`now, hw`counter, hw`overflowFlag, hw`matchFlag, hw`matchReg, hw`pendingIrq
      ensures Synced(hw.period, upperTimeTick, View()) && AlarmSet(hw.period, View()) && hw.now <= deadline
      ensures lateIrq ==> hw.pendingIrq
      ensures fired.None? ==> Ignored(hw.period, s, View(), c)
      ensures fired.Some? ==> Fired(hw.period, s, View(), fired.value, next, u)
    {
      var tick;
      tick, c := ClearAndRead(deadline);
      if tick < IRQgetIrqTick() && !lateIrq {
        StillAhead(hw.period, s, View(), c);
        return None, c, 0;
      }
      lateIrq := false;
      ghost var r := View();
      u := SystemReacts(tick, next, deadline);
      FiresAt(hw.period, s, r, View(), tick, next, u);
      return Some(tick), c, u;
    }

    /** What the system does when it is called: it sets the next alarm, or none. */
    method SystemReacts(tick: nat, next: Option<nat>, deadline: nat) returns (ghost u: nat)
      requires Fits() && Synced(hw.period, upperTimeTick, View()) && AlarmSet(hw.period, View())
      requires next.Some? ==> IsWord(next.value)
      requires tick <= hw.now && !lateIrq
      requires hw.now <= deadline < hw.now + hw.period && deadline < upperTimeTick + 2 * hw.period
      modifies this`upperIrqTick, this`lateIrq, hw`now, hw`counter, hw`overflowFlag, hw`matchFlag, hw`matchReg, hw`pendingIrq
      ensures Synced(hw.period, upperTimeTick, View()) && AlarmSet(hw.period, View()) && hw.now <= deadline
      ensures (lateIrq ==> hw.pendingIrq) && tick <= u <= hw.now
      ensures next.None? ==> View() == old(View())
      ensures next.Some? ==> Alarm(View()) == next.value && (lateIrq <==> u >= next.value) && (u < next.value <= hw.now ==> hw.matchFlag)
    {
      u := tick;
      if next.Some? { u := IRQsetIrqTick(next.value, deadline); }
    }

    /** The part that counts an overflow. */
    method HandleOverflow(deadline: nat)
      requires Fits() && Synced(hw.period, upperTimeTick, View()) && AlarmSet(hw.period, View())
      requires hw.now <= deadline < upperTimeTick + 2 * hw.period
      modifies this`upperTimeTick, hw`now, hw`counter, hw`overflowFlag, hw`matchFlag
      ensures Synced(hw.period, upperTimeTick, View()) && !hw.overflowFlag
      ensures Passed(hw.period, old(View()), View())
    {
      ghost var s := View();
      Elapse(deadline, upperTimeTick);
      if hw.overflowFlag {
        ghost var r := View();
        Elapse(deadline, upperTimeTick);
        LaterTwice(hw.period, s, r, View());
        ghost var upper := upperTimeTick + hw.period;
        NextMultiple(upperTimeTick, hw.period);
        hw.overflowFlag := false;
        ghost var cleared := View();
        Elapse(deadline, upper);
        PassedLater(hw.period, s, cleared, View());
        upperTimeTick := upperTimeTick + hw.period;
      }
    }

    method IRQhandler(next: Option<nat>, deadline: nat) returns (fired: Option<nat>)
      requires Fits() && Ready(hw.period, View())
      requires next.Some? ==> IsWord(next.value)
      requires hw.now <= deadline < hw.now + hw.period && deadline < upperTimeTick + 2 * hw.period
      modifies this`upperTimeTick, this`upperIrqTick, this`lateIrq
      modifies hw`now, hw`counter, hw`overflowFlag, hw`matchFlag, hw`matchReg, hw`pendingIrq
      ensures Fits() && Step(hw.period, old(View()), View(), Handle(fired, next))
    {
      hw.pendingIrq := false;
      ghost var c, u;
      fired, c, u := HandleMatch(next, deadline);
      ghost var r := View();
      HandleOverflow(deadline);
      HandledLater(hw.period, old(View()), r, View(), fired, next, c, u);
    }
  }

  // ----- the passing of time

  /** r is when the system is called, and v when it has reacted. */
  lemma FiresAt(p: nat, s: Timer, r: Timer, v: Timer, t: nat, next: Option<nat>, u: nat)
    requires s.now <= t <= u <= v.now && (s.late || t >= Alarm(s)) && Alarm(r) == Alarm(s) && !r.late
    requires next.None? ==> v == r
    requires next.Some? ==> Alarm(v) == next.value && (v.late <==> u >= next.value) && (u < next.value <= v.now ==> v.matched)
    ensures Fired(p, s, v, t, next, u)
  {
  }

  lemma NothingSeen(p: nat, s: Timer, r: Timer)
    requires p > 0 && Later(p, s, r) && !r.matched && !r.late
    ensures Ignored(p, s, r, r.now)
  {
  }

  lemma StillAhead(p: nat, s: Timer, r: Timer, c: nat)
    requires p > 0 && s.now <= c <= r.now && Alarm(r) == Alarm(s) && r.matchReg == s.matchReg && !s.late && !r.late
    requires c < Alarm(s) && (r.matched <==> Crossed(p, s.matchReg, c, r.now))
    ensures Ignored(p, s, r, c)
  {
  }

  lemma NoTimeYet(p: nat, s: Timer)
    requires p > 0 && s.now == 0 && s.counter == 0 && !s.overflow && s.matchReg == 0 && s.upperTime == 0 && s.upperIrq == 0 && !s.late
    ensures Ready(p, s)
  {
  }

  lemma StillLater(p: nat, s: Timer)
    requires p > 0
    ensures Later(p, s, s)
  {
  }

  /** The counter is the remainder of the true time. */
  lemma CounterIs(p: nat, upper: nat, s: Timer)
    requires Synced(p, upper, s)
    ensures s.now % p == s.counter
  {
    AddMultiple(upper, s.counter, p);
    if s.overflow {
      DivModUnique(upper + p, p, upper / p + 1, 0);
      AddMultiple(upper + p, s.counter, p);
    }
  }

  lemma TickLater(p: nat, s: Timer, r: Timer, r': Timer)
    requires p > 0 && Later(p, s, r) && r'.now == r.now + 1 && r'.now % p == r'.counter
    requires r' == r.(now := r'.now, counter := r'.counter, overflow := r'.overflow, matched := r'.matched)
    requires r'.matched <==> r.matched || r'.counter == r.matchReg
    ensures Later(p, s, r')
  {
    if r'.counter == r.matchReg { assert MatchesAt(p, s.matchReg, r'.now); }
    if Crossed(p, s.matchReg, s.now, r.now) {
      var a :| s.now < a <= r.now && MatchesAt(p, s.matchReg, a);
      assert s.now < a <= r'.now && MatchesAt(p, s.matchReg, a);
    }
  }

  lemma CrossedSplit(p: nat, m: nat, from: nat, mid: nat, to: nat)
    requires p > 0 && from <= mid <= to
    ensures Crossed(p, m, from, to) <==> Crossed(p, m, from, mid) || Crossed(p, m, mid, to)
  {
    if Crossed(p, m, from, to) {
      var a: nat :| from < a <= to && MatchesAt(p, m, a);
      assert (from < a <= mid || mid < a <= to) && MatchesAt(p, m, a);
    }
  }

  lemma LaterTwice(p: nat, s: Timer, r: Timer, r': Timer)
    requires p > 0 && Later(p, s, r) && Later(p, r, r')
    ensures Later(p, s, r')
  {
    CrossedSplit(p, s.matchReg, s.now, r.now, r'.now);
  }

  lemma PassedLater(p: nat, s: Timer, r: Timer, r': Timer)
    requires p > 0 && Passed(p, s, r) && Later(p, r, r')
    ensures Passed(p, s, r')
  {
    CrossedSplit(p, s.matchReg, s.now, r.now, r'.now);
  }

  /** What the first half of the interrupt routine did is not undone by the second. */
  lemma HandledLater(p: nat, s: Timer, r: Timer, r': Timer, fired: Option<nat>, next: Option<nat>, c: nat, u: nat)
    requires p > 0 && AlarmSet(p, s) && AlarmSet(p, r) && Passed(p, r, r')
    requires fired.None? ==> Ignored(p, s, r, c)
    requires fired.Some? ==> Fired(p, s, r, fired.value, next, u)
    ensures fired.None? ==> Ignored(p, s, r', c)
    ensures fired.Some? ==> Fired(p, s, r', fired.value, next, u)
  {
    if fired.None? {
      CrossedSplit(p, s.matchReg, c, r.now, r'.now);
    } else if next.Some? {
      AlarmMatches(p, r);
    }
  }

  lemma NextMultiple(x: nat, p: nat)
    requires p > 0 && x % p == 0
    ensures (x + p) % p == 0
  {
    DivModUnique(x + p, p, x / p + 1, 0);
  }

  lemma OrIsPlus(upper: nat, counter: nat, bits: nat)
    requires upper % Pow2(bits) == 0 && counter < Pow2(bits)
    ensures BitOr(upper, counter) == upper + counter
  {
    var q := upper / Pow2(bits);
    assert upper == q * Pow2(bits);
    BitOrDisjoint(q, counter, bits);
  }

  const WORD_BITS: nat := 64

  ghost predicate IsWord(x: nat)
  {
    x < Pow2(WORD_BITS)
  }

  /** What is left of a word under the mask of its upper bits; an unsigned word has no other. */
  function Upper(x: nat, bits: nat): nat
    requires bits <= 32
  {
    Pow2Monotone(bits, WORD_BITS);
    BitAnd(x, Pow2(WORD_BITS) - Pow2(bits))
  }

  function Lower(x: nat, bits: nat): nat
  {
    BitAnd(x, Pow2(bits) - 1)
  }

  /** The two masks split a word into a multiple of the period and a remainder. */
  lemma MaskParts(x: nat, bits: nat)
    requires bits <= 32 && IsWord(x)
    ensures Upper(x, bits) % Pow2(bits) == 0 && Lower(x, bits) < Pow2(bits)
    ensures Upper(x, bits) + Lower(x, bits) == x
  {
    BitAndUpper(x, bits, WORD_BITS);
    BitAndLower(x, bits);
    NoRemainder(x, Pow2(bits));
  }

  lemma NoRemainder(x: nat, p: nat)
    requires p > 0
    ensures (x - x % p) % p == 0
  {
    var q := x / p;
    assert x - x % p == q * p + 0;
    DivModUnique(x - x % p, p, q, 0);
  }

  /** There is only one way to split a time. */
  lemma SplitUnique(u: nat, c: nat, u': nat, c': nat, p: nat)
    requires p > 0 && u % p == 0 && u' % p == 0 && c < p && c' < p && u + c == u' + c'
    ensures u == u' && c == c'
  {
    AddMultiple(u, c, p);
    AddMultiple(u', c', p);
  }
}
