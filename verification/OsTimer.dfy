// What the operations of the timer adapter (os_timer.h) do, as a relation between
// the state before and after: a hardware counter of limited width is extended in
// software, while it goes on counting between any two register accesses.

module OsTimer {
  import opened Common
  import Word

  /**
   * counter, overflow, matchReg and matched are the hardware's registers and flags, forced its
   * pending bit; upperTime, upperIrq and late belong to the software. now is the true time.
   */
  datatype Timer = Timer(
    now: nat, counter: nat, overflow: bool, matchReg: nat, matched: bool, forced: bool,
    upperTime: nat, upperIrq: nat, late: bool)

  datatype Event =
    | Read(time: nat)
    | Arm(alarm: nat)
    | Jump(tick: nat)
    | Handle(fired: Option<nat>, next: Option<nat>)

  function Alarm(s: Timer): nat
  {
    s.upperIrq + s.matchReg
  }

  /** The flag stands for the overflow that is not yet counted in the upper part of the time. */
  ghost predicate Synced(p: nat, upper: nat, s: Timer)
  {
    && p > 0 && upper % p == 0 && s.counter < p
    && s.now == upper + (if s.overflow then p else 0) + s.counter
  }

  ghost predicate AlarmSet(p: nat, s: Timer)
  {
    p > 0 && s.matchReg < p && s.upperIrq % p == 0
  }

  /** What holds whenever interrupts may be enabled. */
  ghost predicate Ready(p: nat, s: Timer)
  {
    Synced(p, s.upperTime, s) && AlarmSet(p, s) && (s.late ==> s.forced)
  }

  /** The hardware asks for an interrupt. */
  predicate Raised(s: Timer)
  {
    s.matched || s.overflow || s.forced
  }

  ghost predicate MatchesAt(p: nat, m: nat, a: nat)
    requires p > 0
  {
    a % p == m
  }

  /** The counter becomes equal to the match register at some time after from, up to to. */
  ghost predicate Crossed(p: nat, m: nat, from: nat, to: nat)
    requires p > 0
  {
    exists a: nat :: from < a <= to && MatchesAt(p, m, a)
  }

  /** Nothing happened but the passing of time. */
  ghost predicate Later(p: nat, s: Timer, r: Timer)
    requires p > 0
  {
    && r.now >= s.now
    && r == s.(now := r.now, counter := r.counter, overflow := r.overflow, matched := r.matched)
    && (r.matched <==> s.matched || Crossed(p, s.matchReg, s.now, r.now))
  }

  /** The same, but that an overflow may have been counted. */
  ghost predicate Passed(p: nat, s: Timer, r: Timer)
    requires p > 0
  {
    && r.now >= s.now
    && r == s.(now := r.now, counter := r.counter, overflow := r.overflow, upperTime := r.upperTime, matched := r.matched)
    && (r.matched <==> s.matched || Crossed(p, s.matchReg, s.now, r.now))
  }

  // ----- what the operations do

  ghost predicate Armed(p: nat, s: Timer, r: Timer, a: nat, t: nat)
  {
    && s.now <= t <= r.now && Alarm(r) == a
    && (r.late <==> s.late || t >= a)
    && (r.forced <==> s.forced || t >= a)
    && (s.matched ==> r.matched)
    && (t < a <= r.now ==> r.matched)
  }

  /** The alarm did not fire: late was not set, and the flag was last seen or made clear at time c. */
  ghost predicate Ignored(p: nat, s: Timer, r: Timer, c: nat)
    requires p > 0
  {
    && s.now <= c <= r.now && Alarm(r) == Alarm(s) && r.matchReg == s.matchReg && !s.late && !r.late
    && (r.matched <==> Crossed(p, s.matchReg, c, r.now))
    && (c < Alarm(s) || (!s.matched && !Crossed(p, s.matchReg, s.now, c)))
    && (s.matched ==> s.now < Alarm(s))
  }

  /** The alarm fired at time t, and the next was set at once if there was one. */
  ghost predicate Fired(p: nat, s: Timer, r: Timer, t: nat, next: Option<nat>, u: nat)
  {
    && s.now <= t <= u <= r.now && (s.late || t >= Alarm(s))
    && (next.None? ==> Alarm(r) == Alarm(s) && !r.late)
    && (next.Some? ==>
          && Alarm(r) == next.value
          && (r.late <==> u >= next.value)
          && (u < next.value <= r.now ==> r.matched))
  }

  ghost predicate Step(p: nat, s: Timer, r: Timer, e: Event)
    requires p > 0
  {
    && Ready(p, s) && Ready(p, r)
    && match e
       case Read(t) => t == s.now && Later(p, s, r)
       case Arm(a) => exists t :: Armed(p, s, r, a, t)
       case Jump(tick) =>
         && r.now == (if tick > s.now then tick else s.now) && Alarm(r) == Alarm(s) && r.matchReg == s.matchReg
         && r.matched == s.matched
         && (r.late <==> s.late || s.now < Alarm(s) <= tick)
       case Handle(fired, next) =>
         && r.now >= s.now && !r.overflow
         && (fired.None? ==> exists c :: Ignored(p, s, r, c))
         && (fired.Some? ==> exists u :: Fired(p, s, r, fired.value, next, u))
  }

  // ----- alarms are neither lost nor early

  /** The alarm is in the future, or the hardware has been told about it. */
  ghost predicate Kept(s: Timer)
  {
    s.now < Alarm(s) || s.matched || s.late
  }

  /** The alarm is not thought to be late before its time. */
  ghost predicate NotEarly(s: Timer)
  {
    s.late ==> s.now >= Alarm(s)
  }

  lemma AlarmMatches(p: nat, s: Timer)
    requires AlarmSet(p, s)
    ensures MatchesAt(p, s.matchReg, Alarm(s))
  {
    AddMultiple(s.upperIrq, s.matchReg, p);
  }

  lemma AddMultiple(x: nat, y: nat, p: nat)
    requires p > 0 && x % p == 0 && y < p
    ensures (x + y) % p == y && (x + y) / p * p == x
  {
    var q := x / p;
    assert x == q * p;
    Word.DivModUnique(x + y, p, q, y);
  }

  /** Time passing, however much of it, keeps an alarm. */
  lemma LaterKept(p: nat, s: Timer, r: Timer)
    requires AlarmSet(p, s) && Later(p, s, r)
    ensures Kept(s) ==> Kept(r)
  {
    AlarmMatches(p, s);
  }

  lemma IgnoredKept(p: nat, s: Timer, r: Timer, c: nat)
    requires AlarmSet(p, s) && Ignored(p, s, r, c) && Kept(s)
    ensures Kept(r)
  {
    AlarmMatches(p, s);
    if c < Alarm(s) <= r.now {
      assert MatchesAt(p, s.matchReg, Alarm(s));
    }
  }

  /** Which alarm a step sets, if it sets one. */
  function NewAlarm(e: Event): Option<nat>
  {
    match e
    case Arm(a) => Some(a)
    case Handle(fired, next) => if fired.Some? then next else None
    case _ => None
  }

  /** The alarm fires in this step. */
  predicate Fires(e: Event)
  {
    e.Handle? && e.fired.Some?
  }

  /** Setting an alarm while no earlier one is overdue leaves it neither lost nor early. */
  lemma NewAlarmKept(p: nat, s: Timer, r: Timer, e: Event)
    requires p > 0 && Step(p, s, r, e) && NewAlarm(e).Some? && (e.Arm? ==> !s.late)
    ensures Alarm(r) == NewAlarm(e).value && Kept(r) && NotEarly(r)
  {
  }

  lemma StepKeepsAlarm(p: nat, s: Timer, r: Timer, e: Event)
    requires p > 0 && Step(p, s, r, e) && NewAlarm(e).None? && !Fires(e) && Kept(s) && NotEarly(s)
    ensures Alarm(r) == Alarm(s) && Kept(r) && NotEarly(r)
  {
    match e
    case Read(t) => LaterKept(p, s, r);
    case Handle(_, _) =>
      var c :| Ignored(p, s, r, c);
      IgnoredKept(p, s, r, c);
    case _ =>
  }

  lemma HandlerFires(p: nat, s: Timer, r: Timer, fired: Option<nat>, next: Option<nat>)
    requires p > 0 && Step(p, s, r, Handle(fired, next)) && Kept(s) && NotEarly(s)
    ensures s.now >= Alarm(s) ==> fired.Some?
    ensures fired.Some? ==> fired.value >= Alarm(s)
  {
  }

  /** The exact condition under which a new alarm cannot fire too early. */
  lemma ArmedNotEarlyIff(p: nat, s: Timer, r: Timer, a: nat, t: nat)
    requires Armed(p, s, r, a, t)
    ensures NotEarly(r) <==> !s.late || r.now >= a
  {
  }

  // ----- all runs

  ghost predicate Run(p: nat, states: seq<Timer>, events: seq<Event>)
  {
    && p > 0 && |states| == |events| + 1
    && forall i :: 0 <= i < |events| ==> Step(p, states[i], states[i + 1], events[i])
  }

  /** The time that a step tells its caller. */
  function Reported(e: Event): Option<nat>
  {
    match e
    case Read(t) => Some(t)
    case Handle(fired, _) => fired
    case _ => None
  }

  lemma ReportedInStep(p: nat, s: Timer, r: Timer, e: Event)
    requires p > 0 && Step(p, s, r, e)
    ensures s.now <= r.now && (Reported(e).Some? ==> s.now <= Reported(e).value <= r.now)
  {
  }

  lemma {:induction false} TimePasses(p: nat, states: seq<Timer>, events: seq<Event>, i: nat, j: nat)
    requires Run(p, states, events) && i <= j <= |events|
    ensures states[i].now <= states[j].now
    decreases j - i
  {
    if i < j {
      ReportedInStep(p, states[i], states[i + 1], events[i]);
      TimePasses(p, states, events, i + 1, j);
    }
  }

  /** Reported times never decrease, across reads, interrupts, overflows and jumps. */
  lemma ReportsNeverDecrease(p: nat, states: seq<Timer>, events: seq<Event>, i: nat, j: nat)
    requires Run(p, states, events) && i < j < |events| && Reported(events[i]).Some? && Reported(events[j]).Some?
    ensures Reported(events[i]).value <= Reported(events[j]).value
  {
    ReportedInStep(p, states[i], states[i + 1], events[i]);
    ReportedInStep(p, states[j], states[j + 1], events[j]);
    TimePasses(p, states, events, i + 1, j);
  }

  /** Between i and j no alarm is set and none fires. */
  predicate Quiet(events: seq<Event>, i: nat, j: nat)
    requires i <= j <= |events|
  {
    forall k :: i <= k < j ==> NewAlarm(events[k]).None? && !Fires(events[k])
  }

  lemma {:induction false} AlarmStays(p: nat, states: seq<Timer>, events: seq<Event>, i: nat, j: nat)
    requires Run(p, states, events) && i <= j <= |events| && Quiet(events, i, j)
    requires Kept(states[i]) && NotEarly(states[i])
    ensures Alarm(states[j]) == Alarm(states[i]) && Kept(states[j]) && NotEarly(states[j])
    decreases j - i
  {
    if i < j {
      StepKeepsAlarm(p, states[i], states[i + 1], events[i]);
      AlarmStays(p, states, events, i + 1, j);
    }
  }

  /**
   * From the step i that sets an alarm to the step j that fires it, or as far as the run goes:
   * once the alarm is due an interrupt is raised, the next interrupt fires it, and not before it is due.
   */
  lemma AlarmFiresInTime(p: nat, states: seq<Timer>, events: seq<Event>, i: nat, j: nat)
    requires Run(p, states, events) && i < j <= |events| && Quiet(events, i + 1, j)
    requires NewAlarm(events[i]).Some? && (events[i].Arm? ==> !states[i].late)
    ensures var a := NewAlarm(events[i]).value;
      && (states[j].now >= a ==> Raised(states[j]))
      && (j < |events| && events[j].Handle? ==>
            && (states[j].now >= a ==> events[j].fired.Some?)
            && (events[j].fired.Some? ==> events[j].fired.value >= a))
  {
    NewAlarmKept(p, states[i], states[i + 1], events[i]);
    AlarmStays(p, states, events, i + 1, j);
    assert Step(p, states[j - 1], states[j], events[j - 1]);
    if j < |events| && events[j].Handle? {
      HandlerFires(p, states[j], states[j + 1], events[j].fired, events[j].next);
    }
  }
}
