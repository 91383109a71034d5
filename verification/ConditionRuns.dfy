// Who is woken, and when, by signal and broadcast along a run, with either kind of mutex
// (sync.cpp): those who wait on a condition variable are woken in the order in which they came.

module ConditionRuns {
  import opened Common
  import P = MutexProtocol
  import F = FastMutexProtocol

  /** What an action is for one condition variable. */
  datatype Event<T> = Waits(t: T) | WakesOne | WakesAll | Nothing

  /** The threads that began to wait, in that order, and how many of them were to be woken since. */
  datatype History<T> = History(waited: seq<T>, woken: nat)

  function Heard<T>(h: History<T>, e: Event<T>): History<T>
  {
    match e
    case Waits(t) => h.(waited := h.waited + [t])
    case WakesOne => if h.woken < |h.waited| then h.(woken := h.woken + 1) else h
    case WakesAll => h.(woken := |h.waited|)
    case Nothing => h
  }

  function EventOf<T, M, C(==)>(a: P.Action<T, M, C>, c: C): Event<T>
  {
    match a
    case Wait(t, d, _, _, _) => if d == c then Waits(t) else Nothing
    case Signal(d) => if d == c then WakesOne else Nothing
    case Broadcast(d) => if d == c then WakesAll else Nothing
    case _ => Nothing
  }

  function HeardIn<T, M, C(==)>(h: History<T>, run: seq<P.Action<T, M, C>>, c: C): History<T>
    decreases |run|
  {
    if run == [] then h else HeardIn(Heard(h, EventOf(run[0], c)), run[1..], c)
  }

  ghost predicate SleepsOn<T, M, C>(s: P.State<T, M, C>, t: T, c: C)
  {
    t in s.act && s.act[t].Sleeping? && s.act[t].c == c
  }

  lemma HasNone<A>(q: seq<A>)
    ensures q == [] || exists t :: t in q
  {
    assert q == [] || q[0] in q;
  }

  // ----- one step

  /** A broadcast wakes everybody who sleeps on the condition, each on the way to its own mutex, and nobody else. */
  lemma BroadcastWakesAll<T, M, C>(s: P.State<T, M, C>, c: C, t: T)
    requires P.Good(s) && c in s.queue && t in s.act
    ensures var r := P.Next(s, P.Broadcast(c));
      && r.w == s.w && t in r.act && !SleepsOn(r, t, c)
      && r.act[t] == if SleepsOn(s, t, c) then P.Woken(s.act[t].m, s.act[t].depth) else s.act[t]
  {
    assert P.ActivityOk(s, t) && P.QueueOk(s, c);
  }

  /** The queue is what has been heard and not been answered. */
  ghost predicate Waiting<T, M, C>(s: P.State<T, M, C>, c: C, h: History<T>)
  {
    c in s.queue && h.woken <= |h.waited| && s.queue[c] == h.waited[h.woken..]
  }

  lemma StepWaiting<T, M, C>(s: P.State<T, M, C>, a: P.Action<T, M, C>, c: C, h: History<T>)
    requires P.Good(s) && P.Enabled(s, a) && Waiting(s, c, h)
    ensures Waiting(P.Next(s, a), c, Heard(h, EventOf(a, c)))
  {
    var h' := Heard(h, EventOf(a, c));
    if EventOf(a, c).Waits? {
      assert h'.waited[h'.woken..] == h.waited[h.woken..] + [a.t];
    } else if EventOf(a, c).WakesOne? && h.woken < |h.waited| {
      assert h'.waited[h'.woken..] == h.waited[h.woken..][1..];
    } else if EventOf(a, c).WakesAll? {
      assert h'.waited[h'.woken..] == [];
    }
  }

  // ----- runs

  lemma {:induction false} RunWaiting<T, M, C>(s: P.State<T, M, C>, run: seq<P.Action<T, M, C>>, c: C, h: History<T>)
    requires P.Good(s) && P.Possible(s, run) && Waiting(s, c, h)
    ensures Waiting(P.After(s, run), c, HeardIn(h, run, c))
    decreases |run|
  {
    if run != [] {
      P.StepGood(s, run[0]);
      StepWaiting(s, run[0], c, h);
      RunWaiting(P.Next(s, run[0]), run[1..], c, Heard(h, EventOf(run[0], c)));
    }
  }

  ghost predicate NobodySleeps<T, M, C>(s: P.State<T, M, C>, c: C)
  {
    P.Good(s) && c in s.queue && forall t :: t in s.act ==> !SleepsOn(s, t, c)
  }

  lemma NothingHeard<T, M, C>(s: P.State<T, M, C>, c: C)
    requires NobodySleeps(s, c)
    ensures Waiting(s, c, History([], 0))
  {
    assert P.QueueOk(s, c);
    assert forall t :: t in s.queue[c] ==> SleepsOn(s, t, c);
    HasNone(s.queue[c]);
  }

  /** In every run those who have been woken are the first of those who waited, and the others sleep. */
  lemma WokenInOrder<T, M, C>(s: P.State<T, M, C>, run: seq<P.Action<T, M, C>>, c: C)
    requires NobodySleeps(s, c) && P.Possible(s, run)
    ensures var h := HeardIn(History([], 0), run, c);
      && h.woken <= |h.waited| && Distinct(h.waited[h.woken..])
      && forall t :: SleepsOn(P.After(s, run), t, c) <==> t in h.waited[h.woken..]
  {
    NothingHeard(s, c);
    RunWaiting(s, run, c, History([], 0));
    var r := P.After(s, run);
    assert P.QueueOk(r, c);
    forall t | t in r.act
      ensures SleepsOn(r, t, c) ==> t in r.queue[c]
    {
      assert P.ActivityOk(r, t);
    }
  }

  /** After every run a signal wakes exactly the thread that has waited longest, if any waits. */
  lemma SignalWakesFirst<T, M, C>(s: P.State<T, M, C>, run: seq<P.Action<T, M, C>>, c: C, t: T)
    requires NobodySleeps(s, c) && P.Possible(s, run) && t in P.After(s, run).act
    ensures var r, h := P.After(s, run), HeardIn(History([], 0), run, c);
      && c in r.queue && P.Next(r, P.Signal(c)).w == r.w && t in P.Next(r, P.Signal(c)).act
      && if h.woken < |h.waited| && t == h.waited[h.woken]
         then SleepsOn(r, t, c) && P.Next(r, P.Signal(c)).act[t] == P.Woken(r.act[t].m, r.act[t].depth)
         else P.Next(r, P.Signal(c)).act[t] == r.act[t]
  {
    NothingHeard(s, c);
    RunWaiting(s, run, c, History([], 0));
    var r, h := P.After(s, run), HeardIn(History([], 0), run, c);
    assert P.QueueOk(r, c);
    if r.queue[c] != [] { assert r.queue[c][..1] == [h.waited[h.woken]]; }
  }

  // ----- the same with the other mutex

  function FastEventOf<T, C(==)>(a: F.Action<T, C>, c: C): Event<T>
  {
    match a
    case Wait(t, d) => if d == c then Waits(t) else Nothing
    case Signal(d) => if d == c then WakesOne else Nothing
    case Broadcast(d) => if d == c then WakesAll else Nothing
    case _ => Nothing
  }

  function FastHeardIn<T, C(==)>(h: History<T>, run: seq<F.Action<T, C>>, c: C): History<T>
    decreases |run|
  {
    if run == [] then h else FastHeardIn(Heard(h, FastEventOf(run[0], c)), run[1..], c)
  }

  ghost predicate FastSleepsOn<T, C>(s: F.State<T, C>, t: T, c: C)
  {
    t in s.act && s.act[t].Sleeping? && s.act[t].c == c
  }

  lemma FastBroadcastWakesAll<T, C>(s: F.State<T, C>, c: C, t: T)
    requires F.Good(s) && c in s.queue && t in s.act
    ensures var r := F.Next(s, F.Broadcast(c));
      && r.m == s.m && t in r.act && !FastSleepsOn(r, t, c)
      && r.act[t] == if FastSleepsOn(s, t, c) then F.Woken(s.act[t].depth) else s.act[t]
  {
    assert F.ThreadOk(s, t) && F.QueueOk(s, c);
  }

  ghost predicate FastWaiting<T, C>(s: F.State<T, C>, c: C, h: History<T>)
  {
    c in s.queue && h.woken <= |h.waited| && s.queue[c] == h.waited[h.woken..]
  }

  lemma FastStepWaiting<T, C>(s: F.State<T, C>, a: F.Action<T, C>, c: C, h: History<T>)
    requires F.Good(s) && F.Enabled(s, a) && FastWaiting(s, c, h)
    ensures FastWaiting(F.Next(s, a), c, Heard(h, FastEventOf(a, c)))
  {
    var h' := Heard(h, FastEventOf(a, c));
    if FastEventOf(a, c).Waits? {
      assert h'.waited[h'.woken..] == h.waited[h.woken..] + [a.t];
    } else if FastEventOf(a, c).WakesOne? && h.woken < |h.waited| {
      assert h'.waited[h'.woken..] == h.waited[h.woken..][1..];
    } else if FastEventOf(a, c).WakesAll? {
      assert h'.waited[h'.woken..] == [];
    }
  }

  lemma {:induction false} FastRunWaiting<T, C>(s: F.State<T, C>, run: seq<F.Action<T, C>>, c: C, h: History<T>)
    requires F.Good(s) && F.Possible(s, run) && FastWaiting(s, c, h)
    ensures F.Good(F.After(s, run)) && FastWaiting(F.After(s, run), c, FastHeardIn(h, run, c))
    decreases |run|
  {
    if run != [] {
      F.StepGood(s, run[0]);
      FastStepWaiting(s, run[0], c, h);
      FastRunWaiting(F.Next(s, run[0]), run[1..], c, Heard(h, FastEventOf(run[0], c)));
    }
  }

  ghost predicate FastNobodySleeps<T, C>(s: F.State<T, C>, c: C)
  {
    F.Good(s) && c in s.queue && forall t :: t in s.act ==> !FastSleepsOn(s, t, c)
  }

  lemma FastNothingHeard<T, C>(s: F.State<T, C>, c: C)
    requires FastNobodySleeps(s, c)
    ensures FastWaiting(s, c, History([], 0))
  {
    assert F.QueueOk(s, c);
    assert forall t :: t in s.queue[c] ==> FastSleepsOn(s, t, c);
    HasNone(s.queue[c]);
  }

  /** In every run those who have been woken are the first of those who waited, and the others sleep. */
  lemma FastWokenInOrder<T, C>(s: F.State<T, C>, run: seq<F.Action<T, C>>, c: C)
    requires FastNobodySleeps(s, c) && F.Possible(s, run)
    ensures var h := FastHeardIn(History([], 0), run, c);
      && h.woken <= |h.waited| && Distinct(h.waited[h.woken..])
      && forall t :: FastSleepsOn(F.After(s, run), t, c) <==> t in h.waited[h.woken..]
  {
    FastNothingHeard(s, c);
    FastRunWaiting(s, run, c, History([], 0));
    var r := F.After(s, run);
    assert F.QueueOk(r, c);
    forall t | t in r.act
      ensures FastSleepsOn(r, t, c) ==> t in r.queue[c]
    {
      assert F.ThreadOk(r, t);
    }
  }

  /** After every run a signal wakes exactly the thread that has waited longest, if any waits. */
  lemma FastSignalWakesFirst<T, C>(s: F.State<T, C>, run: seq<F.Action<T, C>>, c: C, t: T)
    requires FastNobodySleeps(s, c) && F.Possible(s, run) && t in F.After(s, run).act
    ensures var r, h := F.After(s, run), FastHeardIn(History([], 0), run, c);
      && c in r.queue && F.Next(r, F.Signal(c)).m == r.m && t in F.Next(r, F.Signal(c)).act
      && if h.woken < |h.waited| && t == h.waited[h.woken]
         then FastSleepsOn(r, t, c) && F.Next(r, F.Signal(c)).act[t] == F.Woken(r.act[t].depth)
         else F.Next(r, F.Signal(c)).act[t] == r.act[t]
  {
    FastNothingHeard(s, c);
    FastRunWaiting(s, run, c, History([], 0));
    var r, h := F.After(s, run), FastHeardIn(History([], 0), run, c);
    assert F.QueueOk(r, c);
    if r.queue[c] != [] { assert r.queue[c][..1] == [h.waited[h.woken]]; }
  }
}
