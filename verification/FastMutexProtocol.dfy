// The mutex without priority inheritance (pthread_private.h, pthread.cpp): a first come,
// first served list of waiting threads, and the condition variables used with it. A step
// is what one thread does between two points at which interrupts are enabled.

module FastMutexProtocol {
  import opened Common

  /** owner, recursive and waiting are the mutex; waiting lists the threads in the order in which they came. */
  datatype FastMutex<!T> = FastMutex(owner: Option<T>, recursive: int, waiting: seq<T>)

  // ----- what the operations do to the mutex

  /** The lock is granted at once: to anybody if it is free, and again to the owner of a recursive one. */
  predicate Grantable<T(==)>(m: FastMutex<T>, t: T)
  {
    m.owner.None? || (m.owner == Some(t) && m.recursive >= 0)
  }

  function Granted<T(==)>(m: FastMutex<T>, t: T): FastMutex<T>
    requires Grantable(m, t)
  {
    if m.owner.None? then m.(owner := Some(t)) else m.(recursive := m.recursive + 1)
  }

  /** The lock is granted at a depth, which a mutex that is not recursive does not have. */
  function GrantedAt<T(==)>(m: FastMutex<T>, t: T, depth: nat): FastMutex<T>
    requires Grantable(m, t)
  {
    m.(owner := Some(t), recursive := if m.recursive >= 0 then depth else m.recursive)
  }

  function Queued<T>(m: FastMutex<T>, t: T): FastMutex<T>
  {
    m.(waiting := m.waiting + [t])
  }

  /** The owner leaves: the first of the list gets the mutex. */
  function Passed<T>(m: FastMutex<T>): FastMutex<T>
  {
    if m.waiting == [] then m.(owner := None) else m.(owner := Some(m.waiting[0]), waiting := m.waiting[1..])
  }

  function Unlocked<T>(m: FastMutex<T>): FastMutex<T>
  {
    if m.recursive > 0 then m.(recursive := m.recursive - 1) else Passed(m)
  }

  function UnlockedAll<T>(m: FastMutex<T>): FastMutex<T>
  {
    Passed(m).(recursive := if m.recursive >= 0 then 0 else m.recursive)
  }

  /** The depth that a wait on a condition comes back to. */
  function DepthOf<T>(m: FastMutex<T>): nat
  {
    if m.recursive >= 0 then m.recursive else 0
  }

  // ----- threads

  /** restore is the depth at which a lock ends that began as the return from a condition. */
  datatype Activity<C> = Runs | Locking(restore: Option<nat>) | Sleeping(c: C, depth: nat) | Woken(depth: nat)

  /**
   * asleep holds the threads that lock and will not be scheduled before a wakeup. arrived and granted
   * are the history: who asked for the mutex while not owning it, and who got it.
   */
  datatype State<!T, !C> = State(
    m: FastMutex<T>, act: map<T, Activity<C>>, asleep: set<T>, queue: map<C, seq<T>>,
    arrived: seq<T>, granted: seq<T>)

  datatype Action<T, C> =
    | Lock(t: T)
    | TryLock(t: T)
    | Unlock(t: T)
    | Wait(t: T, c: C)
    | Signal(c: C)
    | Broadcast(c: C)
    | Relock(t: T)
    | Scheduled(t: T)
    | Wakeup(t: T)

  ghost predicate ThreadOk<T, C>(s: State<T, C>, t: T)
    requires t in s.act
  {
    match s.act[t]
    case Runs => t !in s.m.waiting && t !in s.asleep
    case Locking(_) => if s.m.owner == Some(t) then t !in s.m.waiting && t !in s.asleep else t in s.m.waiting
    case Sleeping(c, _) => t !in s.m.waiting && t !in s.asleep && s.m.owner != Some(t) && c in s.queue && t in s.queue[c]
    case Woken(_) => t !in s.m.waiting && t !in s.asleep && s.m.owner != Some(t)
  }

  ghost predicate QueueOk<T, C>(s: State<T, C>, c: C)
    requires c in s.queue
  {
    Distinct(s.queue[c]) && forall t :: t in s.queue[c] ==> t in s.act && s.act[t].Sleeping? && s.act[t].c == c
  }

  /**
   * The list holds exactly the threads that are locking and not served yet; a free mutex has none;
   * and who came is who was served, in the same order, and then who waits.
   */
  ghost predicate Good<T, C>(s: State<T, C>)
  {
    && Distinct(s.m.waiting) && (forall t :: t in s.m.waiting ==> t in s.act)
    && (s.m.owner.None? ==> s.m.waiting == [])
    && (s.m.owner.Some? ==> s.m.owner.value in s.act)
    && (forall t :: t in s.act ==> ThreadOk(s, t))
    && (forall c :: c in s.queue ==> QueueOk(s, c))
    && s.arrived == s.granted + s.m.waiting
  }

  // ----- the steps

  ghost predicate Doing<T, C>(s: State<T, C>, t: T, a: Activity<C>)
  {
    t in s.act && s.act[t] == a
  }

  /** Only the owner unlocks, and locking again a mutex that is not recursive stops the system. */
  ghost predicate Enabled<T, C>(s: State<T, C>, a: Action<T, C>)
  {
    match a
    case Lock(t) => Doing(s, t, Runs) && (s.m.owner == Some(t) ==> s.m.recursive >= 0)
    case TryLock(t) => Doing(s, t, Runs)
    case Unlock(t) => Doing(s, t, Runs) && s.m.owner == Some(t)
    case Wait(t, c) => Doing(s, t, Runs) && s.m.owner == Some(t) && c in s.queue
    case Signal(c) => c in s.queue
    case Broadcast(c) => c in s.queue
    case Relock(t) => t in s.act && s.act[t].Woken?
    case Scheduled(t) => t in s.act && s.act[t].Locking? && t !in s.asleep
    case Wakeup(t) => true
  }

  ghost function Awake<T, C>(act: map<T, Activity<C>>, q: seq<T>): map<T, Activity<C>>
  {
    map t | t in act :: if t in q && act[t].Sleeping? then Woken(act[t].depth) else act[t]
  }

  /** The mutex changes hands when it is passed on. */
  ghost function HandedOn<T, C>(s: State<T, C>, m: FastMutex<T>): State<T, C>
  {
    if m.owner == s.m.owner || m.owner.None? then s.(m := m)
    else s.(m := m, asleep := s.asleep - {m.owner.value}, granted := s.granted + [m.owner.value])
  }

  ghost function Next<T, C>(s: State<T, C>, a: Action<T, C>): State<T, C>
    requires Enabled(s, a)
  {
    match a
    case Lock(t) =>
      if s.m.owner == Some(t) then s.(m := Granted(s.m, t))
      else if s.m.owner.None? then s.(m := Granted(s.m, t), arrived := s.arrived + [t], granted := s.granted + [t])
      else s.(m := Queued(s.m, t), act := s.act[t := Locking(None)], asleep := s.asleep + {t}, arrived := s.arrived + [t])
    case TryLock(t) =>
      if !Grantable(s.m, t) then s
      else if s.m.owner.None? then s.(m := Granted(s.m, t), arrived := s.arrived + [t], granted := s.granted + [t])
      else s.(m := Granted(s.m, t))
    case Unlock(t) => HandedOn(s, Unlocked(s.m))
    case Wait(t, c) =>
      HandedOn(s, UnlockedAll(s.m)).(act := s.act[t := Sleeping(c, DepthOf(s.m))], queue := s.queue[c := s.queue[c] + [t]])
    case Signal(c) =>
      if s.queue[c] == [] then s
      else s.(act := Awake(s.act, s.queue[c][..1]), queue := s.queue[c := s.queue[c][1..]])
    case Broadcast(c) => s.(act := Awake(s.act, s.queue[c]), queue := s.queue[c := []])
    case Relock(t) =>
      if s.m.owner.None? then
        s.(m := GrantedAt(s.m, t, s.act[t].depth), act := s.act[t := Runs],
           arrived := s.arrived + [t], granted := s.granted + [t])
      else
        s.(m := Queued(s.m, t), act := s.act[t := Locking(Some(s.act[t].depth))],
           asleep := s.asleep + {t}, arrived := s.arrived + [t])
    case Scheduled(t) =>
      if s.m.owner != Some(t) then s.(asleep := s.asleep + {t})
      else
        var r := s.act[t].restore;
        s.(m := if r.Some? && s.m.recursive >= 0 then s.m.(recursive := r.value) else s.m, act := s.act[t := Runs])
    case Wakeup(t) => s.(asleep := s.asleep - {t})
  }

  // ----- every step keeps the state good

  lemma GrantGood<T, C>(s: State<T, C>, t: T, m: FastMutex<T>)
    requires Good(s) && t in s.act && (s.act[t].Runs? || s.act[t].Woken?) && s.m.owner.None?
    requires m == s.m.(owner := Some(t), recursive := m.recursive)
    ensures Good(s.(m := m, act := s.act[t := Runs], arrived := s.arrived + [t], granted := s.granted + [t]))
  {
    var s' := s.(m := m, act := s.act[t := Runs], arrived := s.arrived + [t], granted := s.granted + [t]);
    assert ThreadOk(s, t);
    forall u | u in s'.act
      ensures ThreadOk(s', u)
    {
      assert ThreadOk(s, u);
    }
    forall c | c in s'.queue
      ensures QueueOk(s', c)
    {
      assert QueueOk(s, c);
    }
  }

  lemma QueueGood<T, C>(s: State<T, C>, t: T, restore: Option<nat>)
    requires Good(s) && t in s.act && (s.act[t].Runs? || s.act[t].Woken?) && s.m.owner.Some? && s.m.owner != Some(t)
    ensures Good(s.(m := Queued(s.m, t), act := s.act[t := Locking(restore)], asleep := s.asleep + {t}, arrived := s.arrived + [t]))
  {
    var s' := s.(m := Queued(s.m, t), act := s.act[t := Locking(restore)], asleep := s.asleep + {t}, arrived := s.arrived + [t]);
    assert ThreadOk(s, t);
    assert s'.m.waiting[|s.m.waiting|] == t;
    forall u | u in s'.act
      ensures ThreadOk(s', u)
    {
      assert ThreadOk(s, u);
      assert forall i :: 0 <= i < |s.m.waiting| ==> s'.m.waiting[i] == s.m.waiting[i];
    }
    forall c | c in s'.queue
      ensures QueueOk(s', c)
    {
      assert QueueOk(s, c);
    }
  }

  /** The owner keeps the mutex, and only its depth changes. */
  lemma DepthGood<T, C>(s: State<T, C>, m: FastMutex<T>)
    requires Good(s) && m == s.m.(recursive := m.recursive)
    ensures Good(s.(m := m))
  {
    var s' := s.(m := m);
    forall u | u in s'.act
      ensures ThreadOk(s', u)
    {
      assert ThreadOk(s, u);
    }
    forall c | c in s'.queue
      ensures QueueOk(s', c)
    {
      assert QueueOk(s, c);
    }
  }

  /** The running owner passes the mutex on. */
  lemma PassGood<T, C>(s: State<T, C>, t: T, m: FastMutex<T>)
    requires Good(s) && Doing(s, t, Runs) && s.m.owner == Some(t) && m == Passed(s.m).(recursive := m.recursive)
    ensures Good(HandedOn(s, m)) && HandedOn(s, m).m == m && m.owner != Some(t)
  {
    var s' := HandedOn(s, m);
    assert ThreadOk(s, t);
    var q := s.m.waiting;
    if q != [] {
      assert q == [q[0]] + q[1..];
      assert s.granted + [q[0]] + q[1..] == s.granted + q;
    }
    forall u | u in s'.act
      ensures ThreadOk(s', u)
    {
      assert ThreadOk(s, u);
    }
    forall c | c in s'.queue
      ensures QueueOk(s', c)
    {
      assert QueueOk(s, c);
    }
  }

  lemma SleepGood<T, C>(s: State<T, C>, t: T, c: C, depth: nat)
    requires Good(s) && Doing(s, t, Runs) && s.m.owner != Some(t) && c in s.queue
    ensures Good(s.(act := s.act[t := Sleeping(c, depth)], queue := s.queue[c := s.queue[c] + [t]]))
  {
    var s' := s.(act := s.act[t := Sleeping(c, depth)], queue := s.queue[c := s.queue[c] + [t]]);
    assert ThreadOk(s, t);
    assert s'.queue[c][|s.queue[c]|] == t;
    forall u | u in s'.act
      ensures ThreadOk(s', u)
    {
      assert ThreadOk(s, u);
    }
    forall d | d in s'.queue
      ensures QueueOk(s', d)
    {
      assert QueueOk(s, d) && t !in s.queue[d];
    }
  }

  /** Waking the first k threads that wait on a condition. */
  lemma AwakeGood<T, C>(s: State<T, C>, c: C, k: nat)
    requires Good(s) && c in s.queue && k <= |s.queue[c]|
    ensures Good(s.(act := Awake(s.act, s.queue[c][..k]), queue := s.queue[c := s.queue[c][k..]]))
  {
    var q := s.queue[c];
    var s' := s.(act := Awake(s.act, q[..k]), queue := s.queue[c := q[k..]]);
    assert QueueOk(s, c);
    assert q == q[..k] + q[k..];
    forall u | u in s'.act
      ensures ThreadOk(s', u)
    {
      assert ThreadOk(s, u);
      if u in q { assert u in q[..k] || u in q[k..]; }
    }
    forall d | d in s'.queue
      ensures QueueOk(s', d)
    {
      assert QueueOk(s, d);
    }
  }

  lemma ScheduledGood<T, C>(s: State<T, C>, t: T)
    requires Good(s) && Enabled(s, Scheduled(t))
    ensures Good(Next(s, Scheduled(t)))
  {
    var s' := Next(s, Scheduled(t));
    assert ThreadOk(s, t);
    forall u | u in s'.act
      ensures ThreadOk(s', u)
    {
      assert ThreadOk(s, u);
    }
    forall c | c in s'.queue
      ensures QueueOk(s', c)
    {
      assert QueueOk(s, c);
    }
  }

  lemma WakeupGood<T, C>(s: State<T, C>, t: T)
    requires Good(s)
    ensures Good(s.(asleep := s.asleep - {t}))
  {
    var s' := s.(asleep := s.asleep - {t});
    forall u | u in s'.act
      ensures ThreadOk(s', u)
    {
      assert ThreadOk(s, u);
    }
    forall c | c in s'.queue
      ensures QueueOk(s', c)
    {
      assert QueueOk(s, c);
    }
  }

  lemma StepGood<T, C>(s: State<T, C>, a: Action<T, C>)
    requires Good(s) && Enabled(s, a)
    ensures Good(Next(s, a))
  {
    match a
    case Lock(t) =>
      if s.m.owner == Some(t) {
        DepthGood(s, Granted(s.m, t));
      } else if s.m.owner.None? {
        assert s.act[t := Runs] == s.act;
        GrantGood(s, t, Granted(s.m, t));
      } else {
        QueueGood(s, t, None);
      }
    case TryLock(t) =>
      if s.m.owner.None? {
        assert s.act[t := Runs] == s.act;
        GrantGood(s, t, Granted(s.m, t));
      } else if Grantable(s.m, t) {
        DepthGood(s, Granted(s.m, t));
      }
    case Unlock(t) => if s.m.recursive > 0 { DepthGood(s, Unlocked(s.m)); } else { PassGood(s, t, Unlocked(s.m)); }
    case Wait(t, c) =>
      PassGood(s, t, UnlockedAll(s.m));
      SleepGood(HandedOn(s, UnlockedAll(s.m)), t, c, DepthOf(s.m));
    case Signal(c) => if s.queue[c] != [] { AwakeGood(s, c, 1); }
    case Broadcast(c) =>
      AwakeGood(s, c, |s.queue[c]|);
      assert s.queue[c][..|s.queue[c]|] == s.queue[c] && s.queue[c][|s.queue[c]|..] == [];
    case Relock(t) =>
      assert ThreadOk(s, t);
      if s.m.owner.None? { GrantGood(s, t, GrantedAt(s.m, t, s.act[t].depth)); } else { QueueGood(s, t, Some(s.act[t].depth)); }
    case Scheduled(t) => ScheduledGood(s, t);
    case Wakeup(t) => WakeupGood(s, t);
  }

  // ----- all runs

  ghost predicate Possible<T, C>(s: State<T, C>, run: seq<Action<T, C>>)
    decreases |run|
  {
    run == [] || (Enabled(s, run[0]) && Possible(Next(s, run[0]), run[1..]))
  }

  ghost function After<T, C>(s: State<T, C>, run: seq<Action<T, C>>): State<T, C>
    requires Possible(s, run)
    decreases |run|
  {
    if run == [] then s else After(Next(s, run[0]), run[1..])
  }

  /** Nobody has locked the mutex, and nobody waits. */
  ghost predicate Initial<T, C>(s: State<T, C>)
  {
    && s.m.owner.None? && s.m.waiting == [] && s.arrived == [] && s.granted == []
    && s.asleep == {} && (forall t :: t in s.act ==> s.act[t] == Runs)
    && (forall c :: c in s.queue ==> s.queue[c] == [])
  }

  lemma InitialGood<T, C>(s: State<T, C>)
    requires Initial(s)
    ensures Good(s)
  {
  }

  /**
   * In every run the mutex is granted in the order of arrival, and its owner is never
   * asleep in the lock that it was granted.
   */
  lemma {:induction false} RunsServeInOrder<T, C>(s: State<T, C>, run: seq<Action<T, C>>)
    requires Good(s) && Possible(s, run)
    ensures var r := After(s, run);
      && Good(r) && r.granted <= r.arrived && s.granted <= r.granted && s.arrived <= r.arrived
      && (r.m.owner.Some? ==> r.m.owner.value !in r.asleep)
    decreases |run|
  {
    if run != [] {
      StepGood(s, run[0]);
      RunsServeInOrder(Next(s, run[0]), run[1..]);
    } else if s.m.owner.Some? {
      assert ThreadOk(s, s.m.owner.value);
    }
  }

  /** From a free mutex, in every reachable state: who has arrived has been granted the mutex, or is still queued, in that order. */
  lemma NobodyLost<T, C>(s: State<T, C>, run: seq<Action<T, C>>)
    requires Initial(s) && (InitialGood(s); Possible(s, run))
    ensures (InitialGood(s);
      var r := After(s, run);
      r.arrived == r.granted + r.m.waiting && (r.m.owner.Some? ==> r.m.owner.value !in r.asleep))
  {
    InitialGood(s);
    RunsServeInOrder(s, run);
  }

  /** t is between giving the mutex up to wait on a condition and having it back. */
  ghost predicate Away<T, C>(s: State<T, C>, t: T, depth: nat)
  {
    t in s.act && match s.act[t]
      case Runs => false
      case Locking(r) => r == Some(depth)
      case Sleeping(_, d) => d == depth
      case Woken(d) => d == depth
  }

  ghost predicate Back<T, C>(s: State<T, C>, t: T, depth: nat)
  {
    Doing(s, t, Runs) && s.m.owner == Some(t) && (s.m.recursive >= 0 ==> s.m.recursive == depth)
  }

  lemma AwayStep<T, C>(s: State<T, C>, a: Action<T, C>, t: T, depth: nat)
    requires Good(s) && Enabled(s, a) && Away(s, t, depth)
    ensures Away(Next(s, a), t, depth) || Back(Next(s, a), t, depth)
    ensures Next(s, a).m.recursive >= 0 <==> s.m.recursive >= 0
  {
    assert ThreadOk(s, t);
  }

  /** At the end of the run t runs, for the first time. */
  ghost predicate ReturnsAtEnd<T, C>(s: State<T, C>, run: seq<Action<T, C>>, t: T)
    requires Possible(s, run)
    decreases |run|
  {
    if run == [] then Doing(s, t, Runs) else !Doing(s, t, Runs) && ReturnsAtEnd(Next(s, run[0]), run[1..], t)
  }

  lemma {:induction false} AwayUntilBack<T, C>(s: State<T, C>, run: seq<Action<T, C>>, t: T, depth: nat)
    requires Good(s) && Possible(s, run) && ReturnsAtEnd(s, run, t)
    requires Away(s, t, depth) || Back(s, t, depth)
    ensures Back(After(s, run), t, depth) && (After(s, run).m.recursive >= 0 <==> s.m.recursive >= 0)
    decreases |run|
  {
    if run != [] {
      StepGood(s, run[0]);
      AwayStep(s, run[0], t, depth);
      AwayUntilBack(Next(s, run[0]), run[1..], t, depth);
    }
  }

  /** A wait on a condition returns owning the mutex as deeply as before, whatever happens in between. */
  lemma ConditionWaitRestores<T, C>(s: State<T, C>, t: T, c: C, run: seq<Action<T, C>>)
    requires Good(s) && Enabled(s, Wait(t, c)) && Possible(Next(s, Wait(t, c)), run)
    requires ReturnsAtEnd(Next(s, Wait(t, c)), run, t)
    ensures var r := After(Next(s, Wait(t, c)), run);
      r.m.owner == Some(t) && (s.m.recursive >= 0 ==> r.m.recursive == s.m.recursive)
  {
    StepGood(s, Wait(t, c));
    AwayUntilBack(Next(s, Wait(t, c)), run, t, DepthOf(s.m));
  }

  /** The k-th thread that waits is the owner after k + 1 complete releases, if nothing else happens. */
  function Releases<T>(m: FastMutex<T>, k: nat): FastMutex<T>
    decreases k
  {
    if k == 0 then m else Releases(UnlockedAll(m), k - 1)
  }

  lemma {:induction false} ServedInTurn<T>(m: FastMutex<T>, k: nat)
    requires k < |m.waiting|
    ensures Releases(m, k + 1).owner == Some(m.waiting[k])
    decreases k
  {
    if k > 0 {
      ServedInTurn(UnlockedAll(m), k - 1);
    } else {
      assert Releases(UnlockedAll(m), 0) == UnlockedAll(m);
    }
  }
}
