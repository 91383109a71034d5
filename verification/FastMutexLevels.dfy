// How often a thread has locked the mutex without priority inheritance, and what the mutex
// knows of it: as many unlocks as there were lockings give it back, and no fewer.

module FastMutexLevels {
  import opened Common
  import opened FastMutexProtocol

  /** Locking again and unlocking once changes nothing. */
  lemma UnlockUndoesRelock<T>(m: FastMutex<T>, t: T)
    requires m.owner == Some(t) && m.recursive >= 0
    ensures Grantable(m, t) && Unlocked(Granted(m, t)) == m && Granted(m, t) != m
  {
  }

  /** Locking a free mutex that has no waiters, and unlocking it, changes nothing either. */
  lemma UnlockUndoesLock<T>(m: FastMutex<T>, t: T)
    requires m.owner.None? && m.waiting == [] && m.recursive <= 0
    ensures Grantable(m, t) && Granted(m, t).owner == Some(t) && Unlocked(Granted(m, t)) == m
  {
  }

  /**
   * How many lockings t has not undone, n before the step: lock and tryLock count when they return with the
   * mutex, which lock may do only when t is scheduled again. A wait on a condition neither locks nor unlocks.
   */
  ghost function Level<T, C>(s: State<T, C>, a: Action<T, C>, t: T, n: int): int
    requires Enabled(s, a)
  {
    match a
    case Lock(u) => if u == t && (s.m.owner.None? || s.m.owner == Some(t)) then n + 1 else n
    case TryLock(u) => if u == t && (s.m.owner.None? || (s.m.owner == Some(t) && s.m.recursive >= 0)) then n + 1 else n
    case Scheduled(u) => if u == t && s.m.owner == Some(t) && s.act[t].restore.None? then n + 1 else n
    case Unlock(u) => if u == t then n - 1 else n
    case _ => n
  }

  ghost function Levels<T, C>(s: State<T, C>, run: seq<Action<T, C>>, t: T, n: int): int
    requires Possible(s, run)
    decreases |run|
  {
    if run == [] then n else Levels(Next(s, run[0]), run[1..], t, Level(s, run[0], t, n))
  }

  /** A mutex is given away, and taken, at depth zero. */
  ghost predicate StartsAtZero<T, C>(s: State<T, C>)
  {
    && (s.m.owner.None? ==> s.m.recursive <= 0)
    && (s.m.owner.Some? && s.m.owner.value in s.act && s.act[s.m.owner.value].Locking? ==> s.m.recursive <= 0)
  }

  /** What n lockings that have not been undone mean to t. */
  ghost predicate Counted<T, C>(s: State<T, C>, t: T, n: int)
  {
    t in s.act && match s.act[t]
      case Runs => n == if s.m.owner != Some(t) then 0 else if s.m.recursive >= 0 then s.m.recursive + 1 else 1
      case Locking(r) => n == if r.None? then 0 else r.value + 1
      case Sleeping(_, d) => n == d + 1
      case Woken(d) => n == d + 1
  }

  /** While t waits for the mutex at a depth that is not recursive, that depth is zero. */
  ghost predicate FlatDepth<T, C>(s: State<T, C>, t: T)
  {
    s.m.recursive < 0 && t in s.act ==> match s.act[t]
      case Runs => true
      case Locking(r) => r.Some? ==> r.value == 0
      case Sleeping(_, d) => d == 0
      case Woken(d) => d == 0
  }

  lemma StepStartsAtZero<T, C>(s: State<T, C>, a: Action<T, C>)
    requires Good(s) && Enabled(s, a) && StartsAtZero(s)
    ensures StartsAtZero(Next(s, a))
  {
    if s.m.owner.Some? { assert ThreadOk(s, s.m.owner.value); }
  }

  lemma StepCounts<T, C>(s: State<T, C>, a: Action<T, C>, t: T, n: int)
    requires Good(s) && Enabled(s, a) && StartsAtZero(s) && Counted(s, t, n) && FlatDepth(s, t)
    ensures Counted(Next(s, a), t, Level(s, a, t, n)) && FlatDepth(Next(s, a), t)
  {
    match a
    case Unlock(_) => LeavingCounts(s, a, t, n);
    case Wait(_, _) => LeavingCounts(s, a, t, n);
    case _ => OthersCount(s, a, t, n);
  }

  lemma LeavingCounts<T, C>(s: State<T, C>, a: Action<T, C>, t: T, n: int)
    requires Good(s) && Enabled(s, a) && StartsAtZero(s) && Counted(s, t, n) && FlatDepth(s, t) && (a.Unlock? || a.Wait?)
    ensures Counted(Next(s, a), t, Level(s, a, t, n)) && FlatDepth(Next(s, a), t)
  {
    assert ThreadOk(s, t);
    if s.m.waiting != [] { assert s.m.waiting[0] in s.m.waiting; }
  }

  lemma OthersCount<T, C>(s: State<T, C>, a: Action<T, C>, t: T, n: int)
    requires Good(s) && Enabled(s, a) && StartsAtZero(s) && Counted(s, t, n) && FlatDepth(s, t) && !a.Unlock? && !a.Wait?
    ensures Counted(Next(s, a), t, Level(s, a, t, n)) && FlatDepth(Next(s, a), t)
  {
    assert ThreadOk(s, t);
  }

  lemma {:induction false} RunCounts<T, C>(s: State<T, C>, run: seq<Action<T, C>>, t: T, n: int)
    requires Good(s) && Possible(s, run) && StartsAtZero(s) && Counted(s, t, n) && FlatDepth(s, t)
    ensures Good(After(s, run)) && Counted(After(s, run), t, Levels(s, run, t, n))
    decreases |run|
  {
    if run != [] {
      StepGood(s, run[0]);
      StepStartsAtZero(s, run[0]);
      StepCounts(s, run[0], t, n);
      RunCounts(Next(s, run[0]), run[1..], t, Level(s, run[0], t, n));
    }
  }

  /**
   * From a free mutex, in every run: a running thread owns the mutex exactly if it has locked it more often
   * than unlocked, and then the depth of a recursive mutex is one less than the difference.
   */
  lemma OwnsWhileLocked<T, C>(s: State<T, C>, run: seq<Action<T, C>>, t: T)
    requires Initial(s) && s.m.recursive <= 0 && Possible(s, run) && t in s.act
    ensures var r, n := After(s, run), Levels(s, run, t, 0);
      && t in r.act && n >= 0
      && (r.act[t].Runs? ==> (r.m.owner == Some(t) <==> n > 0))
      && (r.act[t].Runs? && n > 0 && r.m.recursive >= 0 ==> r.m.recursive == n - 1)
      && (r.act[t].Runs? && n > 0 && r.m.recursive < 0 ==> n == 1)
  {
    InitialGood(s);
    RunCounts(s, run, t, 0);
  }

  /** The mutex leaves its owner at the unlock that balances its last locking, and at none before. */
  lemma LeavesWhenBalanced<T, C>(s: State<T, C>, run: seq<Action<T, C>>, t: T)
    requires Initial(s) && s.m.recursive <= 0 && Possible(s, run) && t in s.act && Enabled(After(s, run), Unlock(t))
    ensures var r := After(s, run);
      Next(r, Unlock(t)).m.owner == Some(t) <==> Levels(s, run, t, 0) > 1
  {
    InitialGood(s);
    RunCounts(s, run, t, 0);
    assert ThreadOk(After(s, run), t);
  }
}
