// How often a thread has locked a mutex with priority inheritance, and what the mutex
// knows of it: as many unlocks as there were lockings give it back, and no fewer.

module MutexLevels {
  import opened Common
  import opened Inheritance
  import opened MutexProtocol

  /** Locking again and unlocking once changes nothing. */
  lemma UnlockUndoesRelock<T, M, C>(s: State<T, M, C>, t: T, m: M, pr: int, n: Option<T>)
    requires Good(s) && IsRunning(s, t) && OwnedBy(s.w, m, t) && s.w.mtx[m].depth >= 0
    ensures Enabled(s, Lock(t, m)) && Good(Next(s, Lock(t, m))) && Enabled(Next(s, Lock(t, m)), Unlock(t, m, pr, n))
    ensures Next(s, Lock(t, m)) != s && Next(Next(s, Lock(t, m)), Unlock(t, m, pr, n)) == s
  {
    StepGood(s, Lock(t, m));
    var r := Next(s, Lock(t, m));
    assert r.w == SetDepth(s.w, m, s.w.mtx[m].depth + 1);
    assert s.w.mtx[m].(depth := s.w.mtx[m].depth + 1).(depth := s.w.mtx[m].depth) == s.w.mtx[m];
    assert SetDepth(r.w, m, s.w.mtx[m].depth).mtx == s.w.mtx;
  }

  /**
   * How many lockings of m by t are not undone, n before the step: lock and tryLock count when they return with the
   * mutex, which lock may do only later. A wait on a condition returns with the mutex, so it is one only
   * for a thread that did not own it.
   */
  ghost function Level<T, M, C>(s: State<T, M, C>, a: Action<T, M, C>, t: T, m: M, n: int): int
    requires Good(s) && Enabled(s, a) && m in s.w.mtx
  {
    var o := s.w.mtx[m].owner;
    match a
    case Lock(u, k) => if u == t && k == m && (o.None? || o == Some(t)) then n + 1 else n
    case TryLock(u, k) => if u == t && k == m && (o.None? || (o == Some(t) && s.w.mtx[m].depth >= 0)) then n + 1 else n
    case LockReturn(u) => if u == t && s.act[t].m == m && s.act[t].restore.None? then n + 1 else n
    case Unlock(u, k, _, _) => if u == t && k == m && o == Some(t) then n - 1 else n
    case Wait(u, _, k, _, _) => if u == t && k == m && o != Some(t) then n + 1 else n
    case _ => n
  }

  ghost function Levels<T, M, C>(s: State<T, M, C>, run: seq<Action<T, M, C>>, t: T, m: M, n: int): int
    requires Good(s) && Possible(s, run) && m in s.w.mtx
    decreases |run|
  {
    if run == [] then n
    else
      StepGood(s, run[0]);
      RecursiveForever(s, run[0], m);
      Levels(Next(s, run[0]), run[1..], t, m, Level(s, run[0], t, m, n))
  }

  /** A mutex is free, and is given away, at depth zero. */
  ghost predicate StartsAtZero<T, M, C>(s: State<T, M, C>, m: M)
  {
    && m in s.w.mtx
    && var o := s.w.mtx[m].owner;
       o.None? || (o.value in s.act && s.act[o.value].Locking? && s.act[o.value].m == m) ==> s.w.mtx[m].depth <= 0
  }

  /** The lockings that t comes back to with m, if it is on its way to m. */
  ghost function Pending<T, M, C>(s: State<T, M, C>, t: T, m: M): Option<int>
    requires t in s.act
  {
    match s.act[t]
    case Runs => None
    case Locking(k, r) => if k != m then None else if r.None? then Some(0) else Some(r.value + 1)
    case Sleeping(_, k, d) => if k == m then Some(d + 1) else None
    case Woken(k, d) => if k == m then Some(d + 1) else None
  }

  /** The lockings that a mutex knows of, for its owner. */
  ghost function KnownTo<T, M>(w: World<T, M>, t: T, m: M): int
    requires m in w.mtx
  {
    if w.mtx[m].owner != Some(t) then 0 else if w.mtx[m].depth >= 0 then w.mtx[m].depth + 1 else 1
  }

  /** What n lockings that have not been undone mean to t. */
  ghost predicate Counted<T, M, C>(s: State<T, M, C>, t: T, m: M, n: int)
  {
    && t in s.act && m in s.w.mtx
    && var p := Pending(s, t, m);
       if p.None? then n == KnownTo(s.w, t, m) else n == p.value && (s.w.mtx[m].depth < 0 ==> n <= 1)
  }

  // ----- what the steps do to owner and depth

  /** m has the same owner and depth. */
  ghost predicate SameLock<T, M>(w: World<T, M>, w': World<T, M>, m: M)
  {
    m in w.mtx && m in w'.mtx && w'.mtx[m].owner == w.mtx[m].owner && w'.mtx[m].depth == w.mtx[m].depth
  }

  lemma BlockSameLock<T, M>(w: World<T, M>, t: T, k: M, m: M)
    requires Inv(w) && MayWait(w, t, k) && m in w.mtx
    ensures SameLock(w, Block(w, t, k), m)
  {
  }

  /** u, which runs, locks k without waiting. */
  lemma GrabCounts<T, M, C>(s: State<T, M, C>, r: State<T, M, C>, u: T, k: M, t: T, m: M, n: int)
    requires Counted(s, t, m, n) && StartsAtZero(s, m) && IsRunning(s, u) && k in s.w.mtx && MayGrab(s.w, u, k)
    requires r == s.(w := Grab(s.w, u, k))
    ensures Counted(r, t, m, if u == t && k == m then n + 1 else n) && StartsAtZero(r, m)
  {
  }

  /** u, which owns something else if anything, begins to wait for k. */
  lemma BlockCounts<T, M, C>(s: State<T, M, C>, r: State<T, M, C>, u: T, k: M, restore: Option<nat>, t: T, m: M, n: int)
    requires Counted(s, t, m, n) && StartsAtZero(s, m) && u in s.act && k in s.w.mtx && s.w.mtx[k].owner != Some(u)
    requires SameLock(s.w, r.w, m) && r.act == s.act[u := Locking(k, restore)]
    requires if restore.None? then s.act[u].Runs? else s.act[u] == Woken(k, restore.value)
    ensures Counted(r, t, m, n) && StartsAtZero(r, m)
  {
  }

  lemma LockCounts<T, M, C>(s: State<T, M, C>, u: T, k: M, t: T, m: M, n: int, r: State<T, M, C>)
    requires Good(s) && Enabled(s, Lock(u, k)) && Counted(s, t, m, n) && StartsAtZero(s, m) && r == Next(s, Lock(u, k))
    ensures Counted(r, t, m, Level(s, Lock(u, k), t, m, n)) && StartsAtZero(r, m)
  {
    if MayGrab(s.w, u, k) {
      GrabCounts(s, r, u, k, t, m, n);
    } else {
      BlockSameLock(s.w, u, k, m);
      BlockCounts(s, r, u, k, None, t, m, n);
    }
  }

  lemma TryLockCounts<T, M, C>(s: State<T, M, C>, u: T, k: M, t: T, m: M, n: int, r: State<T, M, C>)
    requires Good(s) && Enabled(s, TryLock(u, k)) && Counted(s, t, m, n) && StartsAtZero(s, m) && r == Next(s, TryLock(u, k))
    ensures Counted(r, t, m, Level(s, TryLock(u, k), t, m, n)) && StartsAtZero(r, m)
  {
    if MayGrab(s.w, u, k) { GrabCounts(s, r, u, k, t, m, n); }
  }

  /** u, which owns k, is done locking it. */
  lemma ReturnCounts<T, M, C>(s: State<T, M, C>, r: State<T, M, C>, u: T, k: M, t: T, m: M, n: int)
    requires Counted(s, t, m, n) && StartsAtZero(s, m) && u in s.act && s.act[u].Locking? && s.act[u].m == k
    requires OwnedBy(s.w, k, u) && r.act == s.act[u := Runs]
    requires r.w == if s.act[u].restore.None? then s.w else Restored(s.w, k, s.act[u].restore.value)
    ensures Counted(r, t, m, if u == t && k == m && s.act[u].restore.None? then n + 1 else n) && StartsAtZero(r, m)
  {
  }

  lemma LockReturnCounts<T, M, C>(s: State<T, M, C>, u: T, t: T, m: M, n: int, r: State<T, M, C>)
    requires Good(s) && Enabled(s, LockReturn(u)) && Counted(s, t, m, n) && StartsAtZero(s, m) && r == Next(s, LockReturn(u))
    ensures Counted(r, t, m, Level(s, LockReturn(u), t, m, n)) && StartsAtZero(r, m)
  {
    ReturnCounts(s, r, u, s.act[u].m, t, m, n);
  }

  /** What giving a mutex up does to its owner and depth. */
  ghost predicate GivenUp<T, M>(w: World<T, M>, w': World<T, M>, u: T, k: M, n: Option<T>, m: M)
    requires m in w.mtx
  {
    if k != m || w.mtx[m].owner != Some(u) then SameLock(w, w', m)
    else
      && m in w'.mtx && w'.mtx[m].owner == n && n != Some(u)
      && w'.mtx[m].depth == if w.mtx[m].depth >= 0 then 0 else w.mtx[m].depth
  }

  lemma GiveUpLock<T, M>(w: World<T, M>, u: T, k: M, pr: int, n: Option<T>, m: M)
    requires Inv(w) && MayGiveUp(w, u, k, pr, n) && m in w.mtx
    ensures GivenUp(w, GiveUp(w, u, k, pr, n), u, k, n, m)
    ensures k == m && w.mtx[m].owner == Some(u) && n.Some? ==> n.value in w.thr && w.thr[n.value].waitsFor == Some(m)
  {
    assert MutexLinks(w, m) && MutexLinks(w, k);
  }

  /** Who gets m was waiting for it. */
  lemma ReceiverWaits<T, M, C>(s: State<T, M, C>, u: T, k: M, pr: int, nn: Option<T>, m: M)
    requires Good(s) && MayGiveUp(s.w, u, k, pr, nn) && m in s.w.mtx
    ensures GivenUp(s.w, GiveUp(s.w, u, k, pr, nn), u, k, nn, m)
    ensures k == m && s.w.mtx[m].owner == Some(u) && nn.Some? ==>
      nn.value in s.act && s.act[nn.value].Locking? && s.act[nn.value].m == m
  {
    GiveUpLock(s.w, u, k, pr, nn, m);
    if k == m && s.w.mtx[m].owner == Some(u) && nn.Some? { assert ActivityOk(s, nn.value); }
  }

  /** u, which runs, gives k up, and goes on or sleeps. */
  lemma GiveUpCounts<T, M, C>(s: State<T, M, C>, r: State<T, M, C>, u: T, k: M, nn: Option<T>, t: T, m: M, n: int)
    requires Counted(s, t, m, n) && StartsAtZero(s, m) && IsRunning(s, u) && k in s.w.mtx && GivenUp(s.w, r.w, u, k, nn, m)
    requires k == m && s.w.mtx[m].owner == Some(u) && nn.Some? ==>
      nn.value in s.act && s.act[nn.value].Locking? && s.act[nn.value].m == m
    requires r.act == s.act && (s.w.mtx[m].owner == Some(u) && k == m ==> s.w.mtx[m].depth <= 0)
    ensures Counted(r, t, m, if u == t && k == m && s.w.mtx[m].owner == Some(t) then n - 1 else n) && StartsAtZero(r, m)
  {
  }

  lemma SleepCounts<T, M, C>(s: State<T, M, C>, r: State<T, M, C>, u: T, c: C, k: M, nn: Option<T>, t: T, m: M, n: int)
    requires Counted(s, t, m, n) && StartsAtZero(s, m) && IsRunning(s, u) && k in s.w.mtx && GivenUp(s.w, r.w, u, k, nn, m)
    requires k == m && s.w.mtx[m].owner == Some(u) && nn.Some? ==>
      nn.value in s.act && s.act[nn.value].Locking? && s.act[nn.value].m == m
    requires r.act == s.act[u := Sleeping(c, k, DepthOf(s.w, u, k))]
    ensures Counted(r, t, m, if u == t && k == m && s.w.mtx[m].owner != Some(t) then n + 1 else n) && StartsAtZero(r, m)
  {
  }

  lemma UnlockCounts<T, M, C>(s: State<T, M, C>, u: T, k: M, pr: int, nn: Option<T>, t: T, m: M, n: int, r: State<T, M, C>)
    requires Good(s) && Enabled(s, Unlock(u, k, pr, nn)) && Counted(s, t, m, n) && StartsAtZero(s, m)
    requires r == Next(s, Unlock(u, k, pr, nn))
    ensures Counted(r, t, m, Level(s, Unlock(u, k, pr, nn), t, m, n)) && StartsAtZero(r, m)
  {
    if LockedAgain(s.w, u, k) {
      ShallowerCounts(s, r, u, k, t, m, n);
    } else {
      ReceiverWaits(s, u, k, pr, nn, m);
      GiveUpCounts(s, r, u, k, nn, t, m, n);
    }
  }

  lemma ShallowerCounts<T, M, C>(s: State<T, M, C>, r: State<T, M, C>, u: T, k: M, t: T, m: M, n: int)
    requires Counted(s, t, m, n) && StartsAtZero(s, m) && IsRunning(s, u) && k in s.w.mtx && LockedAgain(s.w, u, k)
    requires r == s.(w := SetDepth(s.w, k, s.w.mtx[k].depth - 1))
    ensures Counted(r, t, m, if u == t && k == m then n - 1 else n) && StartsAtZero(r, m)
  {
  }

  lemma WaitCounts<T, M, C>(s: State<T, M, C>, u: T, c: C, k: M, pr: int, nn: Option<T>, t: T, m: M, n: int, r: State<T, M, C>)
    requires Good(s) && Enabled(s, Wait(u, c, k, pr, nn)) && Counted(s, t, m, n) && StartsAtZero(s, m)
    requires r == Next(s, Wait(u, c, k, pr, nn))
    ensures Counted(r, t, m, Level(s, Wait(u, c, k, pr, nn), t, m, n)) && StartsAtZero(r, m)
  {
    ReceiverWaits(s, u, k, pr, nn, m);
    SleepCounts(s, r, u, c, k, nn, t, m, n);
  }

  /** u is back from a condition and takes k, which is free. */
  lemma RetakeCounts<T, M, C>(s: State<T, M, C>, r: State<T, M, C>, u: T, k: M, depth: nat, t: T, m: M, n: int)
    requires Counted(s, t, m, n) && StartsAtZero(s, m) && u in s.act && s.act[u] == Woken(k, depth)
    requires u in s.w.thr && k in s.w.mtx && s.w.mtx[k].owner.None?
    requires r == s.(w := Restored(Take(s.w, u, k), k, depth), act := s.act[u := Runs])
    ensures Counted(r, t, m, n) && StartsAtZero(r, m)
  {
  }

  lemma RelockCounts<T, M, C>(s: State<T, M, C>, u: T, t: T, m: M, n: int, r: State<T, M, C>)
    requires Good(s) && Enabled(s, Relock(u)) && Counted(s, t, m, n) && StartsAtZero(s, m) && r == Next(s, Relock(u))
    ensures Counted(r, t, m, n) && StartsAtZero(r, m)
  {
    assert ActivityOk(s, u);
    RelockWaits(s, u);
    var k := s.act[u].m;
    if s.w.mtx[k].owner.None? {
      RetakeCounts(s, r, u, k, s.act[u].depth, t, m, n);
    } else {
      BlockSameLock(s.w, u, k, m);
      BlockCounts(s, r, u, k, Some(s.act[u].depth), t, m, n);
    }
  }

  /** Being woken, and other priorities, change nothing. */
  lemma WakingCounts<T, M, C>(s: State<T, M, C>, r: State<T, M, C>, q: seq<T>, t: T, m: M, n: int)
    requires Counted(s, t, m, n) && StartsAtZero(s, m) && SameLock(s.w, r.w, m) && (r.act == s.act || r.act == Awake(s.act, q))
    ensures Counted(r, t, m, n) && StartsAtZero(r, m)
  {
  }

  lemma StepCounts<T, M, C>(s: State<T, M, C>, a: Action<T, M, C>, t: T, m: M, n: int)
    requires Good(s) && Enabled(s, a) && Counted(s, t, m, n) && StartsAtZero(s, m)
    ensures Counted(Next(s, a), t, m, Level(s, a, t, m, n)) && StartsAtZero(Next(s, a), m)
  {
    var r := Next(s, a);
    match a
    case Lock(u, k) => LockCounts(s, u, k, t, m, n, r);
    case TryLock(u, k) => TryLockCounts(s, u, k, t, m, n, r);
    case LockReturn(u) => LockReturnCounts(s, u, t, m, n, r);
    case Unlock(u, k, pr, nn) => UnlockCounts(s, u, k, pr, nn, t, m, n, r);
    case Wait(u, c, k, pr, nn) => WaitCounts(s, u, c, k, pr, nn, t, m, n, r);
    case Relock(u) => RelockCounts(s, u, t, m, n, r);
    case Signal(c) => WakingCounts(s, r, s.queue[c][..if s.queue[c] == [] then 0 else 1], t, m, n);
    case Broadcast(c) => WakingCounts(s, r, s.queue[c], t, m, n);
    case SetPriority(_, _, _) => WakingCounts(s, r, [], t, m, n);
  }

  // ----- runs

  lemma {:induction false} RunCounts<T, M, C>(s: State<T, M, C>, run: seq<Action<T, M, C>>, t: T, m: M, n: int)
    requires Good(s) && Possible(s, run) && Counted(s, t, m, n) && StartsAtZero(s, m)
    ensures Counted(After(s, run), t, m, Levels(s, run, t, m, n))
    decreases |run|
  {
    if run != [] {
      StepGood(s, run[0]);
      StepCounts(s, run[0], t, m, n);
      RunCounts(Next(s, run[0]), run[1..], t, m, Level(s, run[0], t, m, n));
    }
  }

  /**
   * From a free mutex, in every run: a running thread owns it exactly if it has locked it more often than
   * unlocked, and then the depth of a recursive mutex is one less than the difference.
   */
  lemma OwnsWhileLocked<T, M, C>(s: State<T, M, C>, run: seq<Action<T, M, C>>, t: T, m: M)
    requires Good(s) && Possible(s, run) && IsRunning(s, t) && m in s.w.mtx && s.w.mtx[m].owner.None?
    ensures var r, n := After(s, run), Levels(s, run, t, m, 0);
      && t in r.act && m in r.w.mtx
      && (r.act[t].Runs? ==>
            && n >= 0 && (OwnedBy(r.w, m, t) <==> n > 0)
            && (n > 0 ==> if r.w.mtx[m].depth >= 0 then r.w.mtx[m].depth == n - 1 else n == 1))
  {
    FreeCounts(s, t, m);
    RunCounts(s, run, t, m, 0);
    CountedOwner(After(s, run), t, m, Levels(s, run, t, m, 0));
  }

  lemma FreeCounts<T, M, C>(s: State<T, M, C>, t: T, m: M)
    requires Good(s) && IsRunning(s, t) && m in s.w.mtx && s.w.mtx[m].owner.None?
    ensures Counted(s, t, m, 0) && StartsAtZero(s, m)
  {
    assert MutexLinks(s.w, m);
  }

  lemma CountedOwner<T, M, C>(s: State<T, M, C>, t: T, m: M, n: int)
    requires Counted(s, t, m, n)
    ensures s.act[t].Runs? ==>
      && n >= 0 && (OwnedBy(s.w, m, t) <==> n > 0)
      && (n > 0 ==> if s.w.mtx[m].depth >= 0 then s.w.mtx[m].depth == n - 1 else n == 1)
  {
  }

  /** The mutex leaves its owner at the unlock that balances its last locking, and at none before. */
  lemma LeavesWhenBalanced<T, M, C>(s: State<T, M, C>, run: seq<Action<T, M, C>>, t: T, m: M, pr: int, n: Option<T>)
    requires Good(s) && Possible(s, run) && IsRunning(s, t) && m in s.w.mtx && s.w.mtx[m].owner.None?
    requires OwnedBy(After(s, run).w, m, t) && Enabled(After(s, run), Unlock(t, m, pr, n))
    ensures OwnedBy(Next(After(s, run), Unlock(t, m, pr, n)).w, m, t) <==> Levels(s, run, t, m, 0) > 1
  {
    FreeCounts(s, t, m);
    RunCounts(s, run, t, m, 0);
    var r := After(s, run);
    if !LockedAgain(r.w, t, m) { GiveUpLock(r.w, t, m, pr, n, m); }
  }
}
