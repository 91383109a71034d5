// Threads calling lock, tryLock, unlock, wait, signal, broadcast and setPriority in
// any order (sync.h, sync.cpp, kernel.cpp). Each step is what one thread does between
// two points at which the kernel may run another thread.

module MutexProtocol {
  import opened Common
  import opened Inheritance

  /** What a thread is in the middle of. A wait on a condition remembers the depth to come back to. */
  datatype Activity<M, C> =
    | Runs
    | Locking(m: M, restore: Option<nat>)
    | Sleeping(c: C, m: M, depth: nat)
    | Woken(m: M, depth: nat)

  /** queue holds the threads waiting on a condition variable, the first to be woken first. */
  datatype State<!T, !M, !C> = State(w: World<T, M>, act: map<T, Activity<M, C>>, queue: map<C, seq<T>>)

  datatype Action<T, M, C> =
    | Lock(t: T, m: M)
    | TryLock(t: T, m: M)
    | LockReturn(t: T)
    | Unlock(t: T, m: M, pr: int, n: Option<T>)
    | Wait(t: T, c: C, m: M, pr: int, n: Option<T>)
    | Signal(c: C)
    | Broadcast(c: C)
    | Relock(t: T)
    | SetPriority(t: T, v: int, pr: int)

  // ----- what every step keeps

  ghost predicate OwnedBy<T, M>(w: World<T, M>, m: M, t: T)
  {
    m in w.mtx && w.mtx[m].owner == Some(t)
  }

  /** A thread is queued on a mutex only while it is locking that mutex, and a sleeper does not own its mutex. */
  ghost predicate ActivityOk<T, M, C>(s: State<T, M, C>, t: T)
    requires t in s.w.thr && t in s.act
  {
    var q := s.w.thr[t].waitsFor;
    match s.act[t]
    case Runs => q.None?
    case Locking(m, _) => q == Some(m) || (q.None? && OwnedBy(s.w, m, t))
    case Sleeping(c, m, _) => q.None? && m in s.w.mtx && !OwnedBy(s.w, m, t) && c in s.queue && t in s.queue[c]
    case Woken(m, _) => q.None? && m in s.w.mtx && !OwnedBy(s.w, m, t)
  }

  ghost predicate QueueOk<T, M, C>(s: State<T, M, C>, c: C)
    requires c in s.queue
  {
    && Distinct(s.queue[c])
    && forall t :: t in s.queue[c] ==> t in s.act && s.act[t].Sleeping? && s.act[t].c == c
  }

  ghost predicate Good<T, M, C>(s: State<T, M, C>)
  {
    && Inv(s.w) && s.act.Keys == s.w.thr.Keys
    && (forall t :: t in s.act ==> ActivityOk(s, t))
    && (forall c :: c in s.queue ==> QueueOk(s, c))
  }

  // ----- the steps

  ghost predicate IsRunning<T, M, C>(s: State<T, M, C>, t: T)
  {
    t in s.act && t in s.w.thr && s.act[t].Runs?
  }

  /** Locking m would not make t wait for itself; relocking a mutex that is not recursive stops the system. */
  ghost predicate MayLock<T, M>(w: World<T, M>, t: T, m: M)
    requires Inv(w)
  {
    t in w.thr && m in w.mtx && (MayGrab(w, t, m) || MayWait(w, t, m))
  }

  /** m can be locked without waiting: it is free, or recursive and t's already. */
  ghost predicate MayGrab<T, M>(w: World<T, M>, t: T, m: M)
    requires t in w.thr && m in w.mtx
  {
    w.mtx[m].owner.None? || (w.mtx[m].owner == Some(t) && w.mtx[m].depth >= 0)
  }

  ghost function Grab<T, M>(w: World<T, M>, t: T, m: M): World<T, M>
    requires t in w.thr && m in w.mtx && MayGrab(w, t, m)
  {
    if w.mtx[m].owner.None? then Take(w, t, m) else SetDepth(w, m, w.mtx[m].depth + 1)
  }

  /** t has locked m more than once. */
  ghost predicate LockedAgain<T, M>(w: World<T, M>, t: T, m: M)
    requires m in w.mtx
  {
    w.mtx[m].owner == Some(t) && w.mtx[m].depth > 0
  }

  /** t gives m up altogether, if it is the owner. */
  ghost predicate MayGiveUp<T, M>(w: World<T, M>, t: T, m: M, pr: int, n: Option<T>)
  {
    t in w.thr && m in w.mtx && (w.mtx[m].owner == Some(t) ==> Releases(w, t, m, pr, n))
  }

  ghost predicate Enabled<T, M, C>(s: State<T, M, C>, a: Action<T, M, C>)
    requires Good(s)
  {
    match a
    case Lock(t, m) => IsRunning(s, t) && MayLock(s.w, t, m)
    case TryLock(t, m) => IsRunning(s, t) && m in s.w.mtx
    case LockReturn(t) => t in s.act && s.act[t].Locking? && OwnedBy(s.w, s.act[t].m, t)
    case Unlock(t, m, pr, n) =>
      && IsRunning(s, t) && m in s.w.mtx
      && (LockedAgain(s.w, t, m) || MayGiveUp(s.w, t, m, pr, n))
    case Wait(t, c, m, pr, n) => IsRunning(s, t) && c in s.queue && MayGiveUp(s.w, t, m, pr, n)
    case Signal(c) => c in s.queue
    case Broadcast(c) => c in s.queue
    case Relock(t) => t in s.act && s.act[t].Woken? && MayLock(s.w, t, s.act[t].m)
    case SetPriority(t, v, pr) => IsRunning(s, t) && RequestedPriority(s.w, t, v, pr)
  }

  ghost function GiveUp<T, M>(w: World<T, M>, t: T, m: M, pr: int, n: Option<T>): World<T, M>
    requires MayGiveUp(w, t, m, pr, n)
  {
    if w.mtx[m].owner == Some(t) then Release(w, t, m, pr, n) else w
  }

  /** The threads of q stop sleeping and are about to take their mutex again. */
  ghost function Awake<T, M, C>(act: map<T, Activity<M, C>>, q: seq<T>): map<T, Activity<M, C>>
  {
    map t | t in act :: if t in q && act[t].Sleeping? then Woken(act[t].m, act[t].depth) else act[t]
  }

  /** The depth that a thread waiting on a condition comes back to. */
  ghost function DepthOf<T, M>(w: World<T, M>, t: T, m: M): nat
    requires m in w.mtx
  {
    if w.mtx[m].owner == Some(t) && w.mtx[m].depth >= 0 then w.mtx[m].depth else 0
  }

  ghost function Next<T, M, C>(s: State<T, M, C>, a: Action<T, M, C>): State<T, M, C>
    requires Good(s) && Enabled(s, a)
  {
    match a
    case Lock(t, m) =>
      if MayGrab(s.w, t, m) then s.(w := Grab(s.w, t, m))
      else s.(w := Block(s.w, t, m), act := s.act[t := Locking(m, None)])
    case TryLock(t, m) => if MayGrab(s.w, t, m) then s.(w := Grab(s.w, t, m)) else s
    case LockReturn(t) =>
      var r := s.act[t].restore;
      s.(w := if r.None? then s.w else Restored(s.w, s.act[t].m, r.value), act := s.act[t := Runs])
    case Unlock(t, m, pr, n) =>
      if LockedAgain(s.w, t, m) then s.(w := SetDepth(s.w, m, s.w.mtx[m].depth - 1))
      else s.(w := GiveUp(s.w, t, m, pr, n))
    case Wait(t, c, m, pr, n) =>
      s.(w := GiveUp(s.w, t, m, pr, n),
         act := s.act[t := Sleeping(c, m, DepthOf(s.w, t, m))],
         queue := s.queue[c := s.queue[c] + [t]])
    case Signal(c) =>
      if s.queue[c] == [] then s
      else s.(act := Awake(s.act, s.queue[c][..1]), queue := s.queue[c := s.queue[c][1..]])
    case Broadcast(c) => s.(act := Awake(s.act, s.queue[c]), queue := s.queue[c := []])
    case Relock(t) =>
      assert ActivityOk(s, t);
      var m := s.act[t].m;
      if s.w.mtx[m].owner.None? then s.(w := Restored(Take(s.w, t, m), m, s.act[t].depth), act := s.act[t := Runs])
      else s.(w := Block(s.w, t, m), act := s.act[t := Locking(m, Some(s.act[t].depth))])
    case SetPriority(t, v, pr) =>
      if s.w.thr[t].held != [] && s.w.thr[t].saved == v then s else s.(w := Reprioritize(s.w, t, v, pr))
  }

  // ----- every step keeps the state good

  /** Whether m changes hands between w and w', from nobody or t to nobody, t or one of the threads queued on it. */
  ghost predicate Moves<T, M>(w: World<T, M>, w': World<T, M>, t: T, m: M)
  {
    Inv(w) && Inv(w') && Touches(w, w', t, m)
  }

  ghost predicate Touches<T, M>(w: World<T, M>, w': World<T, M>, t: T, m: M)
  {
    && w'.thr.Keys == w.thr.Keys && w'.mtx.Keys == w.mtx.Keys && t in w.thr && m in w.mtx
    && (forall k :: k in w.mtx && k != m ==> w'.mtx[k].owner == w.mtx[k].owner)
    && (forall u :: u in w.thr && u != t && w'.thr[u].waitsFor != w.thr[u].waitsFor ==>
          w.thr[u].waitsFor == Some(m) && w'.thr[u].waitsFor.None? && OwnedBy(w', m, u))
    && (forall u :: u in w.thr && u != t && OwnedBy(w, m, u) ==> OwnedBy(w', m, u))
    && (forall u :: u in w.thr && u != t && OwnedBy(w', m, u) ==> OwnedBy(w, m, u) || w.thr[u].waitsFor == Some(m))
  }

  lemma OthersOk<T, M, C>(s: State<T, M, C>, s': State<T, M, C>, t: T, m: M)
    requires Good(s) && Moves(s.w, s'.w, t, m) && s'.act.Keys == s.act.Keys
    requires forall u :: u in s.act && u != t ==> s'.act[u] == s.act[u]
    requires forall c :: c in s.queue ==> c in s'.queue && forall u :: u in s.queue[c] ==> u in s'.queue[c]
    ensures forall u :: u in s'.act && u != t ==> ActivityOk(s', u)
  {
    forall u | u in s'.act && u != t
      ensures ActivityOk(s', u)
    {
      assert ActivityOk(s, u);
    }
  }

  /** A step on m of a thread that sleeps neither before nor after. */
  lemma MoveKeepsGood<T, M, C>(s: State<T, M, C>, s': State<T, M, C>, t: T, m: M)
    requires Good(s) && Moves(s.w, s'.w, t, m) && s'.act.Keys == s.act.Keys && s'.queue == s.queue
    requires forall u :: u in s.act && u != t ==> s'.act[u] == s.act[u]
    requires !s.act[t].Sleeping? && ActivityOk(s', t)
    ensures Good(s')
  {
    OthersOk(s, s', t, m);
    forall c | c in s'.queue
      ensures QueueOk(s', c)
    {
      assert QueueOk(s, c);
    }
  }

  lemma TakeMoves<T, M>(w: World<T, M>, t: T, m: M)
    requires Inv(w) && Running(w, t) && m in w.mtx && w.mtx[m].owner.None?
    ensures Moves(w, Take(w, t, m), t, m)
  {
    TakeInv(w, t, m);
  }

  lemma BlockMoves<T, M>(w: World<T, M>, t: T, m: M)
    requires Inv(w) && MayWait(w, t, m)
    ensures Moves(w, Block(w, t, m), t, m) && Block(w, t, m).thr[t].waitsFor == Some(m)
  {
    BlockTouches(w, t, m);
    BlockInv(w, t, m);
  }

  lemma BlockTouches<T, M>(w: World<T, M>, t: T, m: M)
    requires Inv(w) && MayWait(w, t, m)
    ensures Touches(w, Block(w, t, m), t, m)
  {
    var q := Enqueue(w, t, m);
    EnqueueTouches(w, t, m);
    RaiseTouches(w, q, t, m, Chain(w, w.mtx[m].owner.value), w.thr[t].pri);
  }

  lemma EnqueueTouches<T, M>(w: World<T, M>, t: T, m: M)
    requires t in w.thr && m in w.mtx
    ensures Touches(w, Enqueue(w, t, m), t, m)
  {
  }

  lemma RaiseTouches<T, M>(w: World<T, M>, q: World<T, M>, t: T, m: M, c: set<T>, v: int)
    requires Touches(w, q, t, m)
    ensures Touches(w, Raise(q, c, v), t, m)
  {
  }

  lemma DepthMoves<T, M>(w: World<T, M>, t: T, m: M, depth: int)
    requires Inv(w) && OwnedBy(w, m, t) && depth >= -1
    ensures Moves(w, SetDepth(w, m, depth), t, m)
  {
    SetDepthInv(w, m, depth);
    assert MutexLinks(w, m);
  }

  lemma ReleaseMoves<T, M>(w: World<T, M>, t: T, m: M, pr: int, n: Option<T>)
    requires Releases(w, t, m, pr, n)
    ensures Moves(w, Release(w, t, m, pr, n), t, m)
    ensures Running(Release(w, t, m, pr, n), t) && !OwnedBy(Release(w, t, m, pr, n), m, t)
  {
    ReleaseTouches(w, t, m, pr, n);
    ReleaseInv(w, t, m, pr, n);
  }

  lemma ReleaseTouches<T, M>(w: World<T, M>, t: T, m: M, pr: int, n: Option<T>)
    requires Releases(w, t, m, pr, n)
    ensures Touches(w, Release(w, t, m, pr, n), t, m)
    ensures Running(Release(w, t, m, pr, n), t) && !OwnedBy(Release(w, t, m, pr, n), m, t)
  {
    if n.None? {
      FreeTouches(w, t, m, pr, Release(w, t, m, pr, n));
    } else {
      HandOffTouches(w, t, m, pr, n.value, Release(w, t, m, pr, n));
    }
  }

  lemma FreeTouches<T, M>(w: World<T, M>, t: T, m: M, pr: int, r: World<T, M>)
    requires Releases(w, t, m, pr, None) && r == Free(w, t, m, pr)
    ensures Touches(w, r, t, m) && Running(r, t) && !OwnedBy(r, m, t)
  {
    assert MutexLinks(w, m);
  }

  lemma HandOffTouches<T, M>(w: World<T, M>, t: T, m: M, pr: int, n: T, r: World<T, M>)
    requires Releases(w, t, m, pr, Some(n)) && r == HandOff(w, t, m, pr, n)
    ensures Touches(w, r, t, m) && Running(r, t) && !OwnedBy(r, m, t)
  {
    assert MutexLinks(w, m);
  }

  lemma NothingMoves<T, M>(w: World<T, M>, t: T, m: M)
    requires Inv(w) && t in w.thr && m in w.mtx
    ensures Moves(w, w, t, m)
  {
  }

  /** A thread that owns a mutex is not queued on it. */
  lemma OwnerNotQueued<T, M>(w: World<T, M>, t: T, m: M)
    requires Inv(w) && t in w.thr && OwnedBy(w, m, t)
    ensures w.thr[t].waitsFor != Some(m)
  {
    if w.thr[t].waitsFor == Some(m) {
      var n: nat :| Ends(w, t, n);
      ChainFacts(w, t, n);
      NotInOwnTail(w, t, n);
    }
  }

  lemma RunningThread<T, M, C>(s: State<T, M, C>, t: T)
    requires Good(s) && t in s.act
    ensures (s.act[t].Runs? || s.act[t].Woken?) ==> Running(s.w, t)
  {
    assert ActivityOk(s, t);
  }

  lemma TakenRuns<T, M>(w: World<T, M>, t: T, m: M)
    requires Running(w, t) && m in w.mtx
    ensures Running(Take(w, t, m), t)
  {
  }

  lemma TakeGood<T, M, C>(s: State<T, M, C>, t: T, m: M)
    requires Good(s) && t in s.act && (s.act[t].Runs? || s.act[t].Woken?) && m in s.w.mtx && s.w.mtx[m].owner.None?
    ensures Good(s.(w := Take(s.w, t, m), act := s.act[t := Runs]))
  {
    RunningThread(s, t);
    TakeMoves(s.w, t, m);
    TakenRuns(s.w, t, m);
    TookGood(s, t, m, s.(w := Take(s.w, t, m), act := s.act[t := Runs]));
  }

  lemma TookGood<T, M, C>(s: State<T, M, C>, t: T, m: M, s': State<T, M, C>)
    requires Good(s) && t in s.act && !s.act[t].Sleeping? && Moves(s.w, s'.w, t, m) && Running(s'.w, t)
    requires s'.act == s.act[t := Runs] && s'.queue == s.queue
    ensures Good(s')
  {
    MoveKeepsGood(s, s', t, m);
  }

  lemma BlockGood<T, M, C>(s: State<T, M, C>, t: T, m: M, restore: Option<nat>)
    requires Good(s) && t in s.act && (s.act[t].Runs? || s.act[t].Woken?) && MayWait(s.w, t, m)
    ensures Good(s.(w := Block(s.w, t, m), act := s.act[t := Locking(m, restore)]))
  {
    BlockMoves(s.w, t, m);
    MoveKeepsGood(s, s.(w := Block(s.w, t, m), act := s.act[t := Locking(m, restore)]), t, m);
  }

  lemma DepthGood<T, M, C>(s: State<T, M, C>, t: T, m: M, depth: nat)
    requires Good(s) && IsRunning(s, t) && OwnedBy(s.w, m, t)
    ensures Good(s.(w := SetDepth(s.w, m, depth)))
  {
    RunningThread(s, t);
    DepthMoves(s.w, t, m, depth);
    MoveKeepsGood(s, s.(w := SetDepth(s.w, m, depth)), t, m);
  }

  lemma ReleaseGood<T, M, C>(s: State<T, M, C>, t: T, m: M, pr: int, n: Option<T>)
    requires Good(s) && IsRunning(s, t) && Releases(s.w, t, m, pr, n)
    ensures Good(s.(w := Release(s.w, t, m, pr, n))) && !OwnedBy(Release(s.w, t, m, pr, n), m, t)
  {
    ReleaseMoves(s.w, t, m, pr, n);
    MoveKeepsGood(s, s.(w := Release(s.w, t, m, pr, n)), t, m);
  }

  lemma GrabGood<T, M, C>(s: State<T, M, C>, t: T, m: M)
    requires Good(s) && IsRunning(s, t) && m in s.w.mtx && MayGrab(s.w, t, m)
    ensures Good(s.(w := Grab(s.w, t, m)))
  {
    if s.w.mtx[m].owner.None? {
      assert s.act[t := Runs] == s.act;
      TakeGood(s, t, m);
      assert s.(w := Grab(s.w, t, m)) == s.(w := Take(s.w, t, m), act := s.act[t := Runs]);
    } else {
      var depth: nat := s.w.mtx[m].depth + 1;
      DepthGood(s, t, m, depth);
      assert Grab(s.w, t, m) == SetDepth(s.w, m, depth);
    }
  }

  lemma LockGood<T, M, C>(s: State<T, M, C>, t: T, m: M)
    requires Good(s) && Enabled(s, Lock(t, m))
    ensures Good(Next(s, Lock(t, m)))
  {
    if MayGrab(s.w, t, m) { GrabGood(s, t, m); } else { BlockGood(s, t, m, None); }
  }

  /** A thread that is made the owner while it is locking goes on running. */
  lemma ReturnGood<T, M, C>(s: State<T, M, C>, t: T)
    requires Good(s) && Enabled(s, LockReturn(t))
    ensures Good(s.(act := s.act[t := Runs])) && Running(s.w, t)
  {
    var m := s.act[t].m;
    assert ActivityOk(s, t);
    OwnerNotQueued(s.w, t, m);
    NothingMoves(s.w, t, m);
    MoveKeepsGood(s, s.(act := s.act[t := Runs]), t, m);
  }

  lemma LockReturnGood<T, M, C>(s: State<T, M, C>, t: T)
    requires Good(s) && Enabled(s, LockReturn(t))
    ensures Good(Next(s, LockReturn(t)))
  {
    ReturnGood(s, t);
    if s.act[t].restore.Some? {
      var r := s.(act := s.act[t := Runs]);
      if s.w.mtx[s.act[t].m].depth >= 0 { DepthGood(r, t, s.act[t].m, s.act[t].restore.value); }
    }
  }

  lemma UnlockGood<T, M, C>(s: State<T, M, C>, t: T, m: M, pr: int, n: Option<T>)
    requires Good(s) && Enabled(s, Unlock(t, m, pr, n))
    ensures Good(Next(s, Unlock(t, m, pr, n)))
  {
    if LockedAgain(s.w, t, m) {
      var depth: nat := s.w.mtx[m].depth - 1;
      DepthGood(s, t, m, depth);
      assert Next(s, Unlock(t, m, pr, n)) == s.(w := SetDepth(s.w, m, depth));
    } else if s.w.mtx[m].owner == Some(t) {
      ReleaseGood(s, t, m, pr, n);
    }
  }

  /** A running thread that does not own m falls asleep on c. */
  lemma SleepGood<T, M, C>(s: State<T, M, C>, t: T, c: C, m: M, depth: nat)
    requires Good(s) && IsRunning(s, t) && c in s.queue && m in s.w.mtx && !OwnedBy(s.w, m, t)
    ensures Good(s.(act := s.act[t := Sleeping(c, m, depth)], queue := s.queue[c := s.queue[c] + [t]]))
  {
    var s' := s.(act := s.act[t := Sleeping(c, m, depth)], queue := s.queue[c := s.queue[c] + [t]]);
    RunningThread(s, t);
    assert s'.queue[c][|s.queue[c]|] == t;
    forall u | u in s'.act
      ensures ActivityOk(s', u)
    {
      assert ActivityOk(s, u);
    }
    forall d | d in s'.queue
      ensures QueueOk(s', d)
    {
      assert QueueOk(s, d) && t !in s.queue[d];
    }
  }

  lemma WaitGood<T, M, C>(s: State<T, M, C>, t: T, c: C, m: M, pr: int, n: Option<T>)
    requires Good(s) && Enabled(s, Wait(t, c, m, pr, n))
    ensures Good(Next(s, Wait(t, c, m, pr, n)))
  {
    if s.w.mtx[m].owner == Some(t) { ReleaseGood(s, t, m, pr, n); }
    SleepGood(s.(w := GiveUp(s.w, t, m, pr, n)), t, c, m, DepthOf(s.w, t, m));
  }

  /** Waking the first k threads of a queue. */
  lemma AwakeGood<T, M, C>(s: State<T, M, C>, c: C, k: nat)
    requires Good(s) && c in s.queue && k <= |s.queue[c]|
    ensures Good(s.(act := Awake(s.act, s.queue[c][..k]), queue := s.queue[c := s.queue[c][k..]]))
  {
    var q := s.queue[c];
    var s' := s.(act := Awake(s.act, q[..k]), queue := s.queue[c := q[k..]]);
    assert QueueOk(s, c);
    assert q == q[..k] + q[k..];
    forall u | u in s'.act
      ensures ActivityOk(s', u)
    {
      assert ActivityOk(s, u);
      if u in q { assert u in q[..k] || u in q[k..]; }
    }
    forall d | d in s'.queue
      ensures QueueOk(s', d)
    {
      assert QueueOk(s, d);
      if d == c { DistinctParts(q, k); }
    }
  }

  lemma DistinctParts<A>(q: seq<A>, k: nat)
    requires Distinct(q) && k <= |q|
    ensures Distinct(q[k..]) && forall x :: x in q[..k] ==> x !in q[k..]
  {
  }

  lemma SignalGood<T, M, C>(s: State<T, M, C>, c: C)
    requires Good(s) && c in s.queue
    ensures Good(Next(s, Signal(c))) && Good(Next(s, Broadcast(c)))
  {
    var q := s.queue[c];
    AwakeGood(s, c, |q|);
    assert q[..|q|] == q && q[|q|..] == [];
    if q != [] { AwakeGood(s, c, 1); }
  }

  lemma RelockGood<T, M, C>(s: State<T, M, C>, t: T)
    requires Good(s) && Enabled(s, Relock(t))
    ensures Good(Next(s, Relock(t)))
  {
    assert ActivityOk(s, t);
    var m := s.act[t].m;
    if s.w.mtx[m].owner.None? {
      TakeGood(s, t, m);
      if s.w.mtx[m].depth >= 0 { DepthGood(s.(w := Take(s.w, t, m), act := s.act[t := Runs]), t, m, s.act[t].depth); }
    } else {
      BlockGood(s, t, m, Some(s.act[t].depth));
    }
  }

  lemma SetPriorityGood<T, M, C>(s: State<T, M, C>, t: T, v: int, pr: int)
    requires Good(s) && Enabled(s, SetPriority(t, v, pr))
    ensures Good(Next(s, SetPriority(t, v, pr)))
  {
    var s' := s.(w := Reprioritize(s.w, t, v, pr));
    ReprioritizeInv(s.w, t, v, pr);
    forall u | u in s'.act
      ensures ActivityOk(s', u)
    {
      assert ActivityOk(s, u);
    }
    forall c | c in s'.queue
      ensures QueueOk(s', c)
    {
      assert QueueOk(s, c);
    }
  }

  /** Every step of every thread keeps the state good. */
  lemma StepGood<T, M, C>(s: State<T, M, C>, a: Action<T, M, C>)
    requires Good(s) && Enabled(s, a)
    ensures Good(Next(s, a))
  {
    match a
    case Lock(t, m) => LockGood(s, t, m);
    case TryLock(t, m) => if MayGrab(s.w, t, m) { GrabGood(s, t, m); }
    case LockReturn(t) => LockReturnGood(s, t);
    case Unlock(t, m, pr, n) => UnlockGood(s, t, m, pr, n);
    case Wait(t, c, m, pr, n) => WaitGood(s, t, c, m, pr, n);
    case Signal(c) => SignalGood(s, c);
    case Broadcast(c) => SignalGood(s, c);
    case Relock(t) => RelockGood(s, t);
    case SetPriority(t, v, pr) => SetPriorityGood(s, t, v, pr);
  }

  // ----- all runs

  /** The actions can be taken one after the other. */
  ghost predicate Possible<T, M, C>(s: State<T, M, C>, run: seq<Action<T, M, C>>)
    requires Good(s)
    decreases |run|
  {
    run == [] || (Enabled(s, run[0]) && (StepGood(s, run[0]); Possible(Next(s, run[0]), run[1..])))
  }

  /** The state at the end of a run, which is good like every state on the way. */
  ghost function After<T, M, C>(s: State<T, M, C>, run: seq<Action<T, M, C>>): (r: State<T, M, C>)
    requires Good(s) && Possible(s, run)
    ensures Good(r)
    decreases |run|
  {
    if run == [] then s else StepGood(s, run[0]); After(Next(s, run[0]), run[1..])
  }

  /** Nobody has locked anything, so nobody waits. */
  lemma InitialGood<T, M, C>(s: State<T, M, C>)
    requires s.act.Keys == s.w.thr.Keys && (forall t :: t in s.act ==> s.act[t] == Runs)
    requires forall t :: t in s.w.thr ==> s.w.thr[t].held == [] && s.w.thr[t].waitsFor.None?
    requires forall m :: m in s.w.mtx ==> s.w.mtx[m].owner.None? && s.w.mtx[m].waiting == {} && -1 <= s.w.mtx[m].depth <= 0
    requires forall c :: c in s.queue ==> s.queue[c] == []
    ensures Good(s) && Exact(s.w)
  {
    assert Links(s.w);
    forall t | t in s.w.thr
      ensures exists n :: Ends(s.w, t, n)
    {
      assert Ends(s.w, t, 0);
    }
  }

  // ----- exact inheritance along a run

  /** The mutex that a step makes its thread wait for. */
  ghost function BlocksOn<T, M, C>(s: State<T, M, C>, a: Action<T, M, C>): Option<(T, M)>
    requires Good(s) && Enabled(s, a)
  {
    match a
    case Lock(t, m) => if MayGrab(s.w, t, m) then None else Some((t, m))
    case Relock(t) => if s.w.mtx[s.act[t].m].owner.None? then None else Some((t, s.act[t].m))
    case _ => None
  }

  /** Nobody the owner of m waits for is above t, unless the owner is no lower than t itself. */
  ghost predicate ChainLow<T, M>(w: World<T, M>, t: T, m: M)
    requires Inv(w) && MayWait(w, t, m)
  {
    var o := w.mtx[m].owner.value;
    w.thr[o].pri >= w.thr[t].pri || forall c :: c in Chain(w, o) ==> c in w.thr && w.thr[c].pri <= w.thr[t].pri
  }

  /**
   * A thread back from a condition can take its mutex again, or wait for it, if and only if
   * waiting closes no cycle: it is not in the chain of the owner.
   */
  lemma RelockIff<T, M, C>(s: State<T, M, C>, t: T)
    requires Good(s) && t in s.act && s.act[t].Woken?
    ensures var m := s.act[t].m;
      && Running(s.w, t) && m in s.w.mtx
      && (s.w.mtx[m].owner.Some? ==>
            && s.w.mtx[m].owner.value in s.w.thr && Links(Enqueue(s.w, t, m))
            && (Acyclic(Enqueue(s.w, t, m)) <==> t !in Chain(s.w, s.w.mtx[m].owner.value)))
      && (Enabled(s, Relock(t)) <==> s.w.mtx[m].owner.None? || t !in Chain(s.w, s.w.mtx[m].owner.value))
  {
    assert ActivityOk(s, t);
    var m := s.act[t].m;
    if s.w.mtx[m].owner.Some? { WaitClosesCycleIff(s.w, t, m); }
  }

  lemma RelockWaits<T, M, C>(s: State<T, M, C>, t: T)
    requires Good(s) && Enabled(s, Relock(t))
    ensures s.act[t].m in s.w.mtx
    ensures s.w.mtx[s.act[t].m].owner.None? || MayWait(s.w, t, s.act[t].m)
  {
    assert ActivityOk(s, t);
  }

  lemma BlocksMayWait<T, M, C>(s: State<T, M, C>, a: Action<T, M, C>)
    requires Good(s) && Enabled(s, a) && BlocksOn(s, a).Some?
    ensures var b := BlocksOn(s, a).value; MayWait(s.w, b.0, b.1) && Next(s, a).w == Block(s.w, b.0, b.1)
  {
    if a.Relock? { RelockWaits(s, a.t); }
  }

  lemma GiveUpExact<T, M>(w: World<T, M>, t: T, m: M, pr: int, n: Option<T>, r: World<T, M>)
    requires Inv(w) && Exact(w) && MayGiveUp(w, t, m, pr, n) && r == GiveUp(w, t, m, pr, n)
    ensures Inv(r) && Exact(r)
  {
    if w.mtx[m].owner == Some(t) { ReleaseInv(w, t, m, pr, n); }
  }

  lemma RestoredExact<T, M>(w: World<T, M>, m: M, depth: nat, r: World<T, M>)
    requires Inv(w) && Exact(w) && m in w.mtx && w.mtx[m].owner.Some? && r == Restored(w, m, depth)
    ensures Inv(r) && Exact(r)
  {
    if w.mtx[m].depth >= 0 { DepthExact(w, m, depth, r); }
  }

  lemma GrabExact<T, M>(w: World<T, M>, t: T, m: M, r: World<T, M>)
    requires Inv(w) && Exact(w) && Running(w, t) && m in w.mtx && MayGrab(w, t, m) && r == Grab(w, t, m)
    ensures Inv(r) && Exact(r)
  {
    if w.mtx[m].owner.None? { TakenExact(w, t, m, r); } else { DepthExact(w, m, w.mtx[m].depth + 1, r); }
  }

  lemma TakenExact<T, M>(w: World<T, M>, t: T, m: M, r: World<T, M>)
    requires Inv(w) && Exact(w) && Running(w, t) && m in w.mtx && w.mtx[m].owner.None? && r == Take(w, t, m)
    ensures Inv(r) && Exact(r)
  {
    TakeExact(w, t, m);
  }

  lemma DepthExact<T, M>(w: World<T, M>, m: M, depth: int, r: World<T, M>)
    requires Inv(w) && Exact(w) && m in w.mtx && w.mtx[m].owner.Some? && depth >= -1 && r == SetDepth(w, m, depth)
    ensures Inv(r) && Exact(r)
  {
    SetDepthInv(w, m, depth);
  }

  /** A step that makes nobody wait keeps inheritance exact. */
  lemma FreeStepExact<T, M, C>(s: State<T, M, C>, a: Action<T, M, C>, r: World<T, M>)
    requires Good(s) && Exact(s.w) && Enabled(s, a) && BlocksOn(s, a).None? && r == Next(s, a).w
    ensures Inv(r) && Exact(r)
  {
    match a
    case Lock(t, m) =>
      RunningThread(s, t);
      GrabExact(s.w, t, m, r);
    case TryLock(t, m) =>
      RunningThread(s, t);
      if MayGrab(s.w, t, m) { GrabExact(s.w, t, m, r); }
    case LockReturn(t) => if s.act[t].restore.Some? { RestoredExact(s.w, s.act[t].m, s.act[t].restore.value, r); }
    case Unlock(t, m, pr, n) => UnlockExact(s.w, t, m, pr, n, r);
    case Wait(t, c, m, pr, n) => GiveUpExact(s.w, t, m, pr, n, r);
    case Signal(_) =>
    case Broadcast(_) =>
    case Relock(t) =>
      RunningThread(s, t);
      TakeExact(s.w, t, s.act[t].m);
      RestoredExact(Take(s.w, t, s.act[t].m), s.act[t].m, s.act[t].depth, r);
    case SetPriority(t, v, pr) =>
      RunningThread(s, t);
      ReprioritizeExact(s.w, t, v, pr);
  }

  lemma UnlockExact<T, M>(w: World<T, M>, t: T, m: M, pr: int, n: Option<T>, r: World<T, M>)
    requires Inv(w) && Exact(w) && m in w.mtx && (LockedAgain(w, t, m) || MayGiveUp(w, t, m, pr, n))
    requires r == if LockedAgain(w, t, m) then SetDepth(w, m, w.mtx[m].depth - 1) else GiveUp(w, t, m, pr, n)
    ensures Inv(r) && Exact(r)
  {
    if LockedAgain(w, t, m) {
      DepthExact(w, m, w.mtx[m].depth - 1, r);
    } else {
      GiveUpExact(w, t, m, pr, n, r);
    }
  }

  /** A step keeps inheritance exact if and only if it does not block above a higher thread further down the chain. */
  lemma StepExactIff<T, M, C>(s: State<T, M, C>, a: Action<T, M, C>)
    requires Good(s) && Exact(s.w) && Enabled(s, a)
    ensures Good(Next(s, a))
    ensures BlocksOn(s, a).None? ==> Exact(Next(s, a).w)
    ensures BlocksOn(s, a).Some? ==>
      var b := BlocksOn(s, a).value;
      MayWait(s.w, b.0, b.1) && (Exact(Next(s, a).w) <==> ChainLow(s.w, b.0, b.1))
  {
    StepGood(s, a);
    if BlocksOn(s, a).None? {
      FreeStepExact(s, a, Next(s, a).w);
    } else {
      BlocksMayWait(s, a);
      BlockExactIff(s.w, BlocksOn(s, a).value.0, BlocksOn(s, a).value.1);
    }
  }

  /** Every step of the run that makes a thread wait meets ChainLow. */
  ghost predicate AllChainsLow<T, M, C>(s: State<T, M, C>, run: seq<Action<T, M, C>>)
    requires Good(s) && Possible(s, run)
    decreases |run|
  {
    run == [] ||
    (StepGood(s, run[0]);
     && (BlocksOn(s, run[0]).Some? ==>
           (BlocksMayWait(s, run[0]); ChainLow(s.w, BlocksOn(s, run[0]).value.0, BlocksOn(s, run[0]).value.1)))
     && AllChainsLow(Next(s, run[0]), run[1..]))
  }

  /** Along any run whose waits meet ChainLow inheritance stays exact. */
  lemma {:induction false} RunExact<T, M, C>(s: State<T, M, C>, run: seq<Action<T, M, C>>)
    requires Good(s) && Exact(s.w) && Possible(s, run) && AllChainsLow(s, run)
    ensures Exact(After(s, run).w)
    decreases |run|
  {
    if run == [] {
    } else {
      StepExactIff(s, run[0]);
      RunExact(Next(s, run[0]), run[1..]);
    }
  }

  /** So no thread is ever waiting, directly or not, for one of lower priority. */
  lemma NobodyInverted<T, M, C>(s: State<T, M, C>, run: seq<Action<T, M, C>>, t: T, c: T)
    requires Good(s) && Exact(s.w) && Possible(s, run) && AllChainsLow(s, run)
    requires t in After(s, run).w.thr && c in Chain(After(s, run).w, t)
    ensures var w := After(s, run).w; c in w.thr && w.thr[t].pri <= w.thr[c].pri
  {
    RunExact(s, run);
    var w := After(s, run).w;
    var n: nat :| Ends(w, t, n);
    NoInversion(w, t, n, c);
  }

  // ----- waiting on a condition

  /** t is somewhere between giving m up to wait on a condition and having it back. */
  ghost predicate Away<T, M, C>(s: State<T, M, C>, t: T, m: M, depth: nat)
  {
    t in s.act && match s.act[t]
      case Runs => false
      case Locking(k, r) => k == m && r == Some(depth)
      case Sleeping(_, k, d) => k == m && d == depth
      case Woken(k, d) => k == m && d == depth
  }

  /** t runs, owns m, and m is at the given depth if it is recursive. */
  ghost predicate Back<T, M, C>(s: State<T, M, C>, t: T, m: M, depth: nat)
  {
    IsRunning(s, t) && OwnedBy(s.w, m, t) && (s.w.mtx[m].depth >= 0 ==> s.w.mtx[m].depth == depth)
  }

  /** No step makes a mutex recursive, or makes it cease to be. */
  lemma RecursiveForever<T, M, C>(s: State<T, M, C>, a: Action<T, M, C>, m: M)
    requires Good(s) && Enabled(s, a) && m in s.w.mtx
    ensures m in Next(s, a).w.mtx && (Next(s, a).w.mtx[m].depth >= 0 <==> s.w.mtx[m].depth >= 0)
  {
    match a
    case Unlock(_, _, _, _) => KindAfterLeaving(s, a, m);
    case Wait(_, _, _, _, _) => KindAfterLeaving(s, a, m);
    case Relock(t) => KindAfterRelock(s, t, m);
    case _ => KindAfterOther(s, a, m);
  }

  lemma KindAfterLeaving<T, M, C>(s: State<T, M, C>, a: Action<T, M, C>, m: M)
    requires Good(s) && Enabled(s, a) && m in s.w.mtx && (a.Unlock? || a.Wait?)
    ensures m in Next(s, a).w.mtx && (Next(s, a).w.mtx[m].depth >= 0 <==> s.w.mtx[m].depth >= 0)
  {
    if a.Wait? || !LockedAgain(s.w, a.t, a.m) { KindAfterGiveUp(s.w, a.t, a.m, a.pr, a.n, m); }
  }

  lemma KindAfterOther<T, M, C>(s: State<T, M, C>, a: Action<T, M, C>, m: M)
    requires Good(s) && Enabled(s, a) && m in s.w.mtx && !a.Unlock? && !a.Wait? && !a.Relock?
    ensures m in Next(s, a).w.mtx && (Next(s, a).w.mtx[m].depth >= 0 <==> s.w.mtx[m].depth >= 0)
  {
    if a.Lock? && !MayGrab(s.w, a.t, a.m) { KindAfterBlock(s.w, a.t, a.m, m); }
    if a.LockReturn? && s.act[a.t].restore.Some? { KindAfterRestore(s.w, s.act[a.t].m, s.act[a.t].restore.value, m); }
  }

  lemma KindAfterRelock<T, M, C>(s: State<T, M, C>, t: T, m: M)
    requires Good(s) && Enabled(s, Relock(t)) && m in s.w.mtx
    ensures var r := Next(s, Relock(t)); m in r.w.mtx && (r.w.mtx[m].depth >= 0 <==> s.w.mtx[m].depth >= 0)
  {
    RelockWaits(s, t);
    var k := s.act[t].m;
    if s.w.mtx[k].owner.None? {
      KindAfterRestore(Take(s.w, t, k), k, s.act[t].depth, m);
    } else {
      KindAfterBlock(s.w, t, k, m);
    }
  }

  lemma KindAfterBlock<T, M>(w: World<T, M>, t: T, m: M, k: M)
    requires Inv(w) && MayWait(w, t, m) && k in w.mtx
    ensures k in Block(w, t, m).mtx && Block(w, t, m).mtx[k].depth == w.mtx[k].depth
  {
  }

  lemma KindAfterRestore<T, M>(w: World<T, M>, m: M, depth: nat, k: M)
    requires m in w.mtx && k in w.mtx
    ensures k in Restored(w, m, depth).mtx && (Restored(w, m, depth).mtx[k].depth >= 0 <==> w.mtx[k].depth >= 0)
  {
  }

  lemma KindAfterGiveUp<T, M>(w: World<T, M>, t: T, m: M, pr: int, n: Option<T>, k: M)
    requires MayGiveUp(w, t, m, pr, n) && k in w.mtx
    ensures k in GiveUp(w, t, m, pr, n).mtx && (GiveUp(w, t, m, pr, n).mtx[k].depth >= 0 <==> w.mtx[k].depth >= 0)
  {
  }

  lemma AwayStep<T, M, C>(s: State<T, M, C>, a: Action<T, M, C>, t: T, m: M, depth: nat)
    requires Good(s) && Enabled(s, a) && Away(s, t, m, depth)
    ensures Away(Next(s, a), t, m, depth) || Back(Next(s, a), t, m, depth)
  {
    if a == LockReturn(t) {
      assert ActivityOk(s, t);
    } else if a == Relock(t) {
      RelockWaits(s, t);
    } else {
      AwayMeanwhile(s, a, t, m, depth);
    }
  }

  /** Other threads, and being woken, do not change what t comes back to. */
  lemma AwayMeanwhile<T, M, C>(s: State<T, M, C>, a: Action<T, M, C>, t: T, m: M, depth: nat)
    requires Good(s) && Enabled(s, a) && Away(s, t, m, depth) && a != LockReturn(t) && a != Relock(t)
    ensures Away(Next(s, a), t, m, depth)
  {
  }

  /** At the end of the run t runs, for the first time. */
  ghost predicate ReturnsAtEnd<T, M, C>(s: State<T, M, C>, run: seq<Action<T, M, C>>, t: T)
    requires Good(s) && Possible(s, run)
    decreases |run|
  {
    if run == [] then IsRunning(s, t)
    else !IsRunning(s, t) && (StepGood(s, run[0]); ReturnsAtEnd(Next(s, run[0]), run[1..], t))
  }

  lemma {:induction false} AwayUntilBack<T, M, C>(s: State<T, M, C>, run: seq<Action<T, M, C>>, t: T, m: M, depth: nat)
    requires Good(s) && Possible(s, run) && ReturnsAtEnd(s, run, t)
    requires Away(s, t, m, depth) || Back(s, t, m, depth)
    requires m in s.w.mtx
    ensures Back(After(s, run), t, m, depth)
    ensures m in After(s, run).w.mtx && (After(s, run).w.mtx[m].depth >= 0 <==> s.w.mtx[m].depth >= 0)
    decreases |run|
  {
    if run != [] {
      StepGood(s, run[0]);
      AwayStep(s, run[0], t, m, depth);
      RecursiveForever(s, run[0], m);
      AwayUntilBack(Next(s, run[0]), run[1..], t, m, depth);
    }
  }

  /** Whatever happens in between, a wait on a condition returns owning the mutex as deeply as before. */
  lemma ConditionWaitRestores<T, M, C>(s: State<T, M, C>, t: T, c: C, m: M, pr: int, n: Option<T>, run: seq<Action<T, M, C>>)
    requires Good(s) && Enabled(s, Wait(t, c, m, pr, n)) && OwnedBy(s.w, m, t)
    requires Good(Next(s, Wait(t, c, m, pr, n))) && Possible(Next(s, Wait(t, c, m, pr, n)), run)
    requires ReturnsAtEnd(Next(s, Wait(t, c, m, pr, n)), run, t)
    ensures var r := After(Next(s, Wait(t, c, m, pr, n)), run);
      OwnedBy(r.w, m, t) && r.w.mtx[m].depth == s.w.mtx[m].depth
  {
    var a := Wait(t, c, m, pr, n);
    var d := DepthOf(s.w, t, m);
    RecursiveForever(s, a, m);
    AwayUntilBack(Next(s, a), run, t, m, d);
    var r := After(Next(s, a), run);
    assert MutexLinks(s.w, m) && MutexLinks(r.w, m);
  }
}
