// The priorities of threads along a run: what inheritance borrows is given back in full
// when the last mutex is, and a thread is left at the priority that it asked for.

module PriorityHistory {
  import opened Common
  import opened Inheritance
  import opened MutexProtocol

  /** The last priority that t asked for in the run, or the one that it began with. */
  function Asked<T(==), M, C>(run: seq<Action<T, M, C>>, t: T, initial: int): int
  {
    if run == [] then initial
    else Asked(run[1..], t, if run[0].SetPriority? && run[0].t == t then run[0].v else initial)
  }

  /** own is the priority of t itself: its priority if it holds nothing, or else the one that it has saved. */
  ghost predicate Owns<T, M>(w: World<T, M>, t: T, own: int)
  {
    t in w.thr && own == if w.thr[t].held == [] then w.thr[t].pri else w.thr[t].saved
  }

  // ----- what the operations do to it

  lemma TakeOwns<T, M>(w: World<T, M>, p: T, m: M, t: T, own: int)
    requires p in w.thr && m in w.mtx && Owns(w, t, own)
    ensures Owns(Take(w, p, m), t, own)
  {
  }

  /** Only threads that hold a mutex are raised. */
  lemma ChainHolds<T, M>(w: World<T, M>, m: M, t: T)
    requires Inv(w) && m in w.mtx && w.mtx[m].owner.Some? && w.mtx[m].owner.value in w.thr && t in Chain(w, w.mtx[m].owner.value)
    ensures t in w.thr && w.thr[t].held != []
  {
    var o := w.mtx[m].owner.value;
    var n := SomeEnd(w, o);
    ChainFacts(w, o, n);
    assert MutexLinks(w, m);
    if t != o {
      var d :| d in Chain(w, o) && Blocker(w, d) == Some(t);
      BlockerKnown(w, d);
    }
  }

  lemma BlockOwns<T, M>(w: World<T, M>, p: T, m: M, t: T, own: int)
    requires Inv(w) && MayWait(w, p, m) && Owns(w, t, own)
    ensures Owns(Block(w, p, m), t, own)
  {
    if t in Chain(w, w.mtx[m].owner.value) { ChainHolds(w, m, t); }
  }

  lemma RestoredOwns<T, M>(w: World<T, M>, m: M, depth: nat, t: T, own: int)
    requires m in w.mtx && Owns(w, t, own)
    ensures Owns(Restored(w, m, depth), t, own)
  {
  }

  lemma ReleaseOwns<T, M>(w: World<T, M>, p: T, m: M, pr: int, n: Option<T>, t: T, own: int)
    requires Releases(w, p, m, pr, n) && Owns(w, t, own)
    ensures Owns(Release(w, p, m, pr, n), t, own)
  {
    assert MutexLinks(w, m);
  }

  lemma ReprioritizeOwns<T, M>(w: World<T, M>, p: T, v: int, pr: int, t: T, own: int)
    requires Inv(w) && p in w.thr && RequestedPriority(w, p, v, pr) && Owns(w, t, own)
    ensures Owns(Reprioritize(w, p, v, pr), t, if t == p then v else own)
  {
  }

  // ----- steps and runs

  lemma GiveUpOwns<T, M>(w: World<T, M>, p: T, m: M, pr: int, n: Option<T>, t: T, own: int)
    requires MayGiveUp(w, p, m, pr, n) && Owns(w, t, own)
    ensures Owns(GiveUp(w, p, m, pr, n), t, own)
  {
    if w.mtx[m].owner == Some(p) { ReleaseOwns(w, p, m, pr, n, t, own); }
  }

  lemma RelockOwns<T, M, C>(s: State<T, M, C>, p: T, t: T, own: int)
    requires Good(s) && Enabled(s, Relock(p)) && Owns(s.w, t, own)
    ensures Owns(Next(s, Relock(p)).w, t, own)
  {
    RelockWaits(s, p);
    var m := s.act[p].m;
    if s.w.mtx[m].owner.None? {
      TakeOwns(s.w, p, m, t, own);
      RestoredOwns(Take(s.w, p, m), m, s.act[p].depth, t, own);
    } else {
      BlockOwns(s.w, p, m, t, own);
    }
  }

  lemma LockOwns<T, M, C>(s: State<T, M, C>, p: T, m: M, t: T, own: int)
    requires Good(s) && Enabled(s, Lock(p, m)) && Owns(s.w, t, own)
    ensures Owns(Next(s, Lock(p, m)).w, t, own)
  {
    if !MayGrab(s.w, p, m) { BlockOwns(s.w, p, m, t, own); }
  }

  /** Only a request of t itself changes t's own priority. */
  lemma StepOwns<T, M, C>(s: State<T, M, C>, a: Action<T, M, C>, t: T, own: int)
    requires Good(s) && Enabled(s, a) && Owns(s.w, t, own)
    ensures Owns(Next(s, a).w, t, if a.SetPriority? && a.t == t then a.v else own)
  {
    match a
    case Lock(p, m) => LockOwns(s, p, m, t, own);
    case TryLock(_, _) =>
    case LockReturn(_) =>
    case Unlock(p, m, pr, n) => if !LockedAgain(s.w, p, m) { GiveUpOwns(s.w, p, m, pr, n, t, own); }
    case Wait(p, _, m, pr, n) => GiveUpOwns(s.w, p, m, pr, n, t, own);
    case Signal(_) =>
    case Broadcast(_) =>
    case Relock(p) => RelockOwns(s, p, t, own);
    case SetPriority(p, v, pr) => ReprioritizeOwns(s.w, p, v, pr, t, own);
  }

  /**
   * In every run: a thread that holds no mutex runs at the priority that it asked for last, whatever it
   * inherited before, and one that holds a mutex has that priority saved.
   */
  lemma {:induction false} RunGivesBack<T, M, C>(s: State<T, M, C>, run: seq<Action<T, M, C>>, t: T)
    requires Good(s) && Possible(s, run) && t in s.w.thr
    ensures var own := Asked(run, t, if s.w.thr[t].held == [] then s.w.thr[t].pri else s.w.thr[t].saved);
      var w := After(s, run).w;
      && t in w.thr
      && (w.thr[t].held == [] ==> w.thr[t].pri == own)
      && (w.thr[t].held != [] ==> w.thr[t].saved == own)
    decreases |run|
  {
    if run != [] {
      StepGood(s, run[0]);
      StepOwns(s, run[0], t, if s.w.thr[t].held == [] then s.w.thr[t].pri else s.w.thr[t].saved);
      RunGivesBack(Next(s, run[0]), run[1..], t);
    }
  }

  /**
   * From fresh mutexes, along any run whose waits meet ChainLow: every thread runs at the maximum of what
   * it asked for last and the priorities of the threads that wait for its mutexes. One that holds no
   * mutex runs at what it asked for, along any run.
   */
  lemma PriorityIsAskedOrInherited<T, M, C>(s: State<T, M, C>, run: seq<Action<T, M, C>>, t: T)
    requires Good(s) && Exact(s.w) && Possible(s, run) && t in s.w.thr && s.w.thr[t].held == []
    ensures var own := Asked(run, t, s.w.thr[t].pri);
      var w := After(s, run).w;
      && t in w.thr
      && (w.thr[t].held == [] ==> w.thr[t].pri == own)
      && (AllChainsLow(s, run) ==> Inherited(w, own, w.thr[t].held, w.thr[t].pri))
  {
    RunGivesBack(s, run, t);
    if AllChainsLow(s, run) {
      RunExact(s, run);
      assert ExactFor(After(s, run).w, t);
    }
  }
}
