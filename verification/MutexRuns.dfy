// What can go wrong between threads and mutexes, as states and runs of the protocol.

module MutexRuns {
  import opened Common
  import opened Inheritance
  import opened MutexProtocol

  /** One step, and then a run, are a run. */
  lemma StepThenRun<T, M, C>(s: State<T, M, C>, a: Action<T, M, C>, run: seq<Action<T, M, C>>)
    requires Good(s) && Enabled(s, a) && Good(Next(s, a)) && Possible(Next(s, a), run)
    ensures Possible(s, [a] + run) && After(s, [a] + run) == After(Next(s, a), run)
  {
    assert ([a] + run)[1..] == run;
  }

  /** A thread at its own priority, with the mutexes it holds. */
  function Having<M>(pri: int, held: seq<M>): ThreadState<M>
  {
    ThreadState(pri, pri, held, None)
  }

  /** Three threads, two mutexes that are not recursive, and no condition. */
  ghost predicate Threads<T, M, C>(s: State<T, M, C>, c: T, o: T, p: T, tc: ThreadState<M>, to: ThreadState<M>, tp: ThreadState<M>,
                                   m1: M, m2: M, s1: MutexState<T>, s2: MutexState<T>, ao: Activity<M, C>)
  {
    && s.w.thr.Keys == {c, o, p} && s.w.thr[c] == tc && s.w.thr[o] == to && s.w.thr[p] == tp
    && s.w.mtx.Keys == {m1, m2} && s.w.mtx[m1] == s1 && s.w.mtx[m2] == s2
    && s.act.Keys == {c, o, p} && s.act[c] == Runs && s.act[o] == ao && s.act[p] == Runs && s.queue == map[]
  }

  /** Nobody has locked anything. */
  ghost predicate Fresh<T, M, C>(s: State<T, M, C>, c: T, o: T, p: T, m1: M, m2: M, high: int, low: int, mid: int)
  {
    Threads(s, c, o, p, Having(high, []), Having(low, []), Having(mid, []), m1, m2, MutexState(None, {}, -1), MutexState(None, {}, -1), Runs)
  }

  ghost predicate AllDifferent<T, M>(c: T, o: T, p: T, m1: M, m2: M)
  {
    c != o && c != p && o != p && m1 != m2
  }

  lemma FirstLock<T, M, C>(s: State<T, M, C>, c: T, o: T, p: T, m1: M, m2: M, high: int, low: int, mid: int)
    requires AllDifferent(c, o, p, m1, m2) && Fresh(s, c, o, p, m1, m2, high, low, mid)
    ensures Good(s) && Exact(s.w) && Enabled(s, Lock(c, m2)) && BlocksOn(s, Lock(c, m2)).None?
    ensures Threads(Next(s, Lock(c, m2)), c, o, p, Having(high, [m2]), Having(low, []), Having(mid, []), m1, m2,
      MutexState(None, {}, -1), MutexState(Some(c), {}, -1), Runs)
  {
    InitialGood(s);
    assert [m2] + s.w.thr[c].held == [m2];
  }

  lemma SecondLock<T, M, C>(s: State<T, M, C>, c: T, o: T, p: T, m1: M, m2: M, high: int, low: int, mid: int)
    requires AllDifferent(c, o, p, m1, m2) && Good(s)
    requires Threads(s, c, o, p, Having(high, [m2]), Having(low, []), Having(mid, []), m1, m2,
      MutexState(None, {}, -1), MutexState(Some(c), {}, -1), Runs)
    ensures Enabled(s, Lock(o, m1)) && BlocksOn(s, Lock(o, m1)).None?
    ensures Threads(Next(s, Lock(o, m1)), c, o, p, Having(high, [m2]), Having(low, [m1]), Having(mid, []), m1, m2,
      MutexState(Some(o), {}, -1), MutexState(Some(c), {}, -1), Runs)
  {
    assert [m1] + s.w.thr[o].held == [m1];
  }

  lemma FirstWait<T, M, C>(s: State<T, M, C>, c: T, o: T, p: T, m1: M, m2: M, high: int, low: int, mid: int)
    requires AllDifferent(c, o, p, m1, m2) && Good(s) && low < high
    requires Threads(s, c, o, p, Having(high, [m2]), Having(low, [m1]), Having(mid, []), m1, m2,
      MutexState(Some(o), {}, -1), MutexState(Some(c), {}, -1), Runs)
    ensures Enabled(s, Lock(o, m2)) && BlocksOn(s, Lock(o, m2)) == Some((o, m2))
    ensures MayWait(s.w, o, m2) && ChainLow(s.w, o, m2)
    ensures Threads(Next(s, Lock(o, m2)), c, o, p, Having(high, [m2]), Having(low, [m1]).(waitsFor := Some(m2)), Having(mid, []), m1, m2,
      MutexState(Some(o), {}, -1), MutexState(Some(c), {o}, -1), Locking(m2, None))
  {
    assert Blocker(s.w, c) == None;
    ChainUnfolds(s.w, c);
    assert s.w.mtx[m2].waiting + {o} == {o};
  }

  lemma SecondWait<T, M, C>(s: State<T, M, C>, c: T, o: T, p: T, m1: M, m2: M, high: int, low: int, mid: int)
    requires AllDifferent(c, o, p, m1, m2) && Good(s) && low < mid < high
    requires Threads(s, c, o, p, Having(high, [m2]), Having(low, [m1]).(waitsFor := Some(m2)), Having(mid, []), m1, m2,
      MutexState(Some(o), {}, -1), MutexState(Some(c), {o}, -1), Locking(m2, None))
    ensures Enabled(s, Lock(p, m1)) && BlocksOn(s, Lock(p, m1)) == Some((p, m1))
    ensures MayWait(s.w, p, m1) && !ChainLow(s.w, p, m1)
    ensures var r := Next(s, Lock(p, m1)); r.act[c] == Runs && r.w.thr[c] == Having(high, [m2]).(pri := mid)
  {
    assert Blocker(s.w, c) == None && Blocker(s.w, o) == Some(c);
    ChainUnfolds(s.w, o);
    ChainUnfolds(s.w, c);
  }

  /**
   * From a state in which nobody has locked anything: c locks m2, o locks m1 and waits for m2, and
   * p, which is between them, locks m1. The walk lowers c, which holds m2, to the priority of p.
   */
  lemma InheritanceLowers<T, M, C>(s: State<T, M, C>, c: T, o: T, p: T, m1: M, m2: M, high: int, low: int, mid: int)
    returns (run: seq<Action<T, M, C>>)
    requires c != o && c != p && o != p && m1 != m2 && low < mid < high
    requires Fresh(s, c, o, p, m1, m2, high, low, mid)
    ensures Good(s) && Exact(s.w) && Possible(s, run)
    ensures |run| == 4
    ensures var r := After(s, run);
      && c in r.act && r.act[c].Runs? && c in r.w.thr && r.w.thr[c].saved == high && r.w.thr[c].pri == mid && r.w.thr[c].held == [m2]
      && !Exact(r.w)
  {
    FirstLock(s, c, o, p, m1, m2, high, low, mid);
    StepExactIff(s, Lock(c, m2));
    var s1 := Next(s, Lock(c, m2));
    SecondLock(s1, c, o, p, m1, m2, high, low, mid);
    StepExactIff(s1, Lock(o, m1));
    var s2 := Next(s1, Lock(o, m1));
    FirstWait(s2, c, o, p, m1, m2, high, low, mid);
    StepExactIff(s2, Lock(o, m2));
    var s3 := Next(s2, Lock(o, m2));
    SecondWait(s3, c, o, p, m1, m2, high, low, mid);
    StepExactIff(s3, Lock(p, m1));
    StepThenRun(s3, Lock(p, m1), []);
    StepThenRun(s2, Lock(o, m2), [Lock(p, m1)] + []);
    StepThenRun(s1, Lock(o, m1), [Lock(o, m2)] + ([Lock(p, m1)] + []));
    StepThenRun(s, Lock(c, m2), [Lock(o, m1)] + ([Lock(o, m2)] + ([Lock(p, m1)] + [])));
    run := [Lock(c, m2)] + ([Lock(o, m1)] + ([Lock(o, m2)] + ([Lock(p, m1)] + [])));
  }

  // ----- a deadlock after a condition

  /** Two threads, two mutexes that are not recursive, and a condition on which the threads of q wait. */
  ghost predicate Two<T, M, C>(s: State<T, M, C>, t: T, o: T, m: M, k: M, c: C, wt: ThreadState<M>, wo: ThreadState<M>,
                               sm: MutexState<T>, sk: MutexState<T>, at: Activity<M, C>, ao: Activity<M, C>, q: seq<T>)
  {
    && t != o && m != k
    && s.w.thr.Keys == {t, o} && s.w.thr[t] == wt && s.w.thr[o] == wo
    && s.w.mtx.Keys == {m, k} && s.w.mtx[m] == sm && s.w.mtx[k] == sk
    && s.act.Keys == {t, o} && s.act[t] == at && s.act[o] == ao && s.queue.Keys == {c} && s.queue[c] == q
  }

  function Plain<T>(owner: Option<T>): MutexState<T>
  {
    MutexState(owner, {}, -1)
  }

  /** Nobody has locked anything. */
  ghost predicate FreshTwo<T, M, C>(s: State<T, M, C>, t: T, o: T, m: M, k: M, c: C, pri: int)
  {
    Two(s, t, o, m, k, c, Having(pri, []), Having(pri, []), Plain(None), Plain(None), Runs, Runs, [])
  }

  lemma TakesFirst<T, M, C>(s: State<T, M, C>, t: T, o: T, m: M, k: M, c: C, pri: int)
    requires FreshTwo(s, t, o, m, k, c, pri)
    ensures Good(s) && Enabled(s, Lock(t, k)) && Good(Next(s, Lock(t, k)))
    ensures Two(Next(s, Lock(t, k)), t, o, m, k, c, Having(pri, [k]), Having(pri, []), Plain(None), Plain(Some(t)), Runs, Runs, [])
  {
    InitialGood(s);
    StepGood(s, Lock(t, k));
    assert [k] + s.w.thr[t].held == [k];
  }

  lemma TakesSecond<T, M, C>(s: State<T, M, C>, t: T, o: T, m: M, k: M, c: C, pri: int)
    requires Good(s) && Two(s, t, o, m, k, c, Having(pri, [k]), Having(pri, []), Plain(None), Plain(Some(t)), Runs, Runs, [])
    ensures Enabled(s, Lock(t, m)) && Good(Next(s, Lock(t, m)))
    ensures Two(Next(s, Lock(t, m)), t, o, m, k, c, Having(pri, [m, k]), Having(pri, []), Plain(Some(t)), Plain(Some(t)), Runs, Runs, [])
  {
    StepGood(s, Lock(t, m));
    assert [m] + s.w.thr[t].held == [m, k];
  }

  lemma GoesToWait<T, M, C>(s: State<T, M, C>, t: T, o: T, m: M, k: M, c: C, pri: int)
    requires Good(s) && Two(s, t, o, m, k, c, Having(pri, [m, k]), Having(pri, []), Plain(Some(t)), Plain(Some(t)), Runs, Runs, [])
    ensures Enabled(s, Wait(t, c, m, pri, None)) && Good(Next(s, Wait(t, c, m, pri, None)))
    ensures Two(Next(s, Wait(t, c, m, pri, None)), t, o, m, k, c, Having(pri, [k]), Having(pri, []), Plain(None), Plain(Some(t)),
      Sleeping(c, m, 0), Runs, [t])
  {
    KeepsSecond(m, k);
    assert Releases(s.w, t, m, pri, None);
    StepGood(s, Wait(t, c, m, pri, None));
    assert [] + [t] == [t];
  }

  lemma KeepsSecond<M>(m: M, k: M)
    requires m != k
    ensures Without([m, k], m) == [k]
  {
    assert [m, k][1..] == [k] && [k][1..] == [];
    assert Without([k], m) == [k] + Without([], m);
  }

  lemma OtherTakes<T, M, C>(s: State<T, M, C>, t: T, o: T, m: M, k: M, c: C, pri: int)
    requires Good(s) && Two(s, t, o, m, k, c, Having(pri, [k]), Having(pri, []), Plain(None), Plain(Some(t)),
      Sleeping(c, m, 0), Runs, [t])
    ensures Enabled(s, Lock(o, m)) && Good(Next(s, Lock(o, m)))
    ensures Two(Next(s, Lock(o, m)), t, o, m, k, c, Having(pri, [k]), Having(pri, [m]), Plain(Some(o)), Plain(Some(t)),
      Sleeping(c, m, 0), Runs, [t])
  {
    StepGood(s, Lock(o, m));
    assert [m] + s.w.thr[o].held == [m];
  }

  lemma OtherBlocks<T, M, C>(s: State<T, M, C>, t: T, o: T, m: M, k: M, c: C, pri: int)
    requires Good(s) && Two(s, t, o, m, k, c, Having(pri, [k]), Having(pri, [m]), Plain(Some(o)), Plain(Some(t)),
      Sleeping(c, m, 0), Runs, [t])
    ensures Enabled(s, Lock(o, k)) && Good(Next(s, Lock(o, k)))
    ensures Two(Next(s, Lock(o, k)), t, o, m, k, c, Having(pri, [k]), Having(pri, [m]).(waitsFor := Some(k)), Plain(Some(o)),
      MutexState(Some(t), {o}, -1), Sleeping(c, m, 0), Locking(k, None), [t])
  {
    assert Blocker(s.w, t) == None;
    ChainUnfolds(s.w, t);
    assert s.w.mtx[k].waiting + {o} == {o};
    StepGood(s, Lock(o, k));
  }

  lemma IsWoken<T, M, C>(s: State<T, M, C>, t: T, o: T, m: M, k: M, c: C, pri: int)
    requires Good(s) && Two(s, t, o, m, k, c, Having(pri, [k]), Having(pri, [m]).(waitsFor := Some(k)), Plain(Some(o)),
      MutexState(Some(t), {o}, -1), Sleeping(c, m, 0), Locking(k, None), [t])
    ensures Enabled(s, Signal(c)) && Good(Next(s, Signal(c)))
    ensures Two(Next(s, Signal(c)), t, o, m, k, c, Having(pri, [k]), Having(pri, [m]).(waitsFor := Some(k)), Plain(Some(o)),
      MutexState(Some(t), {o}, -1), Woken(m, 0), Locking(k, None), [])
  {
    assert [t][..1] == [t] && [t][1..] == [];
    StepGood(s, Signal(c));
  }

  /** Taking m again would close a cycle: t holds k, for which the owner of m waits. */
  lemma CannotRelock<T, M, C>(s: State<T, M, C>, t: T, o: T, m: M, k: M, c: C, pri: int)
    requires Good(s) && Two(s, t, o, m, k, c, Having(pri, [k]), Having(pri, [m]).(waitsFor := Some(k)), Plain(Some(o)),
      MutexState(Some(t), {o}, -1), Woken(m, 0), Locking(k, None), [])
    ensures !Enabled(s, Relock(t)) && Links(Enqueue(s.w, t, m)) && !Acyclic(Enqueue(s.w, t, m))
  {
    RelockIff(s, t);
    assert Blocker(s.w, t) == None && Blocker(s.w, o) == Some(t);
    ChainUnfolds(s.w, o);
    ChainUnfolds(s.w, t);
  }

  /**
   * From fresh mutexes: t locks k and m and waits on a condition with m; o locks m and waits for k;
   * t is woken, and taking m again closes a cycle.
   */
  lemma WokenMayDeadlock<T, M, C>(s: State<T, M, C>, t: T, o: T, m: M, k: M, c: C, pri: int) returns (run: seq<Action<T, M, C>>)
    requires FreshTwo(s, t, o, m, k, c, pri)
    ensures Good(s) && |run| == 6 && Possible(s, run)
    ensures var r := After(s, run);
      && t in r.act && r.act[t] == Woken(m, 0) && t in r.w.thr && m in r.w.mtx && !Enabled(r, Relock(t))
      && Links(Enqueue(r.w, t, m)) && !Acyclic(Enqueue(r.w, t, m))
  {
    TakesFirst(s, t, o, m, k, c, pri);
    var s1 := Next(s, Lock(t, k));
    TakesSecond(s1, t, o, m, k, c, pri);
    var s2 := Next(s1, Lock(t, m));
    GoesToWait(s2, t, o, m, k, c, pri);
    var s3 := Next(s2, Wait(t, c, m, pri, None));
    run := WokenAfterWait(s3, t, o, m, k, c, pri);
    StepThenRun(s2, Wait(t, c, m, pri, None), run);
    run := [Wait(t, c, m, pri, None)] + run;
    StepThenRun(s1, Lock(t, m), run);
    run := [Lock(t, m)] + run;
    StepThenRun(s, Lock(t, k), run);
    run := [Lock(t, k)] + run;
  }

  lemma WokenAfterWait<T, M, C>(s: State<T, M, C>, t: T, o: T, m: M, k: M, c: C, pri: int) returns (run: seq<Action<T, M, C>>)
    requires Good(s) && Two(s, t, o, m, k, c, Having(pri, [k]), Having(pri, []), Plain(None), Plain(Some(t)),
      Sleeping(c, m, 0), Runs, [t])
    ensures |run| == 3 && Possible(s, run)
    ensures var r := After(s, run);
      && t in r.act && r.act[t] == Woken(m, 0) && t in r.w.thr && m in r.w.mtx && !Enabled(r, Relock(t))
      && Links(Enqueue(r.w, t, m)) && !Acyclic(Enqueue(r.w, t, m))
  {
    OtherTakes(s, t, o, m, k, c, pri);
    var s1 := Next(s, Lock(o, m));
    OtherBlocks(s1, t, o, m, k, c, pri);
    var s2 := Next(s1, Lock(o, k));
    IsWoken(s2, t, o, m, k, c, pri);
    var s3 := Next(s2, Signal(c));
    CannotRelock(s3, t, o, m, k, c, pri);
    StepThenRun(s2, Signal(c), []);
    StepThenRun(s1, Lock(o, k), [Signal(c)] + []);
    StepThenRun(s, Lock(o, m), [Lock(o, k)] + ([Signal(c)] + []));
    run := [Lock(o, m)] + ([Lock(o, k)] + ([Signal(c)] + []));
  }
}
