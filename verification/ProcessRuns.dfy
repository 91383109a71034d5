// What can go wrong between threads and processes, as runs from the start of the system (process.cpp).

module ProcessRuns {
  import opened Common
  import opened ProcessTable
  import opened ProcessProtocol

  /** There is only the kernel, and nobody waits. */
  ghost predicate Initial<T>(s: State<T>)
  {
    && s.t == map[KERNEL := Process(KERNEL, [], [], 0, false, 0)] && s.waits == map[] && s.woken == {}
    && s.asleep == map[] && s.making == map[] && s.exited == multiset{} && s.reaped == multiset{}
  }

  lemma InitialGood<T>(s: State<T>)
    requires Initial(s)
    ensures Good(s) && SleepersOk(s)
  {
    assert Dead(s.t) == {};
    assert ListsOk(s.t, KERNEL);
  }

  /** One step, and then a run, are a run. */
  lemma StepThenRun<T>(s: State<T>, a: Action<T>, run: seq<Action<T>>)
    requires Good(s) && Enabled(s, a) && Sound(s, a) && Good(Next(s, a)) && Possible(Next(s, a), run)
    ensures Possible(s, [a] + run) && After(s, [a] + run) == After(Next(s, a), run)
  {
    assert ([a] + run)[1..] == run;
  }

  /** The kernel has one process, which is being created or runs. */
  ghost predicate OneChild<T>(s: State<T>, child: int, waiters: nat, making: map<int, int>)
  {
    && child != KERNEL && s.woken == {} && s.making == making && s.exited == multiset{} && s.reaped == multiset{}
    && s.t == map[KERNEL := Process(KERNEL, [child], [], 0, false, 0), child := Process(KERNEL, [], [], waiters, false, 0)]
  }

  lemma OneChildGood<T>(s: State<T>, child: int, waiters: nat, making: map<int, int>)
    requires OneChild(s, child, waiters, making) && (making == map[] || making == map[child := KERNEL])
    requires forall x :: x in s.waits ==> s.waits[x] == Wait(KERNEL, child)
    requires waiters == |Waiters(s.waits, child)|
    ensures Good(s)
  {
    OneChildInv(s.t, child, waiters);
    assert Dead(s.t) == {};
  }

  lemma OneChildInv(t: Table, child: int, waiters: nat)
    requires child != KERNEL
    requires t == map[KERNEL := Process(KERNEL, [child], [], 0, false, 0), child := Process(KERNEL, [], [], waiters, false, 0)]
    ensures Inv(t)
  {
    assert ListsOk(t, KERNEL) && ListsOk(t, child) && PlaceOk(t, child);
  }

  /** It happens: thread a sleeps for any child of the kernel, thread b waits for its only child, which ends. */
  lemma LastChildLeavesSleeper<T>(s: State<T>, a: T, b: T, child: int, code: int)
    requires a != b && OneChild(s, child, 1, map[])
    requires s.waits == map[b := Wait(KERNEL, child)] && s.asleep == map[a := KERNEL]
    ensures Good(s) && SleepersOk(s) && Enabled(s, End(child, code)) && !SleepersOk(Next(s, End(child, code)))
  {
    assert Waiters(s.waits, child) == {b};
    OneChildGood(s, child, 1, map[]);
    OnlyOne([child], child);
    assert s.t[child].childs + s.t[KERNEL].childs == [child];
    assert !KeepsReason(s.t, child, KERNEL);
    assert a in s.asleep && s.asleep[a] == KERNEL;
    SleepersOkIff(s, child, code);
  }

  /** Thread a sleeps for any child of the kernel, whose only one is given up. */
  lemma UndoLeavesSleeper<T>(s: State<T>, a: T, child: int)
    requires OneChild(s, child, 0, map[child := KERNEL]) && s.waits == map[] && s.asleep == map[a := KERNEL]
    ensures Good(s) && SleepersOk(s) && Enabled(s, Undo(child)) && Good(Next(s, Undo(child)))
    ensures !SleepersOk(Next(s, Undo(child)))
  {
    assert Waiters(s.waits, child) == {};
    OneChildGood(s, child, 0, map[child := KERNEL]);
    assert a in s.asleep && s.asleep[a] == KERNEL;
    SleepersOkAfterUndoIff(s, child);
    StepGoodIff(s, Undo(child));
  }

  /** Thread b waits for a process that is then given up: it is left with a process that is gone. */
  lemma UndoUnderWaiter<T>(s: State<T>, b: T, child: int)
    requires OneChild(s, child, 1, map[child := KERNEL])
    requires s.waits == map[b := Wait(KERNEL, child)] && s.asleep == map[]
    ensures Good(s) && Enabled(s, Undo(child)) && !Good(Next(s, Undo(child)))
    ensures child !in Next(s, Undo(child)).t && b in Next(s, Undo(child)).waits
  {
    assert Waiters(s.waits, child) == {b};
    OneChildGood(s, child, 1, map[child := KERNEL]);
    assert b in s.waits && s.waits[b].pid == child;
    StepGoodIff(s, Undo(child));
  }

  // ----- the states are reached

  lemma Forked<T>(s: State<T>, child: int)
    requires Initial(s) && child != KERNEL
    ensures Good(s) && Enabled(s, Fork(KERNEL, child)) && Good(Next(s, Fork(KERNEL, child)))
    ensures var r := Next(s, Fork(KERNEL, child));
      OneChild(r, child, 0, map[child := KERNEL]) && r.waits == map[] && r.asleep == map[]
  {
    InitialGood(s);
    StepGoodIff(s, Fork(KERNEL, child));
    assert [] + [child] == [child];
  }

  lemma Waited<T>(s: State<T>, b: T, child: int, making: map<int, int>)
    requires Good(s) && OneChild(s, child, 0, making) && s.waits == map[]
    ensures Enabled(s, WaitFor(b, KERNEL, child)) && Good(Next(s, WaitFor(b, KERNEL, child)))
    ensures var r := Next(s, WaitFor(b, KERNEL, child));
      OneChild(r, child, 1, making) && r.waits == map[b := Wait(KERNEL, child)] && r.asleep == s.asleep
  {
    StepGoodIff(s, WaitFor(b, KERNEL, child));
  }

  lemma Slept<T>(s: State<T>, a: T, child: int, waiters: nat, making: map<int, int>)
    requires Good(s) && OneChild(s, child, waiters, making) && s.asleep == map[]
    ensures Enabled(s, SleepForAny(a, KERNEL)) && Good(Next(s, SleepForAny(a, KERNEL)))
    ensures Next(s, SleepForAny(a, KERNEL)) == s.(asleep := map[a := KERNEL])
  {
    StepGoodIff(s, SleepForAny(a, KERNEL));
  }

  /** A process is created and given up while a thread sleeps for any child: nobody wakes it. */
  lemma SleeperStrandedByUndo<T>(s: State<T>, a: T, child: int) returns (run: seq<Action<T>>)
    requires Initial(s) && child != KERNEL
    ensures Good(s) && |run| == 3 && Possible(s, run) && !SleepersOk(After(s, run))
  {
    Forked(s, child);
    var s1 := Next(s, Fork(KERNEL, child));
    Slept(s1, a, child, 0, map[child := KERNEL]);
    var s2 := Next(s1, SleepForAny(a, KERNEL));
    UndoLeavesSleeper(s2, a, child);
    StepThenRun(s2, Undo(child), []);
    StepThenRun(s1, SleepForAny(a, KERNEL), [Undo(child)] + []);
    StepThenRun(s, Fork(KERNEL, child), [SleepForAny(a, KERNEL)] + ([Undo(child)] + []));
    run := [Fork(KERNEL, child)] + ([SleepForAny(a, KERNEL)] + ([Undo(child)] + []));
  }

  /** A process is created, and given up while a thread waits for it: the process is gone under the thread. */
  lemma WaiterLosesProcess<T>(s: State<T>, b: T, child: int) returns (run: seq<Action<T>>)
    requires Initial(s) && child != KERNEL
    ensures Good(s) && |run| == 2 && Possible(s, run) && Enabled(After(s, run), Undo(child))
    ensures !Good(Next(After(s, run), Undo(child)))
    ensures var r := Next(After(s, run), Undo(child)); b in r.waits && r.waits[b].pid == child && child !in r.t
  {
    Forked(s, child);
    var s1 := Next(s, Fork(KERNEL, child));
    Waited(s1, b, child, map[child := KERNEL]);
    var s2 := Next(s1, WaitFor(b, KERNEL, child));
    UndoUnderWaiter(s2, b, child);
    StepThenRun(s1, WaitFor(b, KERNEL, child), []);
    StepThenRun(s, Fork(KERNEL, child), [WaitFor(b, KERNEL, child)] + []);
    run := [Fork(KERNEL, child)] + ([WaitFor(b, KERNEL, child)] + []);
  }

  /** A process runs and ends while one thread waits for it and another for any child: the other sleeps on. */
  lemma SleeperStrandedByEnd<T>(s: State<T>, a: T, b: T, child: int, code: int) returns (run: seq<Action<T>>)
    requires Initial(s) && child != KERNEL && a != b
    ensures Good(s) && |run| == 5 && Possible(s, run) && !SleepersOk(After(s, run))
  {
    Forked(s, child);
    var s1 := Next(s, Fork(KERNEL, child));
    var s2 := Started(s1, child);
    Waited(s2, b, child, map[]);
    var s3 := Next(s2, WaitFor(b, KERNEL, child));
    Slept(s3, a, child, 1, map[]);
    var s4 := Next(s3, SleepForAny(a, KERNEL));
    LastChildLeavesSleeper(s4, a, b, child, code);
    StepGoodIff(s4, End(child, code));
    StepThenRun(s4, End(child, code), []);
    StepThenRun(s3, SleepForAny(a, KERNEL), [End(child, code)] + []);
    StepThenRun(s2, WaitFor(b, KERNEL, child), [SleepForAny(a, KERNEL)] + ([End(child, code)] + []));
    run := [WaitFor(b, KERNEL, child)] + ([SleepForAny(a, KERNEL)] + ([End(child, code)] + []));
    StepThenRun(s1, Start(child), run);
    StepThenRun(s, Fork(KERNEL, child), [Start(child)] + run);
    run := [Fork(KERNEL, child)] + ([Start(child)] + run);
  }

  lemma Started<T>(s: State<T>, child: int) returns (r: State<T>)
    requires Good(s) && OneChild(s, child, 0, map[child := KERNEL]) && s.waits == map[] && s.asleep == map[]
    ensures Enabled(s, Start(child)) && r == Next(s, Start(child)) && Good(r)
    ensures OneChild(r, child, 0, map[]) && r.waits == map[] && r.asleep == map[]
  {
    r := Next(s, Start(child));
    StepGoodIff(s, Start(child));
  }
}
