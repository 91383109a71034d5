// Any number of threads that create processes, end them and wait for them (process.cpp).

module ProcessProtocol {
  import opened Common
  import opened ProcessTable

  /** A thread of process self waits for its child pid. */
  datatype Wait = Wait(self: int, pid: int)

  /**
   * waits are the threads that wait for one child, and woken those of them that have been told;
   * asleep are those that wait for any child of theirs. exited and reaped are the history: what
   * ended, and what was collected, with its exit code. making are the processes that have no thread
   * yet, with the parent that is creating them.
   */
  datatype State<!T> = State(
    t: Table, waits: map<T, Wait>, woken: set<T>, asleep: map<T, int>, making: map<int, int>,
    exited: multiset<(int, int)>, reaped: multiset<(int, int)>)

  datatype Action<T> =
    | Fork(parent: int, pid: int)
    | Start(pid: int)
    | Undo(pid: int)
    | End(p: int, code: int)
    | CollectAny(self: int)
    | SleepForAny(x: T, self: int)
    | WaitFor(x: T, self: int, pid: int)
    | Collect(self: int, pid: int)
    | Return(x: T)

  ghost function Waiters<T>(waits: map<T, Wait>, p: int): set<T>
  {
    set x | x in waits && waits[x].pid == p
  }

  /** The zombies that have not been collected, with their exit codes. */
  ghost function Dead(t: Table): set<(int, int)>
  {
    set p | p in t && t[p].zombie :: (p, t[p].exitCode)
  }

  ghost predicate WaitOk<T>(s: State<T>, x: T)
    requires x in s.waits
  {
    var w := s.waits[x];
    w.pid in s.t && w.pid != KERNEL && s.t[w.pid].ppid == w.self && (x in s.woken <==> s.t[w.pid].zombie)
  }

  ghost predicate Counts<T>(t: Table, waits: map<T, Wait>)
  {
    forall p :: p in t && p != KERNEL ==> t[p].waitCount == |Waiters(waits, p)|
  }

  /** Whoever waits for a child has it in the table, and is told exactly when it has ended. */
  ghost predicate Agrees<T>(s: State<T>)
  {
    && Inv(s.t)
    && (forall x :: x in s.waits ==> WaitOk(s, x)) && (forall x :: x in s.woken ==> x in s.waits)
    && Counts(s.t, s.waits)
    && s.exited == s.reaped + multiset(Dead(s.t))
  }

  /** A process without a thread is its creator's child, and has no children. */
  ghost predicate MakingOk(t: Table, making: map<int, int>)
  {
    forall p :: p in making ==> p in t && p != KERNEL && !t[p].zombie && t[p].ppid == making[p] && NoChildren(t, p)
  }

  ghost predicate Good<T>(s: State<T>)
  {
    Agrees(s) && MakingOk(s.t, s.making)
  }

  ghost predicate Alive(t: Table, p: int)
  {
    p in t && !t[p].zombie
  }

  /** A process is ended by its only thread, which then neither waits for anything nor creates a process. */
  ghost predicate Enabled<T>(s: State<T>, a: Action<T>)
  {
    match a
    case Fork(parent, pid) => Alive(s.t, parent) && parent !in s.making && pid !in s.t && pid != KERNEL
    case Start(pid) => pid in s.making
    case Undo(pid) => pid in s.making
    case End(p, _) =>
      && Alive(s.t, p) && p != KERNEL && p !in s.making && (forall x :: x in s.waits ==> s.waits[x].self != p)
      && (forall x :: x in s.asleep ==> s.asleep[x] != p) && (forall c :: c in s.making ==> s.making[c] != p)
    case CollectAny(self) => Alive(s.t, self) && s.t[self].zombies != []
    case SleepForAny(x, self) => Alive(s.t, self) && s.t[self].zombies == [] && s.t[self].childs != []
    case WaitFor(x, self, pid) => x !in s.waits && Alive(s.t, pid) && pid != KERNEL && s.t[pid].ppid == self
    case Collect(self, pid) =>
      pid in s.t && pid != KERNEL && s.t[pid].ppid == self && s.t[pid].zombie && s.t[pid].waitCount == 0
    case Return(x) => x in s.woken && x in s.waits
  }

  /** p is collected by a thread of its parent. */
  ghost function Take<T>(s: State<T>, p: int): State<T>
    requires p in s.t && s.t[p].ppid in s.t
  {
    s.(t := Reaped(s.t, s.t[p].ppid, p), reaped := s.reaped + multiset{(p, s.t[p].exitCode)})
  }

  lemma ParentKnown(t: Table, p: int)
    requires Inv(t) && p in t && p != KERNEL
    ensures t[p].ppid in t && t[p].ppid != p && !t[t[p].ppid].zombie
  {
    assert PlaceOk(t, p);
  }

  ghost function Ended<T>(s: State<T>, p: int, code: int): State<T>
    requires Agrees(s) && Enabled(s, End(p, code))
  {
    ParentKnown(s.t, p);
    AdoptedKeys(s.t, p);
    s.(t := Buried(Adopted(s.t, p), p, code),
       woken := if s.t[p].waitCount > 0 then s.woken + Waiters(s.waits, p) else s.woken,
       asleep := if s.t[p].waitCount > 0 then s.asleep else map[],
       exited := s.exited + multiset{(p, code)})
  }

  ghost function Next<T>(s: State<T>, a: Action<T>): State<T>
    requires Good(s) && Enabled(s, a)
  {
    match a
    case Fork(parent, pid) => s.(t := Create(s.t, parent, pid), making := s.making[pid := parent])
    case Start(pid) => s.(making := s.making - {pid})
    case Undo(pid) =>
      ParentKnown(s.t, pid);
      s.(t := Undone(s.t, s.making[pid], pid), making := s.making - {pid})
    case End(p, code) => Ended(s, p, code)
    case CollectAny(self) =>
      assert ListsOk(s.t, self);
      Take(s, s.t[self].zombies[0])
    case SleepForAny(x, self) => s.(asleep := s.asleep[x := self])
    case WaitFor(x, self, pid) => s.(t := Counted(s.t, pid, 1), waits := s.waits[x := Wait(self, pid)])
    case Collect(self, pid) =>
      ParentKnown(s.t, pid);
      Take(s, pid)
    case Return(x) =>
      assert WaitOk(s, x);
      var p := s.waits[x].pid;
      ParentKnown(s.t, p);
      var left := s.(waits := s.waits - {x}, woken := s.woken - {x});
      if s.t[p].waitCount > 1 then left.(t := Counted(s.t, p, -1)) else Take(left, p)
  }

  // ----- every step keeps the state good

  lemma SameDead(t: Table, r: Table)
    requires forall p :: p in t && t[p].zombie ==> p in r && r[p].zombie && r[p].exitCode == t[p].exitCode
    requires forall p :: p in r && r[p].zombie ==> p in t && t[p].zombie
    ensures Dead(r) == Dead(t)
  {
  }

  lemma MoreDead(t: Table, r: Table, q: int, code: int)
    requires q in t && !t[q].zombie && q in r && r[q].zombie && r[q].exitCode == code
    requires forall p :: p in t && p != q && t[p].zombie ==> p in r && r[p].zombie && r[p].exitCode == t[p].exitCode
    requires forall p :: p in r && p != q && r[p].zombie ==> p in t && t[p].zombie
    ensures (q, code) !in Dead(t) && Dead(r) == Dead(t) + {(q, code)}
    ensures multiset(Dead(r)) == multiset(Dead(t)) + multiset{(q, code)}
  {
    assert Dead(r) == Dead(t) + {(q, code)};
  }

  lemma FewerDead(t: Table, r: Table, q: int)
    requires q in t && t[q].zombie && q !in r
    requires forall p :: p in t && p != q && t[p].zombie ==> p in r && r[p].zombie && r[p].exitCode == t[p].exitCode
    requires forall p :: p in r && r[p].zombie ==> p in t && t[p].zombie
    ensures multiset(Dead(t)) == multiset(Dead(r)) + multiset{(q, t[q].exitCode)}
  {
    assert Dead(t) == Dead(r) + {(q, t[q].exitCode)};
  }

  /** What the waiting threads see of a process. */
  ghost predicate LooksAlike(t: Table, r: Table, q: int)
  {
    && q in t && q in r && r[q].waitCount == t[q].waitCount
    && r[q].zombie == t[q].zombie && r[q].exitCode == t[q].exitCode && r[q].ppid == t[q].ppid
  }

  lemma CreateSeen(t: Table, parent: int, pid: int)
    requires parent in t && pid !in t
    ensures Added(t, Create(t, parent, pid), pid) && Create(t, parent, pid)[pid].ppid == parent
  {
  }

  ghost predicate Added(t: Table, r: Table, pid: int)
  {
    && r.Keys == t.Keys + {pid} && (forall q :: q in t ==> LooksAlike(t, r, q))
    && !r[pid].zombie && r[pid].waitCount == 0
  }

  /** The table changes under threads that wait for the same as before. */
  lemma TableChanged<T>(s: State<T>, r: State<T>)
    requires Agrees(s) && Inv(r.t) && r.waits == s.waits
    requires forall q :: q in s.t ==> q in r.t && r.t[q].waitCount == s.t[q].waitCount
    requires forall q :: q in r.t && q !in s.t ==> r.t[q].waitCount == 0
    requires forall x :: x in s.waits && s.waits[x].pid in s.t ==> WaitOk(r, x)
    requires forall x :: x in r.woken ==> x in r.waits
    requires r.exited == r.reaped + multiset(Dead(r.t))
    ensures Agrees(r)
  {
    forall x | x in r.waits
      ensures WaitOk(r, x)
    {
      assert WaitOk(s, x);
    }
    forall q | q in r.t && q != KERNEL
      ensures r.t[q].waitCount == |Waiters(r.waits, q)|
    {
      if q !in s.t { NobodyFor(s, q); }
    }
  }

  lemma ForkGood<T>(s: State<T>, parent: int, pid: int)
    requires Good(s) && Enabled(s, Fork(parent, pid))
    ensures Agrees(Next(s, Fork(parent, pid)))
  {
    CreateInv(s.t, parent, pid);
    CreatedAgrees(s, parent, pid, Next(s, Fork(parent, pid)));
  }

  lemma CreatedAgrees<T>(s: State<T>, parent: int, pid: int, r: State<T>)
    requires Agrees(s) && parent in s.t && pid !in s.t && Inv(r.t) && r.t == Create(s.t, parent, pid)
    requires r.waits == s.waits && r.woken == s.woken && r.exited == s.exited && r.reaped == s.reaped
    ensures Agrees(r)
  {
    CreateSeen(s.t, parent, pid);
    AddedAgrees(s, pid, r);
  }

  lemma AddedAgrees<T>(s: State<T>, pid: int, r: State<T>)
    requires Agrees(s) && pid !in s.t && Inv(r.t) && Added(s.t, r.t, pid)
    requires r.waits == s.waits && r.woken == s.woken && r.exited == s.exited && r.reaped == s.reaped
    ensures Agrees(r)
  {
    AddedDead(s.t, r.t, pid);
    AddedWaits(s, pid, r);
    AddedCounts(s, pid, r.t);
  }

  lemma AddedDead(t: Table, r: Table, pid: int)
    requires pid !in t && Added(t, r, pid)
    ensures Dead(r) == Dead(t)
  {
    assert forall q :: q in t ==> LooksAlike(t, r, q);
    SameDead(t, r);
  }

  lemma AddedCounts<T>(s: State<T>, pid: int, r: Table)
    requires Agrees(s) && pid !in s.t && Added(s.t, r, pid)
    ensures Counts(r, s.waits)
  {
    NobodyFor(s, pid);
    forall q | q in r && q != KERNEL
      ensures r[q].waitCount == |Waiters(s.waits, q)|
    {
      if q != pid { assert LooksAlike(s.t, r, q); }
    }
  }

  lemma AddedWaits<T>(s: State<T>, pid: int, r: State<T>)
    requires Agrees(s) && Added(s.t, r.t, pid) && r.woken == s.woken && r.waits == s.waits
    ensures forall x :: x in s.waits ==> WaitOk(r, x)
  {
    forall x | x in s.waits
      ensures WaitOk(r, x)
    {
      assert WaitOk(s, x);
      assert LooksAlike(s.t, r.t, s.waits[x].pid);
    }
  }

  lemma NobodyFor<T>(s: State<T>, pid: int)
    requires Agrees(s) && pid !in s.t
    ensures Waiters(s.waits, pid) == {}
  {
    forall x | x in s.waits
      ensures s.waits[x].pid != pid
    {
      assert WaitOk(s, x);
    }
  }

  lemma AdoptedSeen(t: Table, p: int)
    requires Inv(t) && p in t && p != KERNEL && !t[p].zombie
    ensures var r := Adopted(t, p);
      && r.Keys == t.Keys
      && forall q :: q in t && (q == KERNEL || t[q].ppid != p) ==> LooksAlike(t, r, q)
    ensures forall q :: q in t ==>
      var r := Adopted(t, p); r[q].waitCount == t[q].waitCount && r[q].zombie == t[q].zombie && r[q].exitCode == t[q].exitCode
  {
    assert ListsOk(t, p);
    assert PlaceOk(t, p);
  }

  lemma BuriedSeen(t: Table, p: int, code: int)
    requires p in t && t[p].ppid in t && t[p].ppid != p
    ensures var r := Buried(t, p, code);
      && r.Keys == t.Keys && (forall q :: q in t && q != p ==> LooksAlike(t, r, q))
      && r[p].zombie && r[p].exitCode == code && r[p].waitCount == t[p].waitCount && r[p].ppid == t[p].ppid
  {
  }

  lemma EndedInv(t: Table, p: int, code: int, o: Table, r: Table)
    requires Inv(t) && p in t && p != KERNEL && !t[p].zombie && NotWaiting(t, p) && o == Adopted(t, p)
    requires p in o && o[p].ppid in o && o[p].ppid != p && r == Buried(o, p, code)
    ensures Inv(r)
  {
    AdoptedInv(t, p, o);
    BuriedInv(o, p, code);
  }

  /** What the end of a process does to the table, as far as the waiting threads see it. */
  lemma EndedSeen(t: Table, p: int, code: int, o: Table, r: Table)
    requires Inv(t) && p in t && p != KERNEL && !t[p].zombie && o == Adopted(t, p)
    requires p in o && o[p].ppid in o && o[p].ppid != p && r == Buried(o, p, code)
    ensures SeenToEnd(t, r, p, code)
  {
    AdoptedSeen(t, p);
    AdoptedKeys(t, p);
    BuriedSeen(o, p, code);
  }

  ghost predicate SeenToEnd(t: Table, r: Table, p: int, code: int)
    requires p in t
  {
    && r.Keys == t.Keys && r[p].zombie && r[p].exitCode == code && r[p].ppid == t[p].ppid
    && (forall q :: q in t ==> r[q].waitCount == t[q].waitCount)
    && (forall q :: q in t && q != p ==> r[q].zombie == t[q].zombie && r[q].exitCode == t[q].exitCode)
    && (forall q :: q in t && q != KERNEL && t[q].ppid != p ==> r[q].ppid == t[q].ppid)
  }

  /** Exactly those who wait for p are told of its end. */
  lemma EndedWaits<T>(s: State<T>, r: State<T>, p: int, code: int)
    requires Agrees(s) && Enabled(s, End(p, code)) && SeenToEnd(s.t, r.t, p, code) && r.waits == s.waits
    requires r.woken == if s.t[p].waitCount > 0 then s.woken + Waiters(s.waits, p) else s.woken
    ensures forall x :: x in s.waits ==> WaitOk(r, x)
    ensures forall x :: x in r.woken ==> x in r.waits
  {
    forall x | x in s.waits
      ensures WaitOk(r, x)
    {
      assert WaitOk(s, x);
      if s.waits[x].pid == p { assert x in Waiters(s.waits, p); }
    }
  }

  lemma EndGood<T>(s: State<T>, p: int, code: int)
    requires Good(s) && Enabled(s, End(p, code))
    ensures Agrees(Next(s, End(p, code)))
  {
    NobodyWaitsIn(s, p);
    ParentKnown(s.t, p);
    AdoptedKeys(s.t, p);
    EndedGood(s, p, code, Adopted(s.t, p), Next(s, End(p, code)));
  }

  lemma EndedGood<T>(s: State<T>, p: int, code: int, o: Table, r: State<T>)
    requires Agrees(s) && Enabled(s, End(p, code)) && NotWaiting(s.t, p) && o == Adopted(s.t, p)
    requires p in o && o[p].ppid in o && o[p].ppid != p && r.t == Buried(o, p, code) && r.waits == s.waits
    requires r.woken == if s.t[p].waitCount > 0 then s.woken + Waiters(s.waits, p) else s.woken
    requires r.exited == s.exited + multiset{(p, code)} && r.reaped == s.reaped
    ensures Agrees(r)
  {
    EndedInv(s.t, p, code, o, r.t);
    EndedSeen(s.t, p, code, o, r.t);
    SeenToEndGood(s, p, code, r);
  }

  lemma SeenToEndGood<T>(s: State<T>, p: int, code: int, r: State<T>)
    requires Agrees(s) && Enabled(s, End(p, code)) && Inv(r.t) && SeenToEnd(s.t, r.t, p, code) && r.waits == s.waits
    requires r.woken == if s.t[p].waitCount > 0 then s.woken + Waiters(s.waits, p) else s.woken
    requires r.exited == s.exited + multiset{(p, code)} && r.reaped == s.reaped
    ensures Agrees(r)
  {
    EndedDead(s.t, r.t, p, code);
    EndedCounts(s.t, r.t, p, code, s.waits);
    EndedWaits(s, r, p, code);
  }

  lemma EndedDead(t: Table, r: Table, p: int, code: int)
    requires p in t && !t[p].zombie && SeenToEnd(t, r, p, code)
    ensures multiset(Dead(r)) == multiset(Dead(t)) + multiset{(p, code)}
  {
    MoreDead(t, r, p, code);
  }

  lemma EndedCounts<T>(t: Table, r: Table, p: int, code: int, waits: map<T, Wait>)
    requires p in t && SeenToEnd(t, r, p, code) && Counts(t, waits)
    ensures Counts(r, waits)
  {
  }

  lemma NobodyWaitsIn<T>(s: State<T>, p: int)
    requires Agrees(s) && Alive(s.t, p) && forall x :: x in s.waits ==> s.waits[x].self != p
    ensures NotWaiting(s.t, p)
  {
    forall c | c in s.t && c != KERNEL && s.t[c].ppid == p
      ensures s.t[c].waitCount == 0
    {
      forall x | x in s.waits
        ensures s.waits[x].pid != c
      {
        assert WaitOk(s, x);
      }
      assert Waiters(s.waits, c) == {};
    }
  }

  // ----- waiting and collecting

  lemma CountedSeen(t: Table, p: int, k: int)
    requires p in t
    ensures var r := Counted(t, p, k);
      && r.Keys == t.Keys && (forall q :: q in t && q != p ==> LooksAlike(t, r, q))
      && r[p] == t[p].(waitCount := t[p].waitCount + k)
  {
  }

  lemma CountedDead(t: Table, p: int, k: int)
    requires p in t
    ensures Dead(Counted(t, p, k)) == Dead(t)
  {
    SameDead(t, Counted(t, p, k));
  }

  /** A thread that waits for a process that looks as before is still as it should be. */
  lemma StillWaits<T>(s: State<T>, r: State<T>, y: T)
    requires y in s.waits && WaitOk(s, y) && y in r.waits && r.waits[y] == s.waits[y]
    requires s.waits[y].pid in r.t && r.t[s.waits[y].pid].ppid == s.t[s.waits[y].pid].ppid
    requires r.t[s.waits[y].pid].zombie == s.t[s.waits[y].pid].zombie && (y in r.woken <==> y in s.woken)
    ensures WaitOk(r, y)
  {
  }

  /** One more, or one less, of those who wait for p. */
  lemma WaitersChange<T>(waits: map<T, Wait>, x: T, w: Wait)
    requires x !in waits
    ensures forall p :: p != w.pid ==> Waiters(waits[x := w], p) == Waiters(waits, p)
    ensures Waiters(waits[x := w], w.pid) == Waiters(waits, w.pid) + {x} && x !in Waiters(waits, w.pid)
  {
    forall p
      ensures Waiters(waits[x := w], p) == if p == w.pid then Waiters(waits, p) + {x} else Waiters(waits, p)
    {
    }
  }

  lemma CountsJoin<T>(t: Table, r: Table, waits: map<T, Wait>, x: T, w: Wait)
    requires Counts(t, waits) && x !in waits && w.pid in t && r == Counted(t, w.pid, 1)
    ensures Counts(r, waits[x := w])
  {
    WaitersChange(waits, x, w);
    CountedSeen(t, w.pid, 1);
    forall p | p in r && p != KERNEL
      ensures r[p].waitCount == |Waiters(waits[x := w], p)|
    {
      if p != w.pid { assert LooksAlike(t, r, p); }
    }
  }

  /** The tables differ in process p at most, as far as the waiting threads see. */
  ghost predicate OthersAlike(t: Table, r: Table, p: int)
  {
    (forall q :: q in t && q != p ==> LooksAlike(t, r, q)) && (forall q :: q in r ==> q in t)
  }

  lemma CountsLeave<T>(t: Table, r: Table, waits: map<T, Wait>, x: T, w: Wait)
    requires x !in waits && Counts(t, waits[x := w]) && w.pid in t && w.pid != KERNEL
    requires OthersAlike(t, r, w.pid) && (w.pid in r ==> r[w.pid].waitCount == t[w.pid].waitCount - 1)
    ensures Counts(r, waits) && |Waiters(waits, w.pid)| == t[w.pid].waitCount - 1
  {
    WaitersChange(waits, x, w);
  }

  lemma WaitForGood<T>(s: State<T>, x: T, self: int, pid: int)
    requires Good(s) && Enabled(s, WaitFor(x, self, pid))
    ensures Agrees(Next(s, WaitFor(x, self, pid)))
  {
    assert PlaceOk(s.t, pid);
    JoinedGood(s, x, Wait(self, pid), Counted(s.t, pid, 1), Next(s, WaitFor(x, self, pid)));
  }

  lemma JoinedGood<T>(s: State<T>, x: T, w: Wait, t: Table, r: State<T>)
    requires Agrees(s) && x !in s.waits && Alive(s.t, w.pid) && w.pid != KERNEL && s.t[w.pid].ppid == w.self
    requires s.t[w.pid].waitCount >= 0 && t == Counted(s.t, w.pid, 1) && r == s.(t := t, waits := s.waits[x := w])
    ensures Agrees(r)
  {
    CountedInv(s.t, w.pid, 1);
    CountedSeen(s.t, w.pid, 1);
    CountedDead(s.t, w.pid, 1);
    CountsJoin(s.t, t, s.waits, x, w);
    JoinedWaits(s, x, w, t, r);
  }

  lemma JoinedWaits<T>(s: State<T>, x: T, w: Wait, t: Table, r: State<T>)
    requires Agrees(s) && x !in s.waits && Alive(s.t, w.pid) && w.pid != KERNEL && s.t[w.pid].ppid == w.self
    requires t == Counted(s.t, w.pid, 1) && r == s.(t := t, waits := s.waits[x := w])
    ensures forall y :: y in r.waits ==> WaitOk(r, y)
    ensures forall y :: y in r.woken ==> y in r.waits
  {
    CountedSeen(s.t, w.pid, 1);
    assert x !in s.woken;
    forall y | y in r.waits
      ensures WaitOk(r, y)
    {
      if y != x { StillWaits(s, r, y); }
    }
  }

  lemma ReapedSeen(t: Table, p: int)
    requires p in t && t[p].ppid in t && t[p].ppid != p
    ensures var r := Reaped(t, t[p].ppid, p);
      p !in r && OthersAlike(t, r, p)
  {
  }

  lemma ReapedDead(t: Table, p: int)
    requires p in t && t[p].zombie && t[p].ppid in t && t[p].ppid != p
    ensures multiset(Dead(t)) == multiset(Dead(Reaped(t, t[p].ppid, p))) + multiset{(p, t[p].exitCode)}
  {
    var r := Reaped(t, t[p].ppid, p);
    ReapedSeen(t, p);
    assert forall q :: q in t && q != p ==> LooksAlike(t, r, q);
    FewerDead(t, r, p);
  }

  /** Collecting a zombie that nobody waits for in particular. */
  lemma TakeGood<T>(s: State<T>, p: int)
    requires Agrees(s) && p in s.t && p != KERNEL && s.t[p].zombie && s.t[p].waitCount == 0
    ensures s.t[p].ppid in s.t && Agrees(Take(s, p))
  {
    ParentKnown(s.t, p);
    TakenGood(s, p, Reaped(s.t, s.t[p].ppid, p), Take(s, p));
  }

  lemma TakenGood<T>(s: State<T>, p: int, t: Table, r: State<T>)
    requires Agrees(s) && p in s.t && p != KERNEL && s.t[p].zombie && s.t[p].waitCount == 0
    requires s.t[p].ppid in s.t && s.t[p].ppid != p && t == Reaped(s.t, s.t[p].ppid, p)
    requires r == s.(t := t, reaped := s.reaped + multiset{(p, s.t[p].exitCode)})
    ensures Agrees(r)
  {
    ReapedInv(s.t, p);
    ReapedDead(s.t, p);
    TakenWaits(s, p, r);
  }

  lemma TakenWaits<T>(s: State<T>, p: int, r: State<T>)
    requires Agrees(s) && p in s.t && p != KERNEL && s.t[p].waitCount == 0
    requires s.t[p].ppid in s.t && s.t[p].ppid != p && r.t == Reaped(s.t, s.t[p].ppid, p)
    requires r.waits == s.waits && r.woken == s.woken
    ensures Counts(r.t, r.waits) && forall x :: x in s.waits ==> WaitOk(r, x)
  {
    ReapedSeen(s.t, p);
    NobodyLeft(s, p);
    forall x | x in s.waits
      ensures WaitOk(r, x)
    {
      StillWaits(s, r, x);
    }
  }

  lemma NobodyLeft<T>(s: State<T>, p: int)
    requires Agrees(s) && p in s.t && p != KERNEL && s.t[p].waitCount == 0
    ensures forall x :: x in s.waits ==> WaitOk(s, x) && s.waits[x].pid != p
  {
    forall x | x in s.waits
      ensures WaitOk(s, x) && s.waits[x].pid != p
    {
      assert x in Waiters(s.waits, s.waits[x].pid);
    }
  }

  /** A thread that was told returns, and the last one collects. */
  lemma ReturnGood<T>(s: State<T>, x: T)
    requires Good(s) && Enabled(s, Return(x))
    ensures s.waits[x].pid in s.t && s.t[s.waits[x].pid].zombie && s.t[s.waits[x].pid].waitCount > 0
    ensures Agrees(Next(s, Return(x)))
  {
    assert WaitOk(s, x);
    var w, waits := s.waits[x], s.waits - {x};
    ParentKnown(s.t, w.pid);
    PutBack(s.waits, x);
    WaitersChange(waits, x, w);
    var r := Next(s, Return(x));
    if s.t[w.pid].waitCount > 1 {
      LeaveOthers(s, x, w, waits, Counted(s.t, w.pid, -1), r);
    } else {
      LeaveLast(s, x, w, waits, Reaped(s.t, s.t[w.pid].ppid, w.pid), r);
    }
  }

  lemma PutBack<T>(waits: map<T, Wait>, x: T)
    requires x in waits
    ensures waits == (waits - {x})[x := waits[x]]
  {
  }

  ghost predicate Leaves<T>(s: State<T>, x: T, w: Wait, waits: map<T, Wait>)
  {
    Agrees(s) && x in s.woken && x !in waits && s.waits == waits[x := w] && w.pid in s.t && w.pid != KERNEL && s.t[w.pid].zombie
  }

  /** Those who stay are not affected. */
  lemma LeftWaits<T>(s: State<T>, x: T, w: Wait, waits: map<T, Wait>, r: State<T>)
    requires Leaves(s, x, w, waits) && r.waits == waits && r.woken == s.woken - {x}
    requires OthersAlike(s.t, r.t, w.pid)
    requires if w.pid in r.t then r.t[w.pid].ppid == s.t[w.pid].ppid && r.t[w.pid].zombie == s.t[w.pid].zombie
             else forall y :: y in waits ==> waits[y].pid != w.pid
    ensures forall y :: y in r.waits ==> WaitOk(r, y)
    ensures forall y :: y in r.woken ==> y in r.waits
  {
    forall y | y in r.waits
      ensures WaitOk(r, y)
    {
      assert WaitOk(s, y);
      StillWaits(s, r, y);
    }
  }

  lemma LeaveOthers<T>(s: State<T>, x: T, w: Wait, waits: map<T, Wait>, t: Table, r: State<T>)
    requires Leaves(s, x, w, waits) && s.t[w.pid].waitCount > 1 && t == Counted(s.t, w.pid, -1)
    requires r == s.(t := t, waits := waits, woken := s.woken - {x})
    ensures Agrees(r)
  {
    CountedInv(s.t, w.pid, -1);
    CountedSeen(s.t, w.pid, -1);
    CountedDead(s.t, w.pid, -1);
    assert OthersAlike(s.t, t, w.pid);
    LeaveGood(s, x, w, waits, r);
  }

  /** A thread leaves; what happened to the process it waited for is done already. */
  lemma LeaveGood<T>(s: State<T>, x: T, w: Wait, waits: map<T, Wait>, r: State<T>)
    requires Leaves(s, x, w, waits) && r.waits == waits && r.woken == s.woken - {x}
    requires Inv(r.t) && OthersAlike(s.t, r.t, w.pid) && r.exited == r.reaped + multiset(Dead(r.t))
    requires if w.pid in r.t then r.t[w.pid] == s.t[w.pid].(waitCount := s.t[w.pid].waitCount - 1)
             else s.t[w.pid].waitCount <= 1
    ensures Agrees(r)
  {
    CountsLeave(s.t, r.t, waits, x, w);
    if w.pid !in r.t {
      forall y | y in waits
        ensures waits[y].pid != w.pid
      {
        assert y in Waiters(waits, waits[y].pid);
      }
    }
    LeftWaits(s, x, w, waits, r);
  }

  lemma LeaveLast<T>(s: State<T>, x: T, w: Wait, waits: map<T, Wait>, t: Table, r: State<T>)
    requires Leaves(s, x, w, waits) && s.t[w.pid].waitCount <= 1
    requires s.t[w.pid].ppid in s.t && s.t[w.pid].ppid != w.pid && t == Reaped(s.t, s.t[w.pid].ppid, w.pid)
    requires r == s.(t := t, waits := waits, woken := s.woken - {x}, reaped := s.reaped + multiset{(w.pid, s.t[w.pid].exitCode)})
    ensures Agrees(r)
  {
    ReapedInv(s.t, w.pid);
    ReapedSeen(s.t, w.pid);
    ReapedDead(s.t, w.pid);
    LeftLast(s, x, w, waits, t, r);
  }

  lemma LeftLast<T>(s: State<T>, x: T, w: Wait, waits: map<T, Wait>, t: Table, r: State<T>)
    requires Leaves(s, x, w, waits) && s.t[w.pid].waitCount <= 1
    requires Inv(t) && w.pid !in t && OthersAlike(s.t, t, w.pid)
    requires multiset(Dead(s.t)) == multiset(Dead(t)) + multiset{(w.pid, s.t[w.pid].exitCode)}
    requires r == s.(t := t, waits := waits, woken := s.woken - {x}, reaped := s.reaped + multiset{(w.pid, s.t[w.pid].exitCode)})
    ensures Agrees(r)
  {
    LeaveGood(s, x, w, waits, r);
  }

  // ----- giving up a creation

  lemma UndoneSeen(t: Table, p: int)
    requires p in t && t[p].ppid in t && t[p].ppid != p && !t[p].zombie
    ensures var r := Undone(t, t[p].ppid, p);
      p !in r && OthersAlike(t, r, p) && Dead(r) == Dead(t)
  {
    SameDead(t, Undone(t, t[p].ppid, p));
  }

  lemma UndoAgrees<T>(s: State<T>, p: int, r: State<T>)
    requires Agrees(s) && p in s.t && p != KERNEL && !s.t[p].zombie && NoChildren(s.t, p)
    requires s.t[p].ppid in s.t && s.t[p].ppid != p && r.t == Undone(s.t, s.t[p].ppid, p)
    requires r.waits == s.waits && r.woken == s.woken && r.exited == s.exited && r.reaped == s.reaped
    requires forall x :: x in s.waits ==> s.waits[x].pid != p
    ensures Agrees(r)
  {
    UndoneInv(s.t, p);
    UndoneSeen(s.t, p);
    forall x | x in s.waits
      ensures WaitOk(r, x)
    {
      assert WaitOk(s, x);
      StillWaits(s, r, x);
    }
  }

  /** Undoing a creation is sound exactly if no thread has begun to wait for the new process. */
  lemma UndoGoodIff<T>(s: State<T>, p: int)
    requires Good(s) && Enabled(s, Undo(p))
    ensures Agrees(Next(s, Undo(p))) <==> forall x :: x in s.waits ==> s.waits[x].pid != p
  {
    var r := Next(s, Undo(p));
    ParentKnown(s.t, p);
    UndoneSeen(s.t, p);
    if x :| x in s.waits && s.waits[x].pid == p {
      assert !WaitOk(r, x);
    } else {
      UndoAgrees(s, p, r);
    }
  }

  // ----- processes that are being created

  /** Nobody becomes the child of a process without a thread, and such a process stays as it is. */
  ghost predicate LeavesNew(t: Table, r: Table, making: map<int, int>)
  {
    && (forall p :: p in making && p in t ==> p in r && r[p].zombie == t[p].zombie && r[p].ppid == t[p].ppid)
    && (forall c :: c in r && c != KERNEL ==> r[c].ppid == KERNEL || r[c].ppid !in making || (c in t && r[c].ppid == t[c].ppid))
  }

  lemma MakingKept(t: Table, r: Table, making: map<int, int>)
    requires MakingOk(t, making) && LeavesNew(t, r, making)
    ensures MakingOk(r, making)
  {
    forall p | p in making
      ensures NoChildren(r, p)
    {
      assert NoChildren(t, p);
    }
  }

  lemma ForkMaking(t: Table, making: map<int, int>, parent: int, pid: int)
    requires Inv(t) && MakingOk(t, making) && parent in t && parent !in making && pid !in t && pid != KERNEL
    ensures MakingOk(Create(t, parent, pid), making[pid := parent])
  {
    CreateSeen(t, parent, pid);
    AddedMaking(t, making, parent, pid, Create(t, parent, pid));
  }

  lemma AddedMaking(t: Table, making: map<int, int>, parent: int, pid: int, r: Table)
    requires Inv(t) && MakingOk(t, making) && parent in t && parent !in making && pid !in t && pid != KERNEL
    requires Added(t, r, pid) && r[pid].ppid == parent
    ensures MakingOk(r, making[pid := parent])
  {
    AddedLeavesNew(t, making, pid, r);
    MakingKept(t, r, making);
    AddedHasNone(t, pid, r);
  }

  lemma AddedLeavesNew(t: Table, making: map<int, int>, pid: int, r: Table)
    requires Added(t, r, pid) && pid !in t && r[pid].ppid !in making
    ensures LeavesNew(t, r, making)
  {
    assert forall c :: c in t ==> LooksAlike(t, r, c);
  }

  lemma AddedHasNone(t: Table, pid: int, r: Table)
    requires Inv(t) && pid !in t && Added(t, r, pid) && r[pid].ppid in t
    ensures NoChildren(r, pid)
  {
    forall c | c in r && c != KERNEL
      ensures r[c].ppid != pid
    {
      if c != pid { assert PlaceOk(t, c) && LooksAlike(t, r, c); }
    }
  }

  lemma EndMaking(t: Table, making: map<int, int>, p: int, code: int, o: Table, r: Table)
    requires Inv(t) && MakingOk(t, making) && p in t && p != KERNEL && !t[p].zombie && o == Adopted(t, p)
    requires p !in making && forall c :: c in making ==> making[c] != p
    requires p in o && o[p].ppid in o && o[p].ppid != p && r == Buried(o, p, code)
    ensures MakingOk(r, making)
  {
    EndedSeen(t, p, code, o, r);
    EndedParents(t, p, code, o, r);
    MakingKept(t, r, making);
  }

  lemma EndedParents(t: Table, p: int, code: int, o: Table, r: Table)
    requires Inv(t) && p in t && p != KERNEL && !t[p].zombie && o == Adopted(t, p)
    requires p in o && o[p].ppid in o && o[p].ppid != p && r == Buried(o, p, code)
    ensures forall c :: c in r ==> c in t && (r[c].ppid == KERNEL || r[c].ppid == t[c].ppid)
  {
    AdoptedKeys(t, p);
    AdoptedParents(t, p);
    BuriedSeen(o, p, code);
    forall c | c in r
      ensures c in t && (r[c].ppid == KERNEL || r[c].ppid == t[c].ppid)
    {
      if c != p { assert LooksAlike(o, r, c); }
    }
  }

  lemma AdoptedParents(t: Table, p: int)
    requires p in t && KERNEL in t && p != KERNEL
    ensures forall c :: c in t ==> c in Adopted(t, p) && (Adopted(t, p)[c].ppid == KERNEL || Adopted(t, p)[c].ppid == t[c].ppid)
  {
  }

  /** All that changes is a process that is not being created. */
  lemma OtherMaking(t: Table, r: Table, making: map<int, int>, p: int)
    requires MakingOk(t, making) && OthersAlike(t, r, p) && p in t
    requires if p in r then r[p].ppid == t[p].ppid && r[p].zombie == t[p].zombie else p !in making
    ensures MakingOk(r, making)
  {
    MakingKept(t, r, making);
  }

  lemma UndoMaking(t: Table, making: map<int, int>, p: int)
    requires Inv(t) && MakingOk(t, making) && p in making && t[p].ppid in t && t[p].ppid != p
    ensures MakingOk(Undone(t, t[p].ppid, p), making - {p})
  {
    var r := Undone(t, t[p].ppid, p);
    UndoneSeen(t, p);
    assert MakingOk(t, making - {p});
    OtherMaking(t, r, making - {p}, p);
  }

  lemma TakeMaking(t: Table, making: map<int, int>, p: int)
    requires Inv(t) && MakingOk(t, making) && p in t && p != KERNEL && t[p].zombie
    ensures t[p].ppid in t && MakingOk(Reaped(t, t[p].ppid, p), making)
  {
    ParentKnown(t, p);
    ReapedSeen(t, p);
    OtherMaking(t, Reaped(t, t[p].ppid, p), making, p);
  }

  lemma CountMaking(t: Table, making: map<int, int>, p: int, k: int)
    requires MakingOk(t, making) && p in t
    ensures MakingOk(Counted(t, p, k), making)
  {
    CountedSeen(t, p, k);
    OtherMaking(t, Counted(t, p, k), making, p);
  }

  lemma StepMaking<T>(s: State<T>, a: Action<T>)
    requires Good(s) && Enabled(s, a)
    ensures MakingOk(Next(s, a).t, Next(s, a).making)
  {
    match a
    case Fork(parent, pid) => ForkMaking(s.t, s.making, parent, pid);
    case Start(pid) =>
    case Undo(pid) =>
      ParentKnown(s.t, pid);
      UndoMaking(s.t, s.making, pid);
    case End(p, code) =>
      ParentKnown(s.t, p);
      AdoptedKeys(s.t, p);
      EndMaking(s.t, s.making, p, code, Adopted(s.t, p), Next(s, a).t);
    case CollectAny(self) =>
      assert ListsOk(s.t, self);
      TakeMaking(s.t, s.making, s.t[self].zombies[0]);
    case SleepForAny(x, self) =>
    case WaitFor(x, self, pid) => CountMaking(s.t, s.making, pid, 1);
    case Collect(self, pid) => TakeMaking(s.t, s.making, pid);
    case Return(x) =>
      assert WaitOk(s, x);
      CountMaking(s.t, s.making, s.waits[x].pid, -1);
      TakeMaking(s.t, s.making, s.waits[x].pid);
  }

  /** The one step that may go wrong: giving up a process that somebody waits for already. */
  ghost predicate Sound<T>(s: State<T>, a: Action<T>)
  {
    a.Undo? ==> forall x :: x in s.waits ==> s.waits[x].pid != a.pid
  }

  /** A step keeps the state good if and only if it is sound, and no step meets a state that the source calls unexpected. */
  lemma StepGoodIff<T>(s: State<T>, a: Action<T>)
    requires Good(s) && Enabled(s, a)
    ensures Good(Next(s, a)) <==> Sound(s, a)
    ensures a.CollectAny? ==> s.t[a.self].zombies[0] in s.t && s.t[s.t[a.self].zombies[0]].waitCount == 0
    ensures a.Return? ==> s.t[s.waits[a.x].pid].zombie && s.t[s.waits[a.x].pid].waitCount > 0
    ensures a.End? ==> s.t[a.p].ppid in s.t
  {
    StepMaking(s, a);
    if !a.Undo? { StepAgrees(s, a); }
    match a
    case Fork(parent, pid) =>
    case Start(pid) =>
    case Undo(pid) => UndoGoodIff(s, pid);
    case End(p, code) => ParentKnown(s.t, p);
    case CollectAny(self) => assert ListsOk(s.t, self);
    case SleepForAny(x, self) =>
    case WaitFor(x, self, pid) =>
    case Collect(self, pid) =>
    case Return(x) => ReturnGood(s, x);
  }

  lemma StepAgrees<T>(s: State<T>, a: Action<T>)
    requires Good(s) && Enabled(s, a) && !a.Undo?
    ensures Agrees(Next(s, a))
  {
    match a
    case Fork(parent, pid) => ForkGood(s, parent, pid);
    case Start(pid) => StartGood(s, pid);
    case End(p, code) => EndGood(s, p, code);
    case CollectAny(self) =>
      assert ListsOk(s.t, self);
      TakeGood(s, s.t[self].zombies[0]);
    case SleepForAny(x, self) => SleepGood(s, x, self);
    case WaitFor(x, self, pid) => WaitForGood(s, x, self, pid);
    case Collect(self, pid) => TakeGood(s, pid);
    case Return(x) => ReturnGood(s, x);
  }

  lemma SleepGood<T>(s: State<T>, x: T, self: int)
    requires Agrees(s)
    ensures Agrees(s.(asleep := s.asleep[x := self]))
  {
    TableChanged(s, s.(asleep := s.asleep[x := self]));
  }

  lemma StartGood<T>(s: State<T>, pid: int)
    requires Agrees(s)
    ensures Agrees(s.(making := s.making - {pid}))
  {
    TableChanged(s, s.(making := s.making - {pid}));
  }

  ghost predicate Possible<T>(s: State<T>, run: seq<Action<T>>)
    requires Good(s)
    decreases |run|
  {
    run == [] || (Enabled(s, run[0]) && Sound(s, run[0]) && (StepGoodIff(s, run[0]); Possible(Next(s, run[0]), run[1..])))
  }

  ghost function After<T>(s: State<T>, run: seq<Action<T>>): (r: State<T>)
    requires Good(s) && Possible(s, run)
    ensures Good(r)
    decreases |run|
  {
    if run == [] then s else StepGoodIff(s, run[0]); After(Next(s, run[0]), run[1..])
  }

  /** In every run each end of a process is collected at most once, with the code it ended with. */
  lemma CollectedAtMostOnce<T>(s: State<T>, run: seq<Action<T>>)
    requires Good(s) && Possible(s, run)
    ensures var r := After(s, run);
      r.reaped <= r.exited && r.exited - r.reaped == multiset(Dead(r.t))
  {
  }

  // ----- threads that wait for any child

  /** A process waits for any child only while it has one that lives and none that has ended. */
  ghost predicate HasReason(t: Table, self: int)
  {
    self in t && t[self].zombies == [] && t[self].childs != []
  }

  ghost predicate SleepersOk<T>(s: State<T>)
  {
    forall x :: x in s.asleep ==> HasReason(s.t, s.asleep[x])
  }

  /** After the end of p process self, which waited for any child, still has a reason to. */
  ghost predicate KeepsReason(t: Table, p: int, self: int)
    requires p in t && self in t
  {
    var childs := if self == KERNEL then t[p].childs + t[self].childs else t[self].childs;
    && (self == KERNEL ==> t[p].zombies == [])
    && (if self == t[p].ppid then Without(childs, p) else childs) != []
  }

  lemma ReasonAfterEnd(t: Table, p: int, code: int, self: int, o: Table, r: Table)
    requires Inv(t) && p in t && p != KERNEL && !t[p].zombie && t[p].waitCount > 0 && o == Adopted(t, p)
    requires p in o && o[p].ppid in o && o[p].ppid != p && r == Buried(o, p, code)
    requires self != p && HasReason(t, self)
    ensures HasReason(r, self) <==> KeepsReason(t, p, self)
  {
    AdoptedKeys(t, p);
    assert PlaceOk(t, p);
  }

  /**
   * The end of a process that is waited for in particular does not wake those who wait for any child.
   * They are left without a reason to sleep exactly when the process was the last child they had, or
   * left zombies to the kernel.
   */
  lemma SleepersOkIff<T>(s: State<T>, p: int, code: int)
    requires Good(s) && SleepersOk(s) && Enabled(s, End(p, code))
    ensures SleepersOk(Next(s, End(p, code))) <==>
      s.t[p].waitCount == 0 || forall x :: x in s.asleep ==> KeepsReason(s.t, p, s.asleep[x])
  {
    var r := Next(s, End(p, code));
    ParentKnown(s.t, p);
    AdoptedKeys(s.t, p);
    assert PlaceOk(s.t, p);
    if s.t[p].waitCount > 0 {
      forall x | x in s.asleep
        ensures HasReason(r.t, s.asleep[x]) <==> KeepsReason(s.t, p, s.asleep[x])
      {
        ReasonAfterEnd(s.t, p, code, s.asleep[x], Adopted(s.t, p), r.t);
      }
    }
  }

  /** Giving up a creation wakes nobody: who sleeps for any child loses the reason if it was the only one. */
  lemma ReasonAfterUndo(t: Table, p: int, self: int)
    requires Inv(t) && p in t && p != KERNEL && !t[p].zombie && t[p].childs == [] && HasReason(t, self)
    ensures t[p].ppid in t
    ensures HasReason(Undone(t, t[p].ppid, p), self) <==> !(self == t[p].ppid && t[self].childs == [p])
  {
    assert PlaceOk(t, p);
    assert ListsOk(t, self);
    OnlyOne(t[self].childs, p);
  }

  lemma OnlyOne(s: seq<int>, p: int)
    requires Distinct(s) && s != []
    ensures Without(s, p) == [] <==> s == [p]
  {
    WithoutFacts(s, p);
    if s == [p] {
      assert Without(s[1..], p) == [];
    } else if s[0] == p {
      assert s[1] in s && s[1] != p;
    } else {
      assert s[0] in s;
    }
  }

  lemma SleepersOkAfterUndoIff<T>(s: State<T>, p: int)
    requires Good(s) && SleepersOk(s) && Enabled(s, Undo(p))
    ensures SleepersOk(Next(s, Undo(p))) <==>
      forall x :: x in s.asleep ==> !(s.asleep[x] == s.making[p] && s.t[s.asleep[x]].childs == [p])
  {
    NoChilds(s.t, p);
    ParentKnown(s.t, p);
    forall x | x in s.asleep
      ensures HasReason(Next(s, Undo(p)).t, s.asleep[x]) <==> !(s.asleep[x] == s.making[p] && s.t[s.asleep[x]].childs == [p])
    {
      ReasonAfterUndo(s.t, p, s.asleep[x]);
    }
  }

  lemma NoChilds(t: Table, p: int)
    requires Inv(t) && p in t && NoChildren(t, p)
    ensures t[p].childs == []
  {
    if t[p].childs != [] { ChildOf(t, p, t[p].childs[0]); }
  }

  lemma ChildOf(t: Table, p: int, c: int)
    requires Inv(t) && p in t && c in t[p].childs
    ensures c in t && c != KERNEL && t[c].ppid == p
  {
    assert ListsOk(t, p);
  }

  /** The steps after which nobody sleeps for nothing. */
  ghost predicate KeepsReasons<T>(s: State<T>, a: Action<T>)
    requires Good(s) && SleepersOk(s) && Enabled(s, a)
  {
    match a
    case End(p, _) => s.t[p].waitCount == 0 || forall x :: x in s.asleep ==> KeepsReason(s.t, p, s.asleep[x])
    case Undo(p) =>
      forall x :: x in s.asleep ==> !(s.asleep[x] == s.making[p] && s.t[s.asleep[x]].childs == [p])
    case _ => true
  }

  /** A step leaves nobody asleep for nothing if and only if it is not one of the two that the code forgets. */
  lemma StepSleepersIff<T>(s: State<T>, a: Action<T>)
    requires Good(s) && SleepersOk(s) && Enabled(s, a)
    ensures SleepersOk(Next(s, a)) <==> KeepsReasons(s, a)
  {
    match a
    case Undo(p) => SleepersOkAfterUndoIff(s, p);
    case End(p, code) => SleepersOkIff(s, p, code);
    case _ => OtherStepsKeepReasons(s, a);
  }

  lemma OtherStepsKeepReasons<T>(s: State<T>, a: Action<T>)
    requires Good(s) && SleepersOk(s) && Enabled(s, a) && !a.Undo? && !a.End?
    ensures SleepersOk(Next(s, a))
  {
    match a
    case Fork(parent, pid) => ReasonsAfterFork(s, parent, pid);
    case Start(pid) =>
    case CollectAny(self) =>
      assert ListsOk(s.t, self);
      ReasonsAfterTake(s, s.t[self].zombies[0]);
    case SleepForAny(x, self) =>
    case WaitFor(x, self, pid) => ReasonsAfterCount(s, pid, 1);
    case Collect(self, pid) => ReasonsAfterTake(s, pid);
    case Return(x) => ReasonsAfterReturn(s, x);
  }

  lemma ReasonsAfterReturn<T>(s: State<T>, x: T)
    requires Good(s) && SleepersOk(s) && Enabled(s, Return(x))
    ensures SleepersOk(Next(s, Return(x)))
  {
    assert WaitOk(s, x);
    ReasonsAfterTake(s, s.waits[x].pid);
    ReasonsAfterCount(s, s.waits[x].pid, -1);
  }

  lemma ReasonsAfterFork<T>(s: State<T>, parent: int, pid: int)
    requires SleepersOk(s) && parent in s.t && pid !in s.t
    ensures forall x :: x in s.asleep ==> HasReason(Create(s.t, parent, pid), s.asleep[x])
  {
  }

  lemma ReasonsAfterCount<T>(s: State<T>, p: int, k: int)
    requires SleepersOk(s) && p in s.t
    ensures forall x :: x in s.asleep ==> HasReason(Counted(s.t, p, k), s.asleep[x])
  {
  }

  lemma ReasonAfterTake(t: Table, p: int, self: int)
    requires Inv(t) && p in t && t[p].zombie && t[p].ppid in t && HasReason(t, self)
    ensures HasReason(Reaped(t, t[p].ppid, p), self)
  {
    assert ListsOk(t, p);
    assert self != p;
  }

  lemma ReasonsAfterTake<T>(s: State<T>, p: int)
    requires Good(s) && SleepersOk(s) && p in s.t && p != KERNEL && s.t[p].zombie
    ensures s.t[p].ppid in s.t
    ensures forall x :: x in s.asleep ==> HasReason(Reaped(s.t, s.t[p].ppid, p), s.asleep[x])
  {
    ParentKnown(s.t, p);
    forall x | x in s.asleep
      ensures HasReason(Reaped(s.t, s.t[p].ppid, p), s.asleep[x])
    {
      ReasonAfterTake(s.t, p, s.asleep[x]);
    }
  }

  ghost predicate AllKeepReasons<T>(s: State<T>, run: seq<Action<T>>)
    requires Good(s) && SleepersOk(s) && Possible(s, run)
    decreases |run|
  {
    run == [] ||
    (KeepsReasons(s, run[0]) && (StepGoodIff(s, run[0]); StepSleepersIff(s, run[0]); AllKeepReasons(Next(s, run[0]), run[1..])))
  }

  /** So in every run without such a step nobody ever sleeps for a child without having one to wait for. */
  lemma {:induction false} RunKeepsReasons<T>(s: State<T>, run: seq<Action<T>>)
    requires Good(s) && SleepersOk(s) && Possible(s, run) && AllKeepReasons(s, run)
    ensures SleepersOk(After(s, run))
    decreases |run|
  {
    if run != [] {
      StepGoodIff(s, run[0]);
      StepSleepersIff(s, run[0]);
      RunKeepsReasons(Next(s, run[0]), run[1..]);
    }
  }
}
