// In which order waitpid for any child collects them (process.cpp): the child that ended
// first, except among those that the kernel has taken over.

module ProcessOrder {
  import opened Common
  import opened ProcessTable
  import opened ProcessProtocol

  /** How many processes have ended, and for each pid which end was the last of a process of that pid. */
  datatype History = History(count: nat, at: map<int, nat>)

  function Heard<T>(h: History, a: Action<T>): History
  {
    if a.End? then History(h.count + 1, h.at[a.p := h.count]) else h
  }

  function HeardIn<T>(h: History, run: seq<Action<T>>): History
    decreases |run|
  {
    if run == [] then h else HeardIn(Heard(h, run[0]), run[1..])
  }

  /** When a process of pid c ended last; -1 for never. */
  function At(h: History, c: int): int
  {
    if c in h.at then h.at[c] else -1
  }

  /** The first of the list ended first, and so on. */
  ghost predicate InOrder(list: seq<int>, h: History)
  {
    && (forall c :: c in list ==> 0 <= At(h, c) < h.count)
    && (forall i, j :: 0 <= i < j < |list| ==> At(h, list[i]) < At(h, list[j]))
  }

  lemma {:induction false} InOrderWithout(list: seq<int>, h: History, p: int)
    requires InOrder(list, h)
    ensures InOrder(Without(list, p), h)
  {
    if list != [] {
      InOrderTail(list, h);
      InOrderWithout(list[1..], h, p);
      WithoutFacts(list[1..], p);
      var rest := Without(list[1..], p);
      forall c | c in rest
        ensures At(h, list[0]) < At(h, c)
      {
        var j :| 0 <= j < |list[1..]| && list[1..][j] == c;
        assert list[j + 1] == c;
      }
    }
  }

  lemma InOrderTail(list: seq<int>, h: History)
    requires InOrder(list, h) && list != []
    ensures InOrder(list[1..], h)
  {
  }

  /** The process that ends now comes last. */
  lemma InOrderPlus(list: seq<int>, h: History, p: int, h': History)
    requires InOrder(list, h) && p !in list && h' == History(h.count + 1, h.at[p := h.count])
    ensures InOrder(list + [p], h') && InOrder(list, h')
  {
    var r := list + [p];
    forall i, j | 0 <= i < j < |r|
      ensures At(h', r[i]) < At(h', r[j])
    {
      assert r[i] == list[i] && list[i] in list;
      if j < |list| { assert r[j] == list[j] && list[j] in list; }
    }
  }

  /** Every process but the kernel has its zombies in order. */
  ghost predicate Ordered(t: Table, h: History)
  {
    forall q :: q in t && q != KERNEL ==> InOrder(t[q].zombies, h)
  }

  // ----- steps

  lemma EndOrdered(t: Table, p: int, code: int, h: History, o: Table, r: Table)
    requires Inv(t) && p in t && p != KERNEL && !t[p].zombie && Ordered(t, h) && o == Adopted(t, p)
    requires p in o && o[p].ppid in o && o[p].ppid != p && r == Buried(o, p, code)
    ensures Ordered(r, History(h.count + 1, h.at[p := h.count]))
  {
    AdoptedKeys(t, p);
    var h' := History(h.count + 1, h.at[p := h.count]);
    forall q | q in r && q != KERNEL
      ensures InOrder(r[q].zombies, h')
    {
      assert ListsOk(t, q);
      if q != p { InOrderPlus(t[q].zombies, h, p, h'); }
    }
  }

  lemma TakeOrdered(t: Table, parent: int, p: int, h: History)
    requires parent in t && Ordered(t, h)
    ensures Ordered(Reaped(t, parent, p), h)
  {
    if parent != KERNEL { InOrderWithout(t[parent].zombies, h, p); }
  }

  /** No other operation touches the zombies of a process. */
  lemma OtherOrdered(t: Table, r: Table, h: History)
    requires Ordered(t, h) && forall q :: q in r && q != KERNEL ==> r[q].zombies == if q in t then t[q].zombies else []
    ensures Ordered(r, h)
  {
  }

  lemma CreateOrdered(t: Table, parent: int, pid: int, h: History)
    requires parent in t && pid !in t && Ordered(t, h)
    ensures Ordered(Create(t, parent, pid), h)
  {
    OtherOrdered(t, Create(t, parent, pid), h);
  }

  lemma UndoneOrdered(t: Table, parent: int, pid: int, h: History)
    requires parent in t && Ordered(t, h)
    ensures Ordered(Undone(t, parent, pid), h)
  {
    OtherOrdered(t, Undone(t, parent, pid), h);
  }

  lemma CountedOrdered(t: Table, p: int, k: int, h: History)
    requires p in t && Ordered(t, h)
    ensures Ordered(Counted(t, p, k), h)
  {
    OtherOrdered(t, Counted(t, p, k), h);
  }

  lemma ReturnOrdered<T>(s: State<T>, x: T, h: History)
    requires Good(s) && Enabled(s, Return(x)) && Ordered(s.t, h)
    ensures Ordered(Next(s, Return(x)).t, h)
  {
    assert WaitOk(s, x);
    var p := s.waits[x].pid;
    ParentKnown(s.t, p);
    if s.t[p].waitCount > 1 {
      CountedOrdered(s.t, p, -1, h);
    } else {
      TakeOrdered(s.t, s.t[p].ppid, p, h);
    }
  }

  lemma EndStepOrdered<T>(s: State<T>, p: int, code: int, h: History, r: State<T>)
    requires Good(s) && Enabled(s, End(p, code)) && Ordered(s.t, h) && r == Next(s, End(p, code))
    ensures Ordered(r.t, History(h.count + 1, h.at[p := h.count]))
  {
    ParentKnown(s.t, p);
    AdoptedKeys(s.t, p);
    EndOrdered(s.t, p, code, h, Adopted(s.t, p), r.t);
  }

  lemma CollectOrdered<T>(s: State<T>, a: Action<T>, h: History)
    requires Good(s) && Enabled(s, a) && Ordered(s.t, h) && (a.CollectAny? || a.Collect?)
    ensures Ordered(Next(s, a).t, h)
  {
    match a
    case CollectAny(self) =>
      assert ListsOk(s.t, self);
      TakeOrdered(s.t, self, s.t[self].zombies[0], h);
    case Collect(self, pid) =>
      ParentKnown(s.t, pid);
      TakeOrdered(s.t, self, pid, h);
  }

  lemma OtherStepOrdered<T>(s: State<T>, a: Action<T>, h: History)
    requires Good(s) && Enabled(s, a) && Ordered(s.t, h) && !a.End?
    ensures Ordered(Next(s, a).t, h)
  {
    match a
    case Fork(parent, pid) => CreateOrdered(s.t, parent, pid, h);
    case Undo(pid) =>
      ParentKnown(s.t, pid);
      UndoneOrdered(s.t, s.making[pid], pid, h);
    case Start(_) =>
    case SleepForAny(_, _) =>
    case WaitFor(_, _, pid) => CountedOrdered(s.t, pid, 1, h);
    case Return(x) => ReturnOrdered(s, x, h);
    case _ => CollectOrdered(s, a, h);
  }

  lemma StepOrdered<T>(s: State<T>, a: Action<T>, h: History)
    requires Good(s) && Enabled(s, a) && Ordered(s.t, h)
    ensures Ordered(Next(s, a).t, Heard(h, a))
  {
    if a.End? {
      EndStepOrdered(s, a.p, a.code, h, Next(s, a));
    } else {
      OtherStepOrdered(s, a, h);
    }
  }

  // ----- runs

  lemma {:induction false} RunOrdered<T>(s: State<T>, run: seq<Action<T>>, h: History)
    requires Good(s) && Possible(s, run) && Ordered(s.t, h)
    ensures Ordered(After(s, run).t, HeardIn(h, run))
    decreases |run|
  {
    if run != [] {
      StepGoodIff(s, run[0]);
      StepOrdered(s, run[0], h);
      RunOrdered(Next(s, run[0]), run[1..], Heard(h, run[0]));
    }
  }

  /** c has ended and is self's child, and nobody waits for it in particular. */
  ghost predicate Collectable(t: Table, self: int, c: int)
  {
    c in t && c != KERNEL && t[c].ppid == self && t[c].zombie && t[c].waitCount == 0
  }

  /** The first zombie is the child to be collected that ended first. */
  lemma FirstIsOldest(t: Table, self: int, h: History)
    requires Inv(t) && self in t && t[self].zombies != [] && InOrder(t[self].zombies, h)
    ensures var c := t[self].zombies[0];
      && Collectable(t, self, c) && 0 <= At(h, c)
      && forall d :: Collectable(t, self, d) && d != c ==> At(h, c) < At(h, d)
  {
    assert ListsOk(t, self);
    var z := t[self].zombies;
    forall d | Collectable(t, self, d) && d != z[0]
      ensures At(h, z[0]) < At(h, d)
    {
      assert PlaceOk(t, d);
      var j :| 0 <= j < |z| && z[j] == d;
    }
  }

  /** c is what collecting any child of self takes, and ended before all others that may be collected. */
  ghost predicate TakesOldest<T>(s: State<T>, self: int, c: int, h: History)
    requires Good(s) && Enabled(s, CollectAny(self))
  {
    && Collectable(s.t, self, c) && Next(s, CollectAny(self)).t.Keys == s.t.Keys - {c} && 0 <= At(h, c)
    && forall d :: Collectable(s.t, self, d) && d != c ==> At(h, c) < At(h, d)
  }

  lemma OrderedTakesOldest<T>(s: State<T>, self: int, h: History) returns (c: int)
    requires Good(s) && Enabled(s, CollectAny(self)) && self != KERNEL && Ordered(s.t, h)
    ensures TakesOldest(s, self, c, h)
  {
    assert ListsOk(s.t, self);
    FirstIsOldest(s.t, self, h);
    c := s.t[self].zombies[0];
  }

  /**
   * From a state in which nothing has ended, in every run: what a process other than the kernel gets when
   * it waits for any child is the one that ended first of those that it may collect.
   */
  lemma OldestFirst<T>(s: State<T>, run: seq<Action<T>>, r: State<T>, self: int) returns (c: int)
    requires Good(s) && (forall q :: q in s.t ==> s.t[q].zombies == []) && Possible(s, run) && r == After(s, run)
    requires Enabled(r, CollectAny(self)) && self != KERNEL
    ensures TakesOldest(r, self, c, HeardIn(History(0, map[]), run))
  {
    RunOrdered(s, run, History(0, map[]));
    c := OrderedTakesOldest(r, self, HeardIn(History(0, map[]), run));
  }

  /**
   * The zombies of a process that ends are put before the kernel's own: they stay in the order of their
   * ends if and only if one of the lists is empty, or the last of the first ended before the first of the other.
   */
  lemma KernelOrderIff(t: Table, p: int, h: History)
    requires Inv(t) && p in t && p != KERNEL && !t[p].zombie && InOrder(t[p].zombies, h) && InOrder(t[KERNEL].zombies, h)
    ensures var z, k := t[p].zombies, t[KERNEL].zombies;
      InOrder(Adopted(t, p)[KERNEL].zombies, h) <==> z == [] || k == [] || At(h, z[|z| - 1]) < At(h, k[0])
  {
    var z, k := t[p].zombies, t[KERNEL].zombies;
    var b := z + k;
    AdoptedKeys(t, p);
    assert Adopted(t, p)[KERNEL].zombies == b;
    if z != [] && k != [] {
      assert b[|z| - 1] == z[|z| - 1] && b[|z|] == k[0];
      if At(h, z[|z| - 1]) < At(h, k[0]) {
        forall i, j | 0 <= i < j < |b|
          ensures At(h, b[i]) < At(h, b[j])
        {
          if i < |z| <= j { BothSides(z, k, h, i, j - |z|); }
        }
      }
    } else {
      assert b == if z == [] then k else z;
    }
  }

  lemma BothSides(z: seq<int>, k: seq<int>, h: History, i: nat, j: nat)
    requires InOrder(z, h) && InOrder(k, h) && i < |z| && j < |k| && At(h, z[|z| - 1]) < At(h, k[0])
    ensures At(h, z[i]) < At(h, k[j])
  {
  }

  /** p is alive with a zombie b, and the kernel has a zombie d. */
  ghost predicate TwoZombies(t: Table, p: int, b: int, d: int)
  {
    && p != KERNEL && b != KERNEL && d != KERNEL && p != b && p != d && b != d
    && t == map[KERNEL := Process(KERNEL, [p], [d], 0, false, 0), p := Process(KERNEL, [], [b], 0, false, 0),
                b := Process(p, [], [], 0, true, 0), d := Process(KERNEL, [], [], 0, true, 0)]
  }

  lemma TwoZombiesInv(t: Table, p: int, b: int, d: int)
    requires TwoZombies(t, p, b, d)
    ensures Inv(t)
  {
    assert ListsOk(t, KERNEL) && ListsOk(t, p) && ListsOk(t, b) && ListsOk(t, d);
    assert PlaceOk(t, p) && PlaceOk(t, b) && PlaceOk(t, d);
  }

  /** It happens: d ended before b, which its parent p leaves to the kernel when it ends, and the kernel gets b first. */
  lemma KernelTakesLater(t: Table, p: int, b: int, d: int, h: History)
    requires TwoZombies(t, p, b, d) && 0 <= At(h, d) < At(h, b) < h.count
    ensures Inv(t) && InOrder(t[p].zombies, h) && InOrder(t[KERNEL].zombies, h)
    ensures var r := Buried(Adopted(t, p), p, 0);
      Collectable(r, KERNEL, d) && Collectable(r, KERNEL, b) && r[KERNEL].zombies == [b, d, p]
  {
    TwoZombiesInv(t, p, b, d);
    assert Adopted(t, p)[KERNEL].zombies == [b] + [d] && [b] + [d] + [p] == [b, d, p];
  }
}
