// The list of sleeping threads (kernel.cpp), sorted by wakeup time, on the intrusive list.

module SleepingLists {
  import opened IntrusiveLists

  class Thread {
    var priority: int
    var sleeping: bool
  }

  /** p is null only in the record of a scheduler, which no wakeup removes. */
  datatype Sleep = Sleep(wakeupTime: int, p: Thread?)

  predicate Due(x: Sleep, now: int)
  {
    x.wakeupTime <= now && x.p != null
  }

  ghost function Sleeper(x: Sleep): set<Thread>
  {
    if x.p == null then {} else {x.p}
  }

  ghost predicate Sorted(s: seq<Item<Sleep>>)
  {
    forall i, j :: 0 <= i < j < |s| ==> s[i].payload.wakeupTime <= s[j].payload.wakeupTime
  }

  /** The items that a wakeup at time now leaves, in their order. */
  ghost function Kept(s: seq<Item<Sleep>>, now: int): seq<Item<Sleep>>
  {
    if s == [] then []
    else
      var last := s[|s| - 1];
      Kept(s[..|s| - 1], now) + if Due(last.payload, now) then [] else [last]
  }

  /** The threads that a wakeup at time now wakes. */
  ghost function DueThreads(s: seq<Item<Sleep>>, now: int): set<Thread>
  {
    if s == [] then {}
    else
      var last := s[|s| - 1].payload;
      DueThreads(s[..|s| - 1], now) + if Due(last, now) then {last.p} else {}
  }

  lemma {:induction false} DueThreadsExactly(s: seq<Item<Sleep>>, now: int, t: Thread)
    ensures t in DueThreads(s, now) <==> exists x :: x in s && x.payload.p == t && x.payload.wakeupTime <= now
  {
    if s != [] {
      assert s == s[..|s| - 1] + [s[|s| - 1]];
      DueThreadsExactly(s[..|s| - 1], now, t);
    }
  }

  lemma {:induction false} NobodyDue(s: seq<Item<Sleep>>, t: seq<Item<Sleep>>, now: int)
    requires forall x :: x in t ==> !Due(x.payload, now)
    ensures DueThreads(s + t, now) == DueThreads(s, now)
    decreases |t|
  {
    if t == [] {
      assert s + t == s;
    } else {
      var k := |t| - 1;
      assert (s + t)[..|s + t| - 1] == s + t[..k] && (s + t)[|s + t| - 1] == t[k];
      NobodyDue(s, t[..k], now);
    }
  }

  lemma {:induction false} KeptNone(s: seq<Item<Sleep>>, t: seq<Item<Sleep>>, now: int)
    requires forall x :: x in t ==> !Due(x.payload, now)
    ensures Kept(s + t, now) == Kept(s, now) + t
    decreases |t|
  {
    if t == [] {
      assert s + t == s;
    } else {
      var k := |t| - 1;
      assert (s + t)[..|s + t| - 1] == s + t[..k] && (s + t)[|s + t| - 1] == t[k];
      KeptNone(s, t[..k], now);
      assert t == t[..k] + [t[k]];
    }
  }

  lemma SortedAppend(s: seq<Item<Sleep>>, last: Item<Sleep>)
    requires Sorted(s) && forall x :: x in s ==> x.payload.wakeupTime <= last.payload.wakeupTime
    ensures Sorted(s + [last])
  {
  }

  /** Nobody who is due stays, and nobody else goes. */
  lemma {:induction false} KeptExactly(s: seq<Item<Sleep>>, now: int)
    ensures forall x :: x in Kept(s, now) ==> x in s && !Due(x.payload, now)
    ensures forall x :: x in s && !Due(x.payload, now) ==> x in Kept(s, now)
  {
    if s != [] {
      var k := |s| - 1;
      assert s == s[..k] + [s[k]];
      KeptExactly(s[..k], now);
    }
  }

  lemma {:induction false} KeptSorted(s: seq<Item<Sleep>>, now: int)
    requires Sorted(s)
    ensures Sorted(Kept(s, now))
  {
    if s != [] {
      var k := |s| - 1;
      KeptSorted(s[..k], now);
      KeptExactly(s[..k], now);
      forall x | x in Kept(s[..k], now)
        ensures x.payload.wakeupTime <= s[k].payload.wakeupTime
      {
        assert x in s[..k];
        var i :| 0 <= i < |s[..k]| && s[..k][i] == x;
      }
      SortedAppend(Kept(s[..k], now), s[k]);
    }
  }

  /** The first k items are those that wake up before time t. */
  ghost predicate Splits(s: seq<Item<Sleep>>, k: nat, t: int)
  {
    && k <= |s|
    && (forall i :: 0 <= i < k ==> s[i].payload.wakeupTime < t)
    && (forall i :: k <= i < |s| ==> t <= s[i].payload.wakeupTime)
  }

  lemma SortedInsert(s: seq<Item<Sleep>>, k: nat, x: Item<Sleep>)
    requires Sorted(s) && Splits(s, k, x.payload.wakeupTime)
    ensures Sorted(InsertAt(s, k, x))
  {
  }

  /** The first item that does not wake up before time t, or the end. */
  method FirstNotBefore(list: IntrusiveList<Sleep>, t: int) returns (it: Item<Sleep>, ghost k: nat)
    requires list.Valid() && Sorted(list.items)
    ensures Splits(list.items, k, t) && it == list.Node(list.items, k)
  {
    it := list.head;
    k := 0;
    while it != list.emptyListItem && it.payload.wakeupTime < t
      invariant k <= |list.items| && it == list.Node(list.items, k)
      invariant forall i :: 0 <= i < k ==> list.items[i].payload.wakeupTime < t
      decreases |list.items| - k
    {
      list.NodeLinks(list.items, k + 1);
      it := it.next;
      k := k + 1;
    }
  }

  /** Adds a record in front of the first that does not wake up earlier. */
  method IRQaddToSleepingList(list: IntrusiveList<Sleep>, x: Item<Sleep>) returns (ghost k: nat)
    requires list.Valid() && Sorted(list.items) && x !in list.items && x != list.emptyListItem && x.payload.p != null
    modifies list, list.items, list.emptyListItem, x, x.payload.p`sleeping
    ensures list.Valid() && Sorted(list.items) && x.payload.p.sleeping
    ensures Splits(old(list.items), k, x.payload.wakeupTime) && list.items == InsertAt(old(list.items), k, x)
  {
    x.payload.p.sleeping := true;
    if list.head == list.emptyListItem || list.head.payload.wakeupTime >= x.payload.wakeupTime {
      k := 0;
      assert list.items == [] || list.head == list.items[0];
      SortedInsert(list.items, k, x);
      assert InsertAt(list.items, k, x) == [x] + list.items;
      list.PushFront(x);
    } else {
      var it;
      it, k := FirstNotBefore(list, x.payload.wakeupTime);
      SortedInsert(list.items, k, x);
      list.Insert(it, x, k);
    }
  }

  lemma KeptStep(s: seq<Item<Sleep>>, j: nat, now: int)
    requires j < |s|
    ensures Kept(s[..j + 1], now) == Kept(s[..j], now) + if Due(s[j].payload, now) then [] else [s[j]]
    ensures Due(s[j].payload, now) ==> s[j].payload.p in DueThreads(s, now)
    ensures DueThreads(s[..j + 1], now) == DueThreads(s[..j], now) + if Due(s[j].payload, now) then {s[j].payload.p} else {}
  {
    assert s[..j + 1] == s[..j] + [s[j]] && s[..j + 1][..j] == s[..j];
    if Due(s[j].payload, now) { DueThreadsExactly(s, now, s[j].payload.p); }
  }

  /** Where the loop of a wakeup is after j records: those kept, and those it has not come to. */
  ghost function Partly(s: seq<Item<Sleep>>, j: nat, now: int): seq<Item<Sleep>>
    requires j <= |s|
  {
    Kept(s[..j], now) + s[j..]
  }

  lemma PartlyStep(s: seq<Item<Sleep>>, j: nat, now: int)
    requires j < |s|
    ensures var k := |Kept(s[..j], now)|;
      && k < |Partly(s, j, now)| && Partly(s, j, now)[k] == s[j]
      && if Due(s[j].payload, now)
         then Partly(s, j + 1, now) == RemoveAt(Partly(s, j, now), k) && |Kept(s[..j + 1], now)| == k
         else Partly(s, j + 1, now) == Partly(s, j, now) && |Kept(s[..j + 1], now)| == k + 1
  {
    KeptStep(s, j, now);
  }

  /** Nobody from the j-th on is due. */
  lemma RestKept(s: seq<Item<Sleep>>, j: nat, now: int)
    requires Sorted(s) && j <= |s| && (j < |s| ==> now < s[j].payload.wakeupTime)
    ensures Partly(s, j, now) == Kept(s, now) && DueThreads(s[..j], now) == DueThreads(s, now)
  {
    assert s == s[..j] + s[j..];
    forall x | x in s[j..]
      ensures !Due(x.payload, now)
    {
      var i :| 0 <= i < |s[j..]| && s[j..][i] == x;
      assert s[j + i] == x;
    }
    KeptNone(s[..j], s[j..], now);
    NobodyDue(s[..j], s[j..], now);
  }

  /** What a wakeup does with the k-th record, whose time has come: higher if its thread outranks the current one. */
  method WakeOne(list: IntrusiveList<Sleep>, it: Item<Sleep>, ghost k: nat, cur: Thread)
    returns (next: Item<Sleep>, higher: bool)
    requires list.Valid() && k < |list.items| && it == list.items[k]
    modifies list, list.items, list.emptyListItem, Sleeper(it.payload)`sleeping
    ensures list.Valid() && list.items == if it.payload.p == null then old(list.items) else RemoveAt(old(list.items), k)
    ensures next == list.Node(list.items, if it.payload.p == null then k + 1 else k)
    ensures it.payload.p != null ==> !it.payload.p.sleeping
    ensures higher <==> it.payload.p != null && cur.priority < it.payload.p.priority
  {
    list.NodeLinks(list.items, k + 1);
    if it.payload.p == null { return it.next, false; }
    it.payload.p.sleeping := false;
    higher := cur.priority < it.payload.p.priority;
    next := list.Erase(it, k);
  }

  /** The iterator of a wakeup has passed the first j of the records s. */
  ghost predicate Midway(list: IntrusiveList<Sleep>, it: Item<Sleep>, s: seq<Item<Sleep>>, j: nat, now: int)
    reads list, list.items, list.emptyListItem
  {
    && list.Valid() && j <= |s| && list.items == Partly(s, j, now)
    && it == list.Node(list.items, |Kept(s[..j], now)|)
  }

  /** Threads that have been woken, and whether one of them outranks a priority. */
  ghost predicate Woken(ts: set<Thread>, priority: int, higher: bool)
    reads ts
  {
    (forall t :: t in ts ==> !t.sleeping) && (higher <==> exists t :: t in ts && priority < t.priority)
  }

  lemma {:induction false} DuePrefix(s: seq<Item<Sleep>>, j: nat, now: int)
    requires j <= |s|
    ensures DueThreads(s[..j], now) <= DueThreads(s, now)
  {
    if j < |s| {
      DuePrefix(s[..|s| - 1], j, now);
      assert s[..|s| - 1][..j] == s[..j];
    } else {
      assert s[..j] == s;
    }
  }

  lemma WokenMore(ts: set<Thread>, t: Thread, priority: int, before: bool)
    requires Woken(ts, priority, before) && !t.sleeping
    ensures Woken(ts + {t}, priority, before || priority < t.priority)
  {
    if priority < t.priority { assert t in ts + {t}; }
    if before {
      var u :| u in ts && priority < u.priority;
      assert u in ts + {t};
    }
  }

  /** Wakes the thread of the k-th record; ts are the threads woken before. */
  method WakeAlso(list: IntrusiveList<Sleep>, it: Item<Sleep>, ghost k: nat, cur: Thread, before: bool, ghost ts: set<Thread>)
    returns (next: Item<Sleep>, higher: bool)
    requires list.Valid() && k < |list.items| && it == list.items[k] && Woken(ts, cur.priority, before)
    modifies list, list.items, list.emptyListItem, Sleeper(it.payload)`sleeping
    ensures list.Valid() && list.items == if it.payload.p == null then old(list.items) else RemoveAt(old(list.items), k)
    ensures next == list.Node(list.items, if it.payload.p == null then k + 1 else k)
    ensures Woken(ts + Sleeper(it.payload), cur.priority, higher)
  {
    next, higher := WakeOne(list, it, k, cur);
    assert Woken(ts, cur.priority, before);
    if it.payload.p != null {
      WokenMore(ts, it.payload.p, cur.priority, before);
    } else {
      assert ts + {} == ts;
    }
    higher := higher || before;
  }

  method WakeStep(list: IntrusiveList<Sleep>, it: Item<Sleep>, ghost s: seq<Item<Sleep>>, ghost j: nat, now: int, cur: Thread, before: bool,
                  ghost threads: set<Thread>)
    returns (next: Item<Sleep>, higher: bool)
    requires Waking(list, it, s, j, now, cur.priority, before) && DueThreads(s, now) <= threads
    requires it != list.emptyListItem && it.payload.wakeupTime <= now
    modifies list, s, list.emptyListItem, DueThreads(s, now)`sleeping
    ensures j < |s| && Waking(list, next, s, j + 1, now, cur.priority, higher)
  {
    NextRecord(list, it, s, j, now);
    DuePrefix(s, j, now);
    DuePrefix(s, j + 1, now);
    ghost var ts := set t | t in threads && t in DueThreads(s[..j], now);
    assert ts == DueThreads(s[..j], now);
    assert DueThreads(s[..j + 1], now) == ts + Sleeper(it.payload);
    next, higher := WakeAlso(list, it, |Kept(s[..j], now)|, cur, before, ts);
  }

  /** Wakes the threads that are due; true if one of them has a higher priority than the current thread. */
  method IRQwakeThreads(list: IntrusiveList<Sleep>, currentTime: int, cur: Thread, ghost threads: set<Thread>)
    returns (result: bool, ghost woken: set<Thread>)
    requires list.Valid() && Sorted(list.items) && DueThreads(list.items, currentTime) <= threads
    modifies list, list.items, list.emptyListItem, DueThreads(list.items, currentTime)`sleeping
    ensures list.Valid() && list.items == Kept(old(list.items), currentTime) && Sorted(list.items)
    ensures woken == DueThreads(old(list.items), currentTime) && Woken(woken, cur.priority, result)
  {
    AtStart(list, currentTime);
    ghost var s := list.items;
    if list.head == list.emptyListItem { return false, {}; }
    result := WakeDue(list, list.head, s, currentTime, cur, threads);
    woken := DueThreads(s, currentTime);
  }

  /** The loop of a wakeup, from the first record on. */
  method WakeDue(list: IntrusiveList<Sleep>, first: Item<Sleep>, ghost s: seq<Item<Sleep>>, currentTime: int, cur: Thread,
                 ghost threads: set<Thread>) returns (result: bool)
    requires Waking(list, first, s, 0, currentTime, cur.priority, false) && Sorted(s) && DueThreads(s, currentTime) <= threads
    modifies list, s, list.emptyListItem, DueThreads(s, currentTime)`sleeping
    ensures list.Valid() && list.items == Kept(s, currentTime) && Sorted(list.items)
    ensures Woken(DueThreads(s, currentTime), cur.priority, result)
  {
    var it := first;
    ghost var j := 0;
    result := false;
    while it != list.emptyListItem
      invariant Waking(list, it, s, j, currentTime, cur.priority, result)
      decreases |s| - j
    {
      if currentTime < it.payload.wakeupTime { break; }
      it, result := WakeStep(list, it, s, j, currentTime, cur, result, threads);
      j := j + 1;
    }
    Finished(list, it, s, j, currentTime);
  }

  /** A wakeup has dealt with the first j of the records s. */
  ghost predicate Waking(list: IntrusiveList<Sleep>, it: Item<Sleep>, s: seq<Item<Sleep>>, j: nat, now: int, priority: int, higher: bool)
    reads list, list.items, list.emptyListItem, DueThreads(s, now)
  {
    Midway(list, it, s, j, now) && DueThreads(s[..j], now) <= DueThreads(s, now) && Woken(DueThreads(s[..j], now), priority, higher)
  }

  /** The iterator is at the end, or at a record whose time has not come. */
  lemma Finished(list: IntrusiveList<Sleep>, it: Item<Sleep>, s: seq<Item<Sleep>>, j: nat, now: int)
    requires Midway(list, it, s, j, now) && Sorted(s)
    requires it == list.emptyListItem || now < it.payload.wakeupTime
    ensures list.items == Kept(s, now) && Sorted(list.items) && DueThreads(s[..j], now) == DueThreads(s, now)
  {
    if it == list.emptyListItem { AtEnd(list, it, s, j, now); } else { NextRecord(list, it, s, j, now); }
    RestKept(s, j, now);
    KeptSorted(s, now);
  }

  lemma AtStart(list: IntrusiveList<Sleep>, now: int)
    requires list.Valid()
    ensures Midway(list, list.head, list.items, 0, now) && DueThreads(list.items[..0], now) == {}
    ensures list.head == list.emptyListItem ==> list.items == [] && Kept(list.items, now) == [] && DueThreads(list.items, now) == {}
  {
    assert list.items[..0] == [];
  }

  /** The iterator is at the j-th of the records that the wakeup started from. */
  lemma NextRecord(list: IntrusiveList<Sleep>, it: Item<Sleep>, s: seq<Item<Sleep>>, j: nat, now: int)
    requires Midway(list, it, s, j, now) && it != list.emptyListItem
    ensures j < |s| && it == s[j] && forall i :: 0 <= i < |list.items| ==> list.items[i] in s
    ensures DueThreads(s[..j + 1], now) == DueThreads(s[..j], now) + if Due(s[j].payload, now) then {s[j].payload.p} else {}
    ensures Due(s[j].payload, now) ==> s[j].payload.p in DueThreads(s, now)
    ensures var k := |Kept(s[..j], now)|;
      && k < |list.items| && list.items[k] == s[j]
      && if Due(s[j].payload, now)
         then Partly(s, j + 1, now) == RemoveAt(list.items, k) && |Kept(s[..j + 1], now)| == k
         else Partly(s, j + 1, now) == list.items && |Kept(s[..j + 1], now)| == k + 1
  {
    if j < |s| {
      PartlyStep(s, j, now);
      KeptStep(s, j, now);
    }
    PartlyWithin(s, j, now);
  }

  lemma PartlyWithin(s: seq<Item<Sleep>>, j: nat, now: int)
    requires j <= |s|
    ensures forall i :: 0 <= i < |Partly(s, j, now)| ==> Partly(s, j, now)[i] in s
  {
    KeptExactly(s[..j], now);
    var kept := Kept(s[..j], now);
    forall i | 0 <= i < |Partly(s, j, now)|
      ensures Partly(s, j, now)[i] in s
    {
      if i < |kept| { assert kept[i] in kept; }
    }
  }

  lemma AtEnd(list: IntrusiveList<Sleep>, it: Item<Sleep>, s: seq<Item<Sleep>>, j: nat, now: int)
    requires Midway(list, it, s, j, now) && it == list.emptyListItem
    ensures j == |s|
  {
    if j < |s| { PartlyStep(s, j, now); }
  }
}
