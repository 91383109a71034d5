// The condition variable itself (sync.h, sync.cpp): a list linked through records on the
// stacks of the waiting threads, taken off from the front.

module ConditionVariables {
  import opened Common
  import opened FastMutexes

  class ConditionVariable {
    var first: WaitingList?
    var last: WaitingList?
    ghost var records: seq<WaitingList>

    ghost predicate Valid()
      reads this, records
    {
      && RecordsLinked(records)
      && (records == [] ==> first == null)
      && (records != [] ==> first == records[0] && last == records[|records| - 1])
    }

    /** The threads that wait, the first to have come first. */
    ghost function Waiters(): seq<Thread>
      reads this
    {
      Threads(records)
    }

    constructor ()
      ensures Valid() && Waiters() == []
    {
      first, last, records := null, null, [];
    }

    /** Wait, up to where the caller gives the mutex up. */
    method StartWait(w: WaitingList)
      requires Valid() && w !in records && w.next == null
      modifies this, last, w.thread`condWait
      ensures Valid() && Waiters() == old(Waiters()) + [w.thread] && records == old(records) + [w]
      ensures w.thread.condWait
    {
      ThreadsAppend(records, w);
      if first == null {
        first := w;
        last := w;
      } else {
        last.next := w;
        last := w;
      }
      records := records + [w];
      w.thread.condWait := true;
    }

    /** The first record goes off the list, and its thread may go on. */
    method WakeFirst(cur: Thread) returns (higher: bool)
      requires Valid() && first != null
      modifies this`first, this`records, first.thread`condWait
      ensures Valid() && records == old(records)[1..] && last == old(last) && |old(Waiters())| > 0
      ensures Waiters() == old(Waiters())[1..] && old(Waiters())[0] == old(first.thread) && !old(first.thread).condWait
      ensures higher <==> cur.priority < old(first.thread).priority
    {
      ThreadsTail(records);
      first.thread.condWait := false;
      higher := cur.priority < first.thread.priority;
      if |records| > 1 { assert records[0].next == records[1]; }
      first := first.next;
      records := records[1..];
    }

    /** Wakes the thread that has waited longest, if any waits, and no other; true if it outranks the caller. */
    method Signal(cur: Thread) returns (hppw: bool)
      requires Valid()
      modifies this`first, this`records, (if first == null then {} else {first.thread})`condWait
      ensures Valid()
      ensures old(Waiters()) == [] ==> Waiters() == [] && !hppw
      ensures old(Waiters()) != [] ==>
                && Waiters() == old(Waiters())[1..] && !old(Waiters())[0].condWait
                && (hppw <==> cur.priority < old(Waiters())[0].priority)
    {
      if first == null { return false; }
      hppw := WakeFirst(cur);
    }

    /** One turn of the loop of broadcast, after k threads. */
    method WakeNext(cur: Thread, hppw: bool, ghost all: seq<Thread>, ghost k: nat) returns (r: bool)
      requires Valid() && first != null && k <= |all| && Waiters() == all[k..] && Woken(cur, all, k, hppw)
      modifies this`first, this`records, first.thread`condWait
      ensures Valid() && records == old(records)[1..]
      ensures k + 1 <= |all| && Waiters() == all[k + 1..] && Woken(cur, all, k + 1, r)
    {
      var higher := WakeFirst(cur);
      r := hppw || higher;
    }

    /** Wakes all the threads that wait; true if one of them outranks the caller. */
    method Broadcast(cur: Thread) returns (hppw: bool)
      requires Valid()
      modifies this`first, this`records, Waiters()`condWait
      ensures Valid() && Waiters() == []
      ensures forall t :: t in old(Waiters()) ==> !t.condWait
      ensures hppw <==> exists t :: t in old(Waiters()) && cur.priority < t.priority
    {
      hppw := false;
      ghost var all := Waiters();
      ghost var k := 0;
      while first != null
        invariant Valid() && k <= |all| && Waiters() == all[k..] && Woken(cur, all, k, hppw)
        decreases |records|
      {
        hppw := WakeNext(cur, hppw, all, k);
        k := k + 1;
      }
    }
  }

  /** The first k of the threads have been woken, and whether one of them outranks cur. */
  ghost predicate Woken(cur: Thread, all: seq<Thread>, k: nat, outranked: bool)
    requires k <= |all|
    reads cur, all
  {
    && (forall i :: 0 <= i < k ==> !all[i].condWait)
    && (outranked <==> exists i :: 0 <= i < k && cur.priority < all[i].priority)
  }
}
