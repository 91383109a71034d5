// The mutex without priority inheritance itself (pthread_private.h): its list is linked
// through records on the stacks of the waiting threads, with a pointer to both ends.

module FastMutexes {
  import opened Common
  import opened FastMutexProtocol

  /** asleep: until it gets a mutex; condWait: until it is woken from a condition variable. */
  class Thread {
    var asleep: bool
    var condWait: bool
    var priority: int
  }

  class WaitingList {
    const thread: Thread
    var next: WaitingList?

    constructor (thread: Thread)
      ensures this.thread == thread && next == null
    {
      this.thread := thread;
      next := null;
    }
  }

  /** Each record is linked to the next one, and the last to nothing. */
  ghost predicate RecordsLinked(s: seq<WaitingList>)
    reads s`next
  {
    && Distinct(s)
    && (forall i :: 0 <= i < |s| - 1 ==> s[i].next == s[i + 1])
    && (s != [] ==> s[|s| - 1].next == null)
  }

  ghost function Threads(s: seq<WaitingList>): (r: seq<Thread>)
    ensures |r| == |s| && forall i :: 0 <= i < |s| ==> r[i] == s[i].thread
  {
    if s == [] then [] else Threads(s[..|s| - 1]) + [s[|s| - 1].thread]
  }

  lemma ThreadsAppend(s: seq<WaitingList>, x: WaitingList)
    ensures Threads(s + [x]) == Threads(s) + [x.thread]
  {
    assert (s + [x])[..|s|] == s;
  }

  ghost function OwnerOption(t: Thread?): Option<Thread>
  {
    if t == null then None else Some(t)
  }

  datatype LockResult = Acquired | Blocked | Deadlock

  class Mutex {
    var owner: Thread?
    var first: WaitingList?
    var last: WaitingList?
    var recursive: int
    ghost var records: seq<WaitingList>

    ghost predicate Valid()
      reads this, records
    {
      && RecordsLinked(records)
      && (records == [] ==> first == null)
      && (records != [] ==> first == records[0] && last == records[|records| - 1])
      && (owner == null ==> records == [])
    }

    ghost function View(): FastMutex<Thread>
      reads this
    {
      FastMutex(OwnerOption(owner), recursive, Threads(records))
    }

    constructor (isRecursive: bool)
      ensures Valid() && View() == FastMutex(None, if isRecursive then 0 else -1, [])
    {
      owner, first, last, records := null, null, null, [];
      recursive := if isRecursive then 0 else -1;
    }

    /** The record goes to the end of the list. */
    method Enqueue(w: WaitingList)
      requires Valid() && owner != null && w !in records && w.next == null
      modifies this`first, this`last, this`records, last
      ensures Valid() && View() == Queued(old(View()), w.thread)
    {
      ThreadsAppend(records, w);
      if first == null {
        first := w;
        last := w;
      } else {
        last.next := w;
        last := w;
      }
      records := records + [w];
    }

    /** Lock, up to the point where the caller is the owner, or sleeps, or has stopped the system. */
    method IRQdoMutexLock(p: Thread, w: WaitingList) returns (r: LockResult)
      requires Valid() && w !in records && w.next == null && w.thread == p
      modifies this, last, p`asleep
      ensures Valid() && r == (if Grantable(old(View()), p) then Acquired else if old(owner) == p then Deadlock else Blocked)
      ensures r == Acquired ==> View() == Granted(old(View()), p)
      ensures r == Acquired ==> owner == p && recursive == old(recursive) + if old(owner) == p then 1 else 0
      ensures r == Blocked ==> View() == Queued(old(View()), p)
      ensures r == Deadlock ==> View() == old(View())
      ensures p.asleep == (r == Blocked || old(p.asleep))
    {
      if owner == null {
        owner := p;
        return Acquired;
      }
      if owner == p {
        if recursive < 0 { return Deadlock; }
        recursive := recursive + 1;
        return Acquired;
      }
      Enqueue(w);
      p.asleep := true;
      return Blocked;
    }

    method IRQdoMutexLockToDepth(p: Thread, w: WaitingList, depth: nat) returns (r: LockResult)
      requires Valid() && w !in records && w.next == null && w.thread == p
      modifies this, last, p`asleep
      ensures Valid() && r == (if Grantable(old(View()), p) then Acquired else if old(owner) == p then Deadlock else Blocked)
      ensures r == Acquired ==> View() == GrantedAt(old(View()), p, depth)
      ensures r == Blocked ==> View() == Queued(old(View()), p)
      ensures r == Deadlock ==> View() == old(View())
      ensures p.asleep == (r == Blocked || old(p.asleep))
    {
      if owner == null {
        owner := p;
        if recursive >= 0 { recursive := depth; }
        return Acquired;
      }
      if owner == p {
        if recursive < 0 { return Deadlock; }
        recursive := depth;
        return Acquired;
      }
      Enqueue(w);
      p.asleep := true;
      return Blocked;
    }

    method TryLock(p: Thread) returns (locked: bool)
      requires Valid()
      modifies this`owner, this`recursive
      ensures Valid() && locked == Grantable(old(View()), p)
      ensures View() == if locked then Granted(old(View()), p) else old(View())
      ensures locked ==> owner == p && recursive == old(recursive) + if old(owner) == p then 1 else 0
    {
      if owner == null {
        owner := p;
        return true;
      }
      if owner == p && recursive >= 0 {
        recursive := recursive + 1;
        return true;
      }
      return false;
    }

    /** The first of the list becomes the owner and is woken, or nobody does. */
    method PassOn() returns (t: Thread?)
      requires Valid()
      modifies this`owner, this`first, this`records, (if first == null then {} else {first.thread})`asleep
      ensures Valid() && View() == Passed(old(View())) && t == owner
      ensures t != null ==> !t.asleep
    {
      if first != null {
        t := first.thread;
        t.asleep := false;
        owner := first.thread;
        ThreadsTail(records);
        if |records| > 1 { assert records[0].next == records[1]; }
        first := first.next;
        records := records[1..];
        return t;
      }
      owner := null;
      return null;
    }

    /** True if the thread that gets the mutex has a higher priority. */
    method IRQdoMutexUnlock(cur: Thread) returns (outranked: bool)
      requires Valid()
      modifies this, (if first == null then {} else {first.thread})`asleep
      ensures Valid() && View() == Unlocked(old(View()))
      ensures old(recursive) <= 0 && owner != null ==> !owner.asleep && (outranked <==> cur.priority < owner.priority)
      ensures old(recursive) > 0 || owner == null ==> !outranked
    {
      if recursive > 0 {
        recursive := recursive - 1;
        return false;
      }
      var t := PassOn();
      return t != null && cur.priority < t.priority;
    }

    method IRQdoMutexUnlockAllDepthLevels(cur: Thread) returns (depth: nat)
      requires Valid()
      modifies this, (if first == null then {} else {first.thread})`asleep
      ensures Valid() && View() == UnlockedAll(old(View())) && depth == DepthOf(old(View()))
      ensures owner != null ==> !owner.asleep
    {
      var t := PassOn();
      if recursive < 0 { return 0; }
      depth := recursive;
      recursive := 0;
    }
  }

  lemma ThreadsTail(s: seq<WaitingList>)
    requires s != []
    ensures Threads(s)[1..] == Threads(s[1..]) && Threads(s)[0] == s[0].thread
  {
  }
}
