// The mutex with priority inheritance (sync.h, sync.cpp) and Thread::setPriority
// (kernel.cpp) on the objects themselves: threads and mutexes linked by pointers,
// a list of locked mutexes threaded through the mutexes, and a heap of waiters.

module Mutexes {
  import opened Common
  import opened Inheritance

  class Thread {
    var priority: int
    var savedPriority: int
    var mutexLocked: Mutex?
    var mutexWaiting: Mutex?
    ghost var held: seq<Mutex>  // the list that starts at mutexLocked

    /** setPriority, called by the thread itself. */
    method SetPriority(requested: int, ghost sys: System) returns (ghost pr: int)
      requires Valid(sys) && this in sys.threads && mutexWaiting == null
      modifies this`priority, this`savedPriority
      ensures Valid(sys)
      ensures ValidPriority(requested) ==> if old(held) == [] then priority == requested else savedPriority == requested
      ensures View(sys) == var w := old(View(sys));
                if !ValidPriority(requested) || (old(held) != [] && old(savedPriority) == requested) then w
                else Reprioritize(w, this, requested, pr)
      ensures RequestedPriority(old(View(sys)), this, requested, pr)
                || !ValidPriority(requested) || (old(held) != [] && old(savedPriority) == requested)
    {
      if !ValidPriority(requested) { return 0; }
      ghost var w := View(sys);
      ThreadsSeen(w, this, sys);
      LinkedStep(mutexLocked, held);
      var v := requested;
      if mutexLocked != null {
        if savedPriority == requested { return 0; }
        FrontsSeen(w, this, sys);
        savedPriority := requested;
        v := Mutex.InheritedPriority(mutexLocked, requested, held, w);
      }
      pr := v;
      if v != priority { priority := v; }
      PriorityShape(this, sys);
      PriorityView(this, requested, v, sys);
      ReprioritizeInv(w, this, requested, v);
    }
  }

  const PRIORITY_MAX := 64

  predicate ValidPriority(p: int)
  {
    0 <= p < PRIORITY_MAX
  }

  // ----- the library's heap of threads

  function Parent(i: nat): nat
  {
    if i == 0 then 0 else (i - 1) / 2
  }

  ghost predicate IsHeap(s: seq<Thread>)
    reads s`priority
  {
    forall i :: 0 < i < |s| ==> s[i].priority <= s[Parent(i)].priority
  }

  lemma {:induction false} HeapFront(s: seq<Thread>, i: nat)
    requires IsHeap(s) && i < |s|
    ensures s[i].priority <= s[0].priority
    decreases i
  {
    if i > 0 { HeapFront(s, Parent(i)); }
  }

  /** A heap but for the element at i, which may be greater than its ancestors. */
  ghost predicate HeapBut(s: seq<Thread>, i: nat)
    reads s`priority
  {
    && i < |s|
    && (forall j :: 0 < j < |s| && j != i ==> s[j].priority <= s[Parent(j)].priority)
    && (forall j :: 0 < j < |s| && i > 0 && Parent(j) == i ==> s[j].priority <= s[Parent(i)].priority)
  }

  function Swap(s: seq<Thread>, i: nat, j: nat): seq<Thread>
    requires i < |s| && j < |s|
  {
    s[i := s[j]][j := s[i]]
  }

  lemma SwapKeeps(s: seq<Thread>, i: nat, j: nat)
    requires i < |s| && j < |s| && i != j
    ensures multiset(Swap(s, i, j)) == multiset(s)
  {
  }

  lemma SiftUp(s: seq<Thread>, i: nat)
    requires i > 0 && HeapBut(s, i) && s[Parent(i)].priority < s[i].priority
    ensures HeapBut(Swap(s, i, Parent(i)), Parent(i))
  {
    var r := Swap(s, i, Parent(i));
    forall j | 0 < j < |r| && j != Parent(i)
      ensures r[j].priority <= r[Parent(j)].priority
    {
      if Parent(j) == i { assert s[j].priority <= s[Parent(i)].priority; }
    }
  }

  lemma HeapDone(s: seq<Thread>, i: nat)
    requires HeapBut(s, i) && (i > 0 ==> s[i].priority <= s[Parent(i)].priority)
    ensures IsHeap(s)
  {
  }

  lemma HeapAppend(s: seq<Thread>, p: Thread)
    requires IsHeap(s)
    ensures HeapBut(s + [p], |s|)
  {
  }

  /** push_back followed by push_heap. */
  method PushHeap(s: seq<Thread>, p: Thread) returns (r: seq<Thread>)
    requires IsHeap(s)
    ensures IsHeap(r) && multiset(r) == multiset(s) + multiset{p}
  {
    HeapAppend(s, p);
    r := s + [p];
    var i: nat := |s|;
    while i > 0 && r[Parent(i)].priority < r[i].priority
      invariant HeapBut(r, i)
      invariant multiset(r) == multiset(s) + multiset{p}
      decreases i
    {
      SiftUp(r, i);
      SwapKeeps(r, i, Parent(i));
      r, i := Swap(r, i, Parent(i)), Parent(i);
    }
    HeapDone(r, i);
  }

  method MakeHeap(s: seq<Thread>) returns (r: seq<Thread>)
    ensures IsHeap(r) && multiset(r) == multiset(s)
  {
    r := [];
    var i := 0;
    while i < |s|
      invariant 0 <= i <= |s| && IsHeap(r) && multiset(r) == multiset(s[..i])
    {
      assert s[..i + 1] == s[..i] + [s[i]];
      r := PushHeap(r, s[i]);
      i := i + 1;
    }
    assert s[..i] == s;
  }

  /** pop_heap followed by pop_back. */
  method PopHeap(s: seq<Thread>) returns (r: seq<Thread>)
    requires s != []
    ensures IsHeap(r) && multiset(s) == multiset(r) + multiset{s[0]}
  {
    assert s == [s[0]] + s[1..];
    r := MakeHeap(s[1..]);
  }

  ghost predicate NoDuplicates(s: seq<Thread>)
  {
    forall t :: t in s ==> multiset(s)[t] == 1
  }

  // ----- the state of all threads and mutexes

  ghost function ThreadOption(t: Thread?): Option<Thread>
  {
    if t == null then None else Some(t)
  }

  ghost function MutexOption(m: Mutex?): Option<Mutex>
  {
    if m == null then None else Some(m)
  }

  ghost function ViewThread(t: Thread): ThreadState<Mutex>
    reads t
  {
    ThreadState(t.priority, t.savedPriority, t.held, MutexOption(t.mutexWaiting))
  }

  ghost function Members(s: seq<Thread>): set<Thread>
  {
    set t | t in s
  }

  ghost function ViewMutex(m: Mutex): MutexState<Thread>
    reads m
  {
    MutexState(ThreadOption(m.owner), Members(m.waiting), m.recursiveDepth)
  }

  /** All the threads and mutexes there are. */
  datatype System = System(threads: set<Thread>, mutexes: set<Mutex>)

  /** What the objects stand for. */
  ghost function View(sys: System): World<Thread, Mutex>
    reads sys.threads, sys.mutexes
  {
    World((map t | t in sys.threads :: ViewThread(t)), (map m | m in sys.mutexes :: ViewMutex(m)))
  }

  /** Following next from head visits the mutexes of s, and ends. */
  ghost predicate ListLinked(head: Mutex?, s: seq<Mutex>)
    reads s`next
  {
    || (s == [] && head == null)
    || (s != [] && head == s[0] && ListLinked(s[0].next, s[1..]))
  }

  /** The list of the mutexes t has locked. */
  ghost predicate ListOk(t: Thread)
    reads t`mutexLocked, t`held, t.held`next
  {
    ListLinked(t.mutexLocked, t.held)
  }

  ghost predicate QueueOk(m: Mutex)
    reads m`waiting, m.waiting`priority
  {
    NoDuplicates(m.waiting) && IsHeap(m.waiting)
  }

  /** Lists, queues and heaps are well formed. */
  ghost predicate Shape(sys: System)
    reads sys.threads, sys.mutexes
  {
    && (forall t :: t in sys.threads ==> (forall m :: m in t.held ==> m in sys.mutexes) && ListOk(t))
    && (forall m :: m in sys.mutexes ==> (forall t :: t in m.waiting ==> t in sys.threads) && QueueOk(m))
  }

  /** The world has the queues and the priorities of the objects. */
  ghost predicate Sees(w: World<Thread, Mutex>, sys: System)
    reads sys.threads`priority, sys.mutexes`waiting
  {
    && (forall k :: k in sys.mutexes ==> k in w.mtx && w.mtx[k].waiting == Members(k.waiting))
    && (forall t :: t in sys.threads ==> t in w.thr && w.thr[t].pri == t.priority)
  }

  /** Besides, the links between the objects agree, and nobody waits in a circle. */
  ghost predicate Valid(sys: System)
    reads sys.threads, sys.mutexes
  {
    Shape(sys) && Inv(View(sys))
  }

  datatype LockResult = Acquired | Blocked | Deadlock

  class Mutex {
    var owner: Thread?
    var next: Mutex?
    var waiting: seq<Thread>
    var recursiveDepth: int

    /** Makes p the owner of this mutex, which is on no list. */
    method TakeFor(p: Thread, ghost sys: System)
      requires Shape(sys) && p in sys.threads && this in sys.mutexes
      requires forall t :: t in sys.threads ==> this !in t.held
      modifies this`owner, this`next, p`savedPriority, p`mutexLocked, p`held
      ensures Shape(sys) && View(sys) == Take(old(View(sys)), p, this)
    {
      owner := p;
      if p.mutexLocked == null { p.savedPriority := p.priority; }
      next := p.mutexLocked;
      p.mutexLocked := this;
      p.held := [this] + p.held;
      TakeShape(this, p, sys);
      TakeView(this, p, sys);
    }

    /** Puts p in the heap of waiters. */
    method EnqueueThread(p: Thread, ghost sys: System)
      requires Shape(sys) && p in sys.threads && this in sys.mutexes && p !in waiting
      modifies this`waiting, p`mutexWaiting
      ensures Shape(sys) && View(sys) == Enqueue(old(View(sys)), p, this)
    {
      waiting := PushHeap(waiting, p);
      p.mutexWaiting := this;
      EnqueueShape(this, p, sys);
      EnqueueView(this, p, sys);
    }

    /** Gives walk a priority and repairs the heap it waits in. */
    static method RaiseOne(walk: Thread, pp: int, ghost sys: System)
      requires Shape(sys) && walk in sys.threads && (walk.mutexWaiting == null || walk.mutexWaiting in sys.mutexes)
      requires forall m :: m in sys.mutexes && walk in m.waiting ==> walk.mutexWaiting == m
      modifies walk`priority, sys.mutexes`waiting
      ensures Shape(sys) && View(sys) == Raise(old(View(sys)), {walk}, pp)
    {
      walk.priority := pp;
      var m := walk.mutexWaiting;
      if m != null {
        m.waiting := MakeHeap(m.waiting);
      }
      RaiseShape(walk, sys);
      RaiseView(walk, pp, sys);
    }

    /** One step of the walk; done are the threads of world w that have been raised before. */
    static method InheritStep(walk: Thread, pp: int, ghost w: World<Thread, Mutex>, ghost done: set<Thread>, ghost sys: System)
      returns (next: Thread?)
      requires Shape(sys) && Inv(w) && View(sys) == Raise(w, done, pp) && walk in sys.threads && walk in w.thr
      modifies walk`priority, sys.mutexes`waiting
      ensures Shape(sys) && View(sys) == Raise(w, done + {walk}, pp)
      ensures Blocker(w, walk) == ThreadOption(next)
    {
      WalkLinks(w, done, pp, walk, sys);
      RaiseOne(walk, pp, sys);
      RaiseMore(w, done, walk, pp);
      if walk.mutexWaiting == null { return null; }
      return walk.mutexWaiting.owner;
    }

    /** The walk of priority inheritance: from start along the owners of the mutexes waited for. */
    static method InheritAlong(start: Thread, pp: int, ghost sys: System)
      requires Valid(sys) && start in sys.threads
      modifies sys.threads`priority, sys.mutexes`waiting
      ensures Shape(sys) && View(sys) == Raise(old(View(sys)), Chain(old(View(sys)), start), pp)
    {
      ghost var w := View(sys);
      ghost var n := SomeEnd(w, start);
      ghost var done: set<Thread> := {};
      var walk := start;
      RaiseNobody(w, pp);
      while true
        invariant Shape(sys) && walk in sys.threads && Ends(w, walk, n)
        invariant View(sys) == Raise(w, done, pp)
        invariant Chain(w, start) == done + Chain(w, walk)
        decreases n
      {
        WalkOn(w, walk, n, done, Chain(w, start));
        var next := InheritStep(walk, pp, w, done, sys);
        done := done + {walk};
        if next == null { break; }
        walk, n := next, n - 1;
      }
    }

    static lemma WalkOn(w: World<Thread, Mutex>, walk: Thread, n: nat, done: set<Thread>, all: set<Thread>)
      requires Inv(w) && walk in w.thr && Ends(w, walk, n) && all == done + Chain(w, walk)
      ensures var b := Blocker(w, walk);
        if b.None? then all == done + {walk}
        else n > 0 && b.value in w.thr && Ends(w, b.value, n - 1) && all == done + {walk} + Chain(w, b.value)
    {
      ChainUnfolds(w, walk);
      if Blocker(w, walk).Some? { BlockerKnown(w, walk); }
    }

    /** The part of locking that queues p and gives its priority to whom it waits for. */
    method BlockOn(p: Thread, ghost sys: System)
      requires Valid(sys) && p in sys.threads && this in sys.mutexes && owner != null && MayWait(View(sys), p, this)
      modifies sys.threads`priority, sys.mutexes`waiting, p`mutexWaiting
      ensures Valid(sys) && View(sys) == Block(old(View(sys)), p, this)
    {
      ghost var w := View(sys);
      NotQueued(w, p, this, sys);
      EnqueueInv(w, p, this);
      BlockInv(w, p, this);
      BlockChain(w, p, this);
      assert w.mtx[this] == ViewMutex(this);
      assert w.thr[p] == ViewThread(p) && w.thr[owner] == ViewThread(owner);
      EnqueueThread(p, sys);
      if owner.priority < p.priority {
        InheritAlong(owner, p.priority, sys);
      }
    }

    method TakeFree(p: Thread, ghost sys: System)
      requires Valid(sys) && p in sys.threads && this in sys.mutexes && p.mutexWaiting == null && owner == null
      modifies this`owner, this`next, p`savedPriority, p`mutexLocked, p`held
      ensures Valid(sys) && View(sys) == Take(old(View(sys)), p, this) && recursiveDepth == old(recursiveDepth)
    {
      ghost var w := View(sys);
      assert w.thr[p] == ViewThread(p) && w.mtx[this] == ViewMutex(this);
      FreeUnlisted(this, sys);
      TakeInv(w, p, this);
      TakeFor(p, sys);
    }

    method ChangeDepth(depth: int, ghost sys: System)
      requires Valid(sys) && this in sys.mutexes && owner != null && depth >= -1
      modifies this`recursiveDepth
      ensures Valid(sys) && recursiveDepth == depth && View(sys) == SetDepth(old(View(sys)), this, depth)
    {
      DepthInv(View(sys), this, depth, sys);
      recursiveDepth := depth;
      DepthView(this, sys);
    }

    static lemma DepthInv(w: World<Thread, Mutex>, m: Mutex, depth: int, sys: System)
      requires w == View(sys) && Inv(w) && m in sys.mutexes && m.owner != null && depth >= -1
      ensures Inv(SetDepth(w, m, depth))
    {
      assert w.mtx[m] == ViewMutex(m);
      SetDepthInv(w, m, depth);
    }

    /** PKlock, up to the point where the caller waits to be made the owner. */
    method PKlock(p: Thread, ghost sys: System) returns (r: LockResult)
      requires Valid(sys) && p in sys.threads && this in sys.mutexes && p.mutexWaiting == null
      requires owner != null && owner != p ==> MayWait(View(sys), p, this)
      modifies sys.threads`priority, sys.mutexes`waiting, this`owner, this`next, this`recursiveDepth
      modifies p`savedPriority, p`mutexLocked, p`mutexWaiting, p`held
      ensures Valid(sys)
      ensures r == (if old(owner) == null then Acquired else if old(owner) != p then Blocked
                    else if old(recursiveDepth) >= 0 then Acquired else Deadlock)
      ensures View(sys) == var w := old(View(sys));
                if old(owner) == null then Take(w, p, this)
                else if old(owner) != p then Block(w, p, this)
                else if old(recursiveDepth) >= 0 then SetDepth(w, this, old(recursiveDepth) + 1)
                else w
    {
      if owner == null {
        TakeFree(p, sys);
        return Acquired;
      }
      if owner == p {
        if recursiveDepth >= 0 {
          ChangeDepth(recursiveDepth + 1, sys);
          return Acquired;
        } else {
          return Deadlock;
        }
      }
      BlockOn(p, sys);
      return Blocked;
    }

    /** PKlockToDepth, up to the same point. */
    method PKlockToDepth(p: Thread, depth: nat, ghost sys: System) returns (r: LockResult)
      requires Valid(sys) && p in sys.threads && this in sys.mutexes && p.mutexWaiting == null
      requires owner != null && owner != p ==> MayWait(View(sys), p, this)
      modifies sys.threads`priority, sys.mutexes`waiting, this`owner, this`next, this`recursiveDepth
      modifies p`savedPriority, p`mutexLocked, p`mutexWaiting, p`held
      ensures Valid(sys)
      ensures r == (if old(owner) == null then Acquired else if old(owner) != p then Blocked
                    else if old(recursiveDepth) >= 0 then Acquired else Deadlock)
      ensures View(sys) == var w := old(View(sys));
                if old(owner) == null then Restored(Take(w, p, this), this, depth)
                else if old(owner) != p then Block(w, p, this)
                else Restored(w, this, depth)
    {
      if owner == null {
        TakeFree(p, sys);
        assert View(sys).mtx[this] == ViewMutex(this);
        if recursiveDepth >= 0 { ChangeDepth(depth, sys); }
        return Acquired;
      }
      if owner == p {
        assert View(sys).mtx[this] == ViewMutex(this);
        if recursiveDepth >= 0 {
          ChangeDepth(depth, sys);
          return Acquired;
        } else {
          return Deadlock;
        }
      }
      BlockOn(p, sys);
      return Blocked;
    }

    /** The end of PKlockToDepth for a caller that had to wait: by now it is the owner. */
    method FinishLockToDepth(p: Thread, depth: nat, ghost sys: System)
      requires Valid(sys) && this in sys.mutexes && owner == p
      modifies this`recursiveDepth
      ensures Valid(sys) && View(sys) == Restored(old(View(sys)), this, depth)
    {
      assert View(sys).mtx[this] == ViewMutex(this);
      if recursiveDepth >= 0 { ChangeDepth(depth, sys); }
    }

    method PKtryLock(p: Thread, ghost sys: System) returns (locked: bool)
      requires Valid(sys) && p in sys.threads && this in sys.mutexes && p.mutexWaiting == null
      modifies this`owner, this`next, this`recursiveDepth, p`savedPriority, p`mutexLocked, p`held
      ensures Valid(sys)
      ensures locked == (old(owner) == null || (old(owner) == p && old(recursiveDepth) >= 0))
      ensures View(sys) == var w := old(View(sys));
                if old(owner) == null then Take(w, p, this)
                else if locked then SetDepth(w, this, old(recursiveDepth) + 1)
                else w
    {
      if owner == null {
        TakeFree(p, sys);
        return true;
      }
      if owner == p && recursiveDepth >= 0 {
        ChangeDepth(recursiveDepth + 1, sys);
        return true;
      }
      return false;
    }

    /** Finds the mutex before this one on a list and links it to the one after. */
    method SkipAfter(head: Mutex, ghost list: seq<Mutex>)
      requires ListLinked(head, list) && Distinct(list) && list != [] && head != this && this in list
      modifies list`next
      ensures ListLinked(head, Without(list, this))
    {
      LinkedStep(head, list);
      var walk := head;
      ghost var i := 0;
      while true
        invariant 0 <= i < |list| && ListLinked(walk, list[i..]) && this in list[i + 1..]
        invariant forall k :: k in list ==> k.next == old(k.next)
        decreases |list| - i
      {
        LinkedStep(walk, list[i..]);
        LinkedStep(walk.next, list[i + 1..]);
        if walk.next == null { assert false; }  // not on its owner's list
        if walk.next == this {
          walk.next := walk.next.next;
          break;
        }
        walk := walk.next;
        i := i + 1;
      }
      Relinked(list, i);
      WithoutAt(list, i + 1, this);
    }

    /** Removes this mutex from a list; the new head may be another. */
    method UnlinkFrom(head: Mutex?, ghost list: seq<Mutex>) returns (r: Mutex?)
      requires ListLinked(head, list) && Distinct(list) && this in list
      modifies list`next
      ensures ListLinked(r, Without(list, this))
    {
      LinkedStep(head, list);
      if head == this {
        WithoutAt(list, 0, this);
        assert list[..0] + list[1..] == list[1..];
        return head.next;
      }
      SkipAfter(head, list);
      return head;
    }

    /** Takes this mutex off the list of its owner. */
    method Unlist(p: Thread, ghost sys: System)
      requires Shape(sys) && p in sys.threads && this in p.held && Distinct(p.held)
      requires forall t, k :: t in sys.threads && t != p && k in t.held ==> k !in p.held
      modifies p`mutexLocked, p`held, p.held`next
      ensures Shape(sys) && View(sys) == Unlisted(old(View(sys)), p, this)
    {
      ghost var held := p.held;
      WithoutFacts(held, this);
      var head := UnlinkFrom(p.mutexLocked, held);
      p.mutexLocked := head;
      p.held := Without(held, this);
      UnlistShape(this, p, sys);
      UnlistView(this, p, sys);
    }

    /** The maximum of base and of the first waiters of the mutexes on a list. */
    static method InheritedPriority(head: Mutex?, base: int, ghost held: seq<Mutex>, ghost w: World<Thread, Mutex>)
      returns (pr: int)
      requires Links(w) && ListLinked(head, held) && forall k :: k in held ==> SeesFront(w, k)
      ensures Inherited(w, base, held, pr)
    {
      pr := base;
      var walk := head;
      ghost var i := 0;
      while walk != null
        invariant 0 <= i <= |held|
        invariant ListLinked(walk, held[i..])
        invariant Inherited(w, base, held[..i], pr)
        decreases |held| - i
      {
        InheritFromFront(w, base, held, i, walk, pr);
        if |walk.waiting| > 0 {
          if pr < walk.waiting[0].priority { pr := walk.waiting[0].priority; }
        }
        walk := walk.next;
        i := i + 1;
      }
      assert held[..i] == held;
    }

    /** Removes the first thread of the heap of waiters. */
    method DequeueFront(ghost sys: System) returns (n: Thread)
      requires Shape(sys) && this in sys.mutexes && |waiting| > 0
      modifies this`waiting, waiting`mutexWaiting
      ensures n == old(waiting[0]) && n in sys.threads
      ensures Shape(sys) && View(sys) == Dequeue(old(View(sys)), this, n)
      ensures n.mutexWaiting == null && n !in waiting && forall u :: u in waiting ==> u in old(waiting)
    {
      n := waiting[0];
      assert QueueOk(this);
      waiting := PopHeap(waiting);
      PoppedQueue(old(waiting), waiting);
      assert forall u :: u in waiting ==> u in Members(waiting);
      assert n !in Members(waiting);
      n.mutexWaiting := null;
      DequeueShape(this, n, sys);
      DequeueView(this, n, sys);
    }

    /** Recomputes the priority of the owner after the mutex left its list. */
    static method SettlePriority(p: Thread, ghost w: World<Thread, Mutex>, ghost sys: System)
      returns (ghost pr: int)
      requires Shape(sys) && p in sys.threads && Links(w) && p.mutexWaiting == null
      requires Sees(w, sys) && forall k :: k in sys.mutexes ==> p !in k.waiting
      requires w.thr[p].saved == p.savedPriority
      modifies p`priority
      ensures LeftPriority(w, p, p.held, pr)
      ensures Shape(sys) && View(sys) == Raise(old(View(sys)), {p}, pr)
    {
      var v := OwnPriority(p, w, sys);
      pr := v;
      SetPriorityOf(p, v, sys);
    }

    /** The priority that a thread is left with. */
    static method OwnPriority(p: Thread, ghost w: World<Thread, Mutex>, ghost sys: System) returns (v: int)
      requires Shape(sys) && p in sys.threads && Links(w) && Sees(w, sys) && w.thr[p].saved == p.savedPriority
      ensures LeftPriority(w, p, p.held, v)
    {
      FrontsSeen(w, p, sys);
      LinkedStep(p.mutexLocked, p.held);
      v := p.savedPriority;
      if p.mutexLocked != null {
        v := InheritedPriority(p.mutexLocked, p.savedPriority, p.held, w);
      }
    }

    static method SetPriorityOf(p: Thread, v: int, ghost sys: System)
      requires Shape(sys) && p in sys.threads && p.mutexWaiting == null
      requires forall k :: k in sys.mutexes ==> p !in k.waiting
      modifies p`priority
      ensures Shape(sys) && View(sys) == Raise(old(View(sys)), {p}, v)
    {
      if v != p.priority { p.priority := v; }
      RaiseShape(p, sys);
      RaiseView(p, v, sys);
    }

    /** The new owner inherits from those still waiting, if one of them has a higher priority. */
    method InheritFromRest(n: Thread, ghost sys: System)
      requires Shape(sys) && this in sys.mutexes && n in sys.threads && n.mutexWaiting == null
      requires forall k :: k in sys.mutexes ==> n !in k.waiting
      modifies n`priority
      ensures Shape(sys)
      ensures (forall u :: u in waiting && u in sys.threads ==> old(u.priority) <= old(n.priority)) ==>
                View(sys) == old(View(sys)) && n.priority == old(n.priority)
    {
      if |waiting| > 0 && n.priority < waiting[0].priority {
        assert waiting[0] in waiting && waiting[0] in sys.threads;
        SetPriorityOf(n, waiting[0].priority, sys);
      }
    }

    /** Makes the first waiter the owner of this mutex, which is on no list. */
    method GiveToFront(ghost sys: System) returns (n: Thread)
      requires Shape(sys) && this in sys.mutexes && |waiting| > 0 && waiting[0].mutexWaiting == this
      requires forall t :: t in sys.threads ==> this !in t.held
      modifies waiting`mutexWaiting, waiting`savedPriority, waiting`mutexLocked, waiting`held, this`waiting, this`owner, this`next
      ensures n == old(waiting[0]) && n in sys.threads && n.mutexWaiting == null && Shape(sys)
      ensures View(sys) == Take(Dequeue(old(View(sys)), this, n), n, this)
      ensures n !in waiting && forall u :: u in waiting ==> u in old(waiting)
    {
      if waiting[0].mutexWaiting != this { assert false; }
      n := DequeueFront(sys);
      TakeFor(n, sys);
    }

    /** Hands this mutex, which is on no list, to the first waiter. */
    method PassOn(ghost sys: System) returns (n: Thread)
      requires Shape(sys) && this in sys.mutexes && |waiting| > 0 && waiting[0].mutexWaiting == this
      requires forall t :: t in sys.threads ==> this !in t.held
      requires forall k :: k in sys.mutexes && waiting[0] in k.waiting ==> k == this
      modifies waiting, this`waiting, this`owner, this`next
      ensures n == old(waiting[0]) && n in sys.threads && Shape(sys)
      ensures View(sys) == Take(Dequeue(old(View(sys)), this, n), n, this)
    {
      RestBelowFront(waiting, sys, this);
      n := GiveToFront(sys);
      InheritFromRest(n, sys);
    }

    method Abandon(ghost sys: System)
      requires Shape(sys) && this in sys.mutexes && |waiting| == 0
      modifies this`owner, this`waiting
      ensures owner == null && Shape(sys) && View(sys) == Disown(old(View(sys)), this)
    {
      owner := null;
      waiting := [];
      DisownShape(this, sys);
      DisownView(this, sys);
    }

    /** The first half of unlocking: off p's list, and p back at the priority it is left with. */
    method LeaveList(p: Thread, ghost sys: System) returns (ghost pr: int)
      requires Valid(sys) && p in sys.threads && this in sys.mutexes && owner == p && p.mutexWaiting == null
      modifies p`mutexLocked, p`held, p`priority, p.held`next
      ensures MayRelease(old(View(sys)), p, this, pr)
      ensures Shape(sys) && View(sys) == Settled(old(View(sys)), p, this, pr)
      ensures forall t :: t in sys.threads ==> this !in t.held
    {
      ghost var w := View(sys);
      OwnedFacts(w, p, this, sys);
      WithoutFacts(p.held, this);
      Unlist(p, sys);
      assert View(sys).thr[p] == ViewThread(p);
      pr := SettlePriority(p, w, sys);
    }

    /** The second half: the first waiter gets the mutex, or nobody does. */
    method PassOnOrAbandon(ghost sys: System) returns (n: Thread?)
      requires Shape(sys) && this in sys.mutexes
      requires forall t :: t in waiting ==> t.mutexWaiting == this
      requires forall t, k :: t in waiting && k in sys.mutexes && t in k.waiting ==> k == this
      requires forall t :: t in sys.threads ==> this !in t.held
      modifies waiting, this`waiting, this`owner, this`next
      ensures Shape(sys) && owner == n && (n == null <==> old(waiting) == [])
      ensures n != null ==> n == old(waiting[0]) && n in sys.threads
      ensures View(sys) == var w := old(View(sys));
                if n == null then Disown(w, this) else Take(Dequeue(w, this, n), n, this)
    {
      if |waiting| > 0 {
        assert waiting[0] in waiting;
        n := PassOn(sys);
        assert View(sys).mtx[this] == ViewMutex(this);
      } else {
        n := null;
        Abandon(sys);
      }
    }

    /** The owner gives this mutex up, whatever its depth. */
    method Release(p: Thread, ghost sys: System) returns (ghost pr: int, n: Thread?)
      requires Valid(sys) && p in sys.threads && this in sys.mutexes && owner == p && p.mutexWaiting == null
      modifies p`mutexLocked, p`held, p`priority, p.held`next, waiting, this`waiting, this`owner, this`next
      ensures Releases(old(View(sys)), p, this, pr, ThreadOption(n)) && Shape(sys) && owner == n
      ensures SetDepth(View(sys), this, Unlocked(recursiveDepth)) == ReleaseOf(old(View(sys)), p, this, pr, n)
    {
      ghost var w := View(sys);
      WaitersWait(w, this, sys);
      WaitersInWorld(w, this, sys);
      pr := LeaveList(p, sys);
      n := PassOnOrAbandon(sys);
      if n == null { FreeInSteps(w, p, this, pr); } else { HandOffInSteps(w, p, this, pr, n); }
    }

    /** Release of a mutex that is not locked again. */
    method ReleaseLast(p: Thread, ghost sys: System) returns (ghost pr: int, n: Thread?)
      requires Valid(sys) && p in sys.threads && this in sys.mutexes && owner == p && p.mutexWaiting == null
      requires recursiveDepth <= 0
      modifies p`mutexLocked, p`held, p`priority, p.held`next, waiting, this`waiting, this`owner, this`next
      ensures Valid(sys) && Releases(old(View(sys)), p, this, pr, ThreadOption(n))
      ensures View(sys) == ReleaseOf(old(View(sys)), p, this, pr, n)
    {
      pr, n := Release(p, sys);
      SameDepth(View(sys), this, sys);
      ReleaseValid(old(View(sys)), p, this, pr, n, sys);
    }

    /** True if the caller should yield to the thread that got the mutex. */
    method PKunlock(p: Thread, ghost sys: System) returns (outranked: bool, ghost pr: int, ghost n: Thread?)
      requires Valid(sys) && p in sys.threads && this in sys.mutexes && p.mutexWaiting == null
      modifies p`mutexLocked, p`held, p`priority, p.held`next
      modifies waiting, this`waiting, this`owner, this`next, this`recursiveDepth
      ensures Valid(sys)
      ensures old(owner) == p && old(recursiveDepth) <= 0 && p.held == [] ==> p.priority == old(p.savedPriority)
      ensures old(owner) != p ==> View(sys) == old(View(sys)) && !outranked
      ensures old(owner) == p && old(recursiveDepth) > 0 ==>
                View(sys) == SetDepth(old(View(sys)), this, old(recursiveDepth) - 1) && !outranked
      ensures old(owner) == p && old(recursiveDepth) <= 0 ==>
                && Releases(old(View(sys)), p, this, pr, ThreadOption(n))
                && View(sys) == ReleaseOf(old(View(sys)), p, this, pr, n)
                && (outranked <==> n != null && p.priority < n.priority)
    {
      if owner != p { return false, 0, null; }
      if recursiveDepth > 0 {
        ChangeDepth(recursiveDepth - 1, sys);
        return false, 0, null;
      }
      var next;
      pr, next := ReleaseLast(p, sys);
      return next != null && p.priority < next.priority, pr, next;
    }

    /** Gives the mutex up at any depth, and says which depth that was. */
    method PKunlockAllDepthLevels(p: Thread, ghost sys: System) returns (depth: nat, ghost pr: int, ghost n: Thread?)
      requires Valid(sys) && p in sys.threads && this in sys.mutexes && p.mutexWaiting == null
      modifies p`mutexLocked, p`held, p`priority, p.held`next
      modifies waiting, this`waiting, this`owner, this`next, this`recursiveDepth
      ensures Valid(sys)
      ensures old(owner) == p && p.held == [] ==> p.priority == old(p.savedPriority)
      ensures old(owner) != p ==> View(sys) == old(View(sys)) && depth == 0
      ensures old(owner) == p ==>
                && Releases(old(View(sys)), p, this, pr, ThreadOption(n))
                && View(sys) == ReleaseOf(old(View(sys)), p, this, pr, n)
                && depth == (if old(recursiveDepth) >= 0 then old(recursiveDepth) else 0)
    {
      if owner != p { return 0, 0, null; }
      ghost var w := View(sys);
      var next;
      pr, next := Release(p, sys);
      n := next;
      depth := ResetDepth(sys);
      ReleaseValid(w, p, this, pr, n, sys);
    }

    method ResetDepth(ghost sys: System) returns (depth: nat)
      requires Shape(sys) && this in sys.mutexes
      modifies this`recursiveDepth
      ensures depth == (if old(recursiveDepth) >= 0 then old(recursiveDepth) else 0)
      ensures Shape(sys) && View(sys) == SetDepth(old(View(sys)), this, Unlocked(old(recursiveDepth)))
    {
      if recursiveDepth < 0 {
        SameDepth(View(sys), this, sys);
        return 0;
      }
      depth := recursiveDepth;
      recursiveDepth := 0;
      DepthView(this, sys);
    }
  }

  // ----- what the assignments of the methods do to shape and view

  twostate lemma ListFrame(t: Thread)
    requires old(ListOk(t)) && t.mutexLocked == old(t.mutexLocked) && t.held == old(t.held)
    requires forall m :: m in t.held ==> m.next == old(m.next)
    ensures ListOk(t)
  {
  }

  twostate lemma QueueFrame(m: Mutex)
    requires old(QueueOk(m)) && m.waiting == old(m.waiting)
    requires forall t :: t in m.waiting ==> t.priority == old(t.priority)
    ensures QueueOk(m)
  {
  }

  twostate predicate Took(m: Mutex, p: Thread)
    reads m, p
  {
    && m.next == old(p.mutexLocked) && m.owner == p
    && p.mutexLocked == m && p.held == [m] + old(p.held)
    && p.savedPriority == (if old(p.mutexLocked) == null then old(p.priority) else old(p.savedPriority))
    && m.waiting == old(m.waiting) && m.recursiveDepth == old(m.recursiveDepth) && p.priority == old(p.priority) && p.mutexWaiting == old(p.mutexWaiting)
  }

  twostate lemma TakeShape(new m: Mutex, new p: Thread, sys: System)
    requires old(Shape(sys)) && p in sys.threads && m in sys.mutexes && Took(m, p)
    requires forall t :: t in sys.threads ==> m !in old(t.held)
    requires forall t :: t in sys.threads && t != p ==> unchanged(t)
    requires forall k :: k in sys.mutexes && k != m ==> unchanged(k)
    ensures Shape(sys)
  {
    forall t | t in sys.threads
      ensures ListOk(t)
    {
      assert old(ListOk(t));
      if t != p { ListFrame(t); } else { TookList(p, m); }
    }
    forall k | k in sys.mutexes
      ensures QueueOk(k)
    {
      assert old(QueueOk(k)) && forall t :: t in k.waiting ==> t in sys.threads;
      QueueFrame(k);
    }
  }

  twostate lemma TookList(p: Thread, new m: Mutex)
    requires old(ListOk(p)) && m !in old(p.held) && p.held == [m] + old(p.held)
    requires m.next == old(p.mutexLocked) && p.mutexLocked == m
    requires forall k :: k in old(p.held) ==> k.next == old(k.next)
    ensures ListOk(p)
  {
    assert p.held[1..] == old(p.held);
  }

  twostate lemma TakeView(new m: Mutex, new p: Thread, sys: System)
    requires p in sys.threads && m in sys.mutexes && Took(m, p) && old(ListOk(p))
    requires forall t :: t in sys.threads && t != p ==> unchanged(t)
    requires forall k :: k in sys.mutexes && k != m ==> unchanged(k)
    ensures View(sys) == Take(old(View(sys)), p, m)
  {
    var r := Take(old(View(sys)), p, m);
    forall k | k in sys.mutexes
      ensures ViewMutex(k) == r.mtx[k]
    {
      assert old(View(sys)).mtx[k] == old(ViewMutex(k));
    }
    forall t | t in sys.threads
      ensures ViewThread(t) == r.thr[t]
    {
      assert old(View(sys)).thr[t] == old(ViewThread(t));
    }
  }

  twostate lemma EnqueueShape(new m: Mutex, new p: Thread, sys: System)
    requires old(Shape(sys)) && p in sys.threads && m in sys.mutexes && p !in old(m.waiting)
    requires IsHeap(m.waiting) && multiset(m.waiting) == multiset(old(m.waiting)) + multiset{p}
    requires forall t :: t in sys.threads ==> t.priority == old(t.priority) && t.mutexLocked == old(t.mutexLocked) && t.held == old(t.held)
    requires forall k :: k in sys.mutexes ==> k.next == old(k.next)
    requires forall k :: k in sys.mutexes && k != m ==> unchanged(k)
    ensures Shape(sys)
  {
    forall t | t in sys.threads
      ensures ListOk(t)
    {
      assert old(ListOk(t)) && forall k :: k in t.held ==> k in sys.mutexes;
      ListFrame(t);
    }
    forall k | k in sys.mutexes
      ensures QueueOk(k) && forall t :: t in k.waiting ==> t in sys.threads
    {
      assert old(QueueOk(k)) && forall t :: t in old(k.waiting) ==> t in sys.threads;
      if k != m { QueueFrame(k); } else { PushedQueue(old(m.waiting), m.waiting, p); }
    }
  }

  lemma PushedQueue(s: seq<Thread>, r: seq<Thread>, p: Thread)
    requires multiset(r) == multiset(s) + multiset{p} && p !in s && NoDuplicates(s)
    ensures NoDuplicates(r) && Members(r) == Members(s) + {p}
  {
    forall t
      ensures t in r <==> t in s || t == p
    {
      assert t in r <==> t in multiset(r);
      assert t in s <==> t in multiset(s);
    }
  }

  twostate lemma EnqueueView(new m: Mutex, new p: Thread, sys: System)
    requires old(Shape(sys)) && p in sys.threads && m in sys.mutexes && p !in old(m.waiting) && p.mutexWaiting == m
    requires multiset(m.waiting) == multiset(old(m.waiting)) + multiset{p}
    requires p.priority == old(p.priority) && p.savedPriority == old(p.savedPriority) && p.held == old(p.held)
    requires m.owner == old(m.owner) && m.recursiveDepth == old(m.recursiveDepth)
    requires forall t :: t in sys.threads && t != p ==> unchanged(t)
    requires forall k :: k in sys.mutexes && k != m ==> unchanged(k)
    ensures View(sys) == Enqueue(old(View(sys)), p, m)
  {
    var w := old(View(sys));
    var r := Enqueue(w, p, m);
    assert old(QueueOk(m));
    PushedQueue(old(m.waiting), m.waiting, p);
    forall k | k in sys.mutexes
      ensures ViewMutex(k) == r.mtx[k]
    {
      assert w.mtx[k] == old(ViewMutex(k));
    }
    forall t | t in sys.threads
      ensures ViewThread(t) == r.thr[t]
    {
      assert w.thr[t] == old(ViewThread(t));
    }
  }

  /** Only walk's priority changed, and the heap it waits in was reordered. */
  twostate predicate Raised(walk: Thread, sys: System)
    reads sys.threads, sys.mutexes, walk
  {
    && (forall t :: t in sys.threads && t != walk ==> unchanged(t))
    && (forall k :: k in sys.mutexes && k != walk.mutexWaiting ==> unchanged(k))
    && walk.savedPriority == old(walk.savedPriority) && walk.mutexLocked == old(walk.mutexLocked) && walk.mutexWaiting == old(walk.mutexWaiting) && walk.held == old(walk.held)
    && (forall k :: k in sys.mutexes && k == walk.mutexWaiting ==>
          && k.owner == old(k.owner) && k.next == old(k.next) && k.recursiveDepth == old(k.recursiveDepth)
          && multiset(k.waiting) == multiset(old(k.waiting)))
  }

  lemma Permuted(s: seq<Thread>, r: seq<Thread>)
    requires multiset(r) == multiset(s)
    ensures NoDuplicates(s) ==> NoDuplicates(r)
    ensures Members(r) == Members(s)
  {
    forall t
      ensures t in r <==> t in s
    {
      assert t in r <==> t in multiset(r);
      assert t in s <==> t in multiset(s);
    }
  }

  twostate lemma RaiseShape(new walk: Thread, sys: System)
    requires old(Shape(sys)) && walk in sys.threads && Raised(walk, sys)
    requires walk.mutexWaiting == null || IsHeap(walk.mutexWaiting.waiting)
    requires forall m :: m in sys.mutexes && walk in old(m.waiting) ==> walk.mutexWaiting == m
    ensures Shape(sys)
  {
    forall t | t in sys.threads
      ensures ListOk(t)
    {
      assert old(ListOk(t)) && forall k :: k in t.held ==> k in sys.mutexes;
      ListFrame(t);
    }
    forall k | k in sys.mutexes
      ensures QueueOk(k) && forall t :: t in k.waiting ==> t in sys.threads
    {
      assert old(QueueOk(k)) && forall t :: t in old(k.waiting) ==> t in sys.threads;
      if k != walk.mutexWaiting {
        QueueFrame(k);
      } else {
        Permuted(old(k.waiting), k.waiting);
        assert forall t :: t in k.waiting ==> t in Members(k.waiting);
      }
    }
  }

  twostate lemma RaiseView(new walk: Thread, new pp: int, sys: System)
    requires walk in sys.threads && Raised(walk, sys) && walk.priority == pp
    ensures View(sys) == Raise(old(View(sys)), {walk}, pp)
  {
    var w := old(View(sys));
    var r := Raise(w, {walk}, pp);
    forall k | k in sys.mutexes
      ensures ViewMutex(k) == r.mtx[k]
    {
      assert w.mtx[k] == old(ViewMutex(k));
      if k == walk.mutexWaiting { Permuted(old(k.waiting), k.waiting); }
    }
    forall t | t in sys.threads
      ensures ViewThread(t) == r.thr[t]
    {
      assert w.thr[t] == old(ViewThread(t));
    }
  }

  lemma RaiseNobody(w: World<Thread, Mutex>, v: int)
    ensures Raise(w, {}, v) == w
  {
  }

  lemma RaiseMore(w: World<Thread, Mutex>, c: set<Thread>, t: Thread, v: int)
    ensures Raise(Raise(w, c, v), {t}, v) == Raise(w, c + {t}, v)
  {
  }

  /** On the objects, the walk sees the links of the world it started from. */
  lemma WalkLinks(w: World<Thread, Mutex>, done: set<Thread>, v: int, walk: Thread, sys: System)
    requires Inv(w) && View(sys) == Raise(w, done, v) && walk in sys.threads && walk in w.thr
    ensures w.thr[walk].waitsFor == MutexOption(walk.mutexWaiting)
    ensures walk.mutexWaiting == null || walk.mutexWaiting in sys.mutexes
    ensures walk.mutexWaiting != null ==> Blocker(w, walk) == ThreadOption(walk.mutexWaiting.owner) && Blocker(w, walk).Some?
    ensures forall m :: m in sys.mutexes && walk in m.waiting ==> walk.mutexWaiting == m
  {
    assert View(sys).thr[walk] == ViewThread(walk);
    assert ThreadLinks(w, walk);
    if walk.mutexWaiting != null {
      var m := walk.mutexWaiting;
      assert MutexLinks(w, m) && View(sys).mtx[m] == ViewMutex(m);
    }
    forall m | m in sys.mutexes && walk in m.waiting
      ensures walk.mutexWaiting == m
    {
      assert View(sys).mtx[m] == ViewMutex(m);
      assert MutexLinks(w, m);
    }
  }

  twostate lemma DepthView(new m: Mutex, sys: System)
    requires m in sys.mutexes && m.owner == old(m.owner) && m.waiting == old(m.waiting)
    requires forall t :: t in sys.threads ==> unchanged(t)
    requires forall k :: k in sys.mutexes && k != m ==> unchanged(k)
    ensures View(sys) == SetDepth(old(View(sys)), m, m.recursiveDepth)
  {
    var w := old(View(sys));
    forall k | k in sys.mutexes
      ensures ViewMutex(k) == SetDepth(w, m, m.recursiveDepth).mtx[k]
    {
      assert w.mtx[k] == old(ViewMutex(k));
    }
    forall t | t in sys.threads
      ensures ViewThread(t) == w.thr[t]
    {
      assert w.thr[t] == old(ViewThread(t));
    }
  }

  lemma NotQueued(w: World<Thread, Mutex>, p: Thread, m: Mutex, sys: System)
    requires Inv(w) && w == View(sys) && p in sys.threads && m in sys.mutexes && p.mutexWaiting == null
    ensures p !in m.waiting
  {
    assert MutexLinks(w, m) && w.mtx[m] == ViewMutex(m) && w.thr[p] == ViewThread(p);
    assert p in Members(m.waiting) <==> p in m.waiting;
  }

  lemma BlockChain(w: World<Thread, Mutex>, p: Thread, m: Mutex)
    requires Inv(w) && MayWait(w, p, m)
    ensures Inv(Enqueue(w, p, m))
    ensures var o := w.mtx[m].owner.value; o in Enqueue(w, p, m).thr && Chain(Enqueue(w, p, m), o) == Chain(w, o)
  {
    var o := w.mtx[m].owner.value;
    var n: nat :| Ends(w, o, n);
    ChainUnaffected(w, p, m, o, n);
  }

  lemma LinkedStep(head: Mutex?, s: seq<Mutex>)
    requires ListLinked(head, s)
    ensures s == [] <==> head == null
    ensures s != [] ==> head == s[0] && ListLinked(head.next, s[1..])
  {
  }

  /** Skipping the element after i in a linked list. */
  twostate lemma {:induction false} Relinked(s: seq<Mutex>, new i: nat)
    requires Distinct(s) && i + 1 < |s| && old(ListLinked(s[0], s))
    requires s[i].next == old(s[i + 1].next)
    requires forall k :: k in s && k != s[i] ==> k.next == old(k.next)
    ensures ListLinked(s[0], s[..i + 1] + s[i + 2..])
    decreases i
  {
    var r := s[..i + 1] + s[i + 2..];
    if i == 0 {
      assert r[1..] == s[2..] && s[1..][1..] == s[2..];
      assert old(ListLinked(s[1], s[1..])) && old(ListLinked(s[1].next, s[2..]));
    } else {
      var tail := s[1..];
      assert r[1..] == tail[..i] + tail[i + 1..];
      Relinked(tail, i - 1);
    }
  }

  lemma {:induction false} WithoutAt(s: seq<Mutex>, k: nat, m: Mutex)
    requires Distinct(s) && k < |s| && s[k] == m
    ensures Without(s, m) == s[..k] + s[k + 1..]
    decreases k
  {
    if k == 0 {
      WithoutNone(s[1..], m);
    } else {
      WithoutAt(s[1..], k - 1, m);
      FirstKept(s, k);
      assert s[0] != m;
    }
  }

  lemma FirstKept<A>(s: seq<A>, k: nat)
    requires 0 < k < |s|
    ensures s[..k] + s[k + 1..] == [s[0]] + (s[1..][..k - 1] + s[1..][k..])
  {
    var a, b := s[..k] + s[k + 1..], [s[0]] + (s[1..][..k - 1] + s[1..][k..]);
    assert |a| == |b|;
    forall i | 0 <= i < |a|
      ensures a[i] == b[i]
    {
    }
  }

  lemma {:induction false} WithoutNone(s: seq<Mutex>, m: Mutex)
    requires m !in s
    ensures Without(s, m) == s
  {
    if s != [] { WithoutNone(s[1..], m); }
  }

  twostate lemma UnlistShape(new m: Mutex, new p: Thread, sys: System)
    requires old(Shape(sys)) && p in sys.threads && ListOk(p)
    requires forall k :: k in p.held ==> k in old(p.held)
    requires forall t, k :: t in sys.threads && t != p && k in old(t.held) ==> k !in old(p.held)
    requires forall t :: t in sys.threads && t != p ==> unchanged(t)
    requires p.priority == old(p.priority)
    requires forall k :: k in sys.mutexes ==> k.waiting == old(k.waiting)
    requires forall k :: k in sys.mutexes && k !in old(p.held) ==> k.next == old(k.next)
    ensures Shape(sys)
  {
    forall t | t in sys.threads
      ensures ListOk(t)
    {
      assert old(ListOk(t)) && forall k :: k in old(t.held) ==> k in sys.mutexes;
      if t != p { ListFrame(t); }
    }
    forall k | k in sys.mutexes
      ensures QueueOk(k)
    {
      assert old(QueueOk(k)) && forall t :: t in k.waiting ==> t in sys.threads;
      QueueFrame(k);
    }
  }

  twostate lemma UnlistView(new m: Mutex, new p: Thread, sys: System)
    requires p in sys.threads && p.held == Without(old(p.held), m)
    requires p.priority == old(p.priority) && p.savedPriority == old(p.savedPriority) && p.mutexWaiting == old(p.mutexWaiting)
    requires forall t :: t in sys.threads && t != p ==> unchanged(t)
    requires forall k :: k in sys.mutexes ==> k.waiting == old(k.waiting) && k.owner == old(k.owner) && k.recursiveDepth == old(k.recursiveDepth)
    ensures View(sys) == Unlisted(old(View(sys)), p, m)
  {
    var w := old(View(sys));
    forall k | k in sys.mutexes
      ensures ViewMutex(k) == w.mtx[k]
    {
      assert w.mtx[k] == old(ViewMutex(k));
    }
    forall t | t in sys.threads
      ensures ViewThread(t) == Unlisted(w, p, m).thr[t]
    {
      assert w.thr[t] == old(ViewThread(t));
    }
  }

  /** The front of a heap of waiters decides what the mutex contributes. */
  lemma FrontIsMax(w: World<Thread, Mutex>, k: Mutex, sys: System)
    requires Shape(sys) && Links(w) && k in sys.mutexes && k in w.mtx && w.mtx[k].waiting == Members(k.waiting)
    requires forall t :: t in sys.threads ==> t in w.thr && w.thr[t].pri == t.priority
    ensures k.waiting == [] ==> w.mtx[k].waiting == {}
    ensures k.waiting != [] ==> k.waiting[0] in sys.threads && HighestWaiter(w, k, k.waiting[0]) && WaiterAt(w, [k], k.waiting[0].priority)
  {
    assert QueueOk(k) && forall t :: t in k.waiting ==> t in sys.threads;
    if k.waiting != [] {
      forall u | u in w.mtx[k].waiting
        ensures w.thr[u].pri <= k.waiting[0].priority
      {
        var i: nat :| i < |k.waiting| && k.waiting[i] == u;
        HeapFront(k.waiting, i);
      }
      WaiterIs(w, [k], k.waiting[0].priority, k, k.waiting[0]);
    }
  }

  /** The maximum of pr and the priority of the first waiter. */
  ghost function WithFront(m: Mutex, pr: int): int
    reads m`waiting, m.waiting`priority
  {
    if |m.waiting| > 0 && pr < m.waiting[0].priority then m.waiting[0].priority else pr
  }

  /** The world's queue of m is the object's, and the front of the heap is a highest waiter. */
  ghost predicate SeesFront(w: World<Thread, Mutex>, m: Mutex)
    reads m`waiting, m.waiting`priority
  {
    && m in w.mtx && (m.waiting == [] ==> w.mtx[m].waiting == {})
    && (m.waiting != [] ==> HighestWaiter(w, m, m.waiting[0]) && w.thr[m.waiting[0]].pri == m.waiting[0].priority)
  }

  lemma FrontsSeen(w: World<Thread, Mutex>, p: Thread, sys: System)
    requires Shape(sys) && p in sys.threads && Links(w) && Sees(w, sys)
    ensures ListLinked(p.mutexLocked, p.held) && forall k :: k in p.held ==> SeesFront(w, k)
  {
    assert ListOk(p);
    forall k | k in p.held
      ensures SeesFront(w, k)
    {
      assert k in sys.mutexes;
      FrontIsMax(w, k, sys);
    }
  }

  /** One mutex of the list more. */
  lemma InheritFromFront(w: World<Thread, Mutex>, base: int, held: seq<Mutex>, i: nat, walk: Mutex, pr: int)
    requires Links(w) && i <= |held| && ListLinked(walk, held[i..]) && Inherited(w, base, held[..i], pr)
    requires forall k :: k in held ==> SeesFront(w, k)
    ensures i < |held| && ListLinked(walk.next, held[i + 1..])
    ensures Inherited(w, base, held[..i + 1], WithFront(walk, pr))
  {
    LinkedStep(walk, held[i..]);
    assert held[..i + 1] == held[..i] + [walk] && walk in held;
    if walk.waiting != [] { WaiterIs(w, [walk], walk.waiting[0].priority, walk, walk.waiting[0]); }
    InheritedMore(w, base, held[..i], walk, pr, WithFront(walk, pr));
  }

  lemma RestBelowFront(s: seq<Thread>, sys: System, m: Mutex)
    requires Shape(sys) && m in sys.mutexes && s == m.waiting && s != []
    ensures forall u :: u in s ==> u in sys.threads && u.priority <= s[0].priority
  {
    assert QueueOk(m);
    forall u | u in s
      ensures u.priority <= s[0].priority
    {
      var i: nat :| i < |s| && s[i] == u;
      HeapFront(s, i);
    }
  }

  lemma PoppedQueue(s: seq<Thread>, r: seq<Thread>)
    requires s != [] && multiset(s) == multiset(r) + multiset{s[0]} && NoDuplicates(s)
    ensures NoDuplicates(r) && Members(r) == Members(s) - {s[0]}
  {
    forall t
      ensures t in r <==> t in s && t != s[0]
    {
      assert t in r <==> t in multiset(r);
      assert t in s <==> t in multiset(s);
    }
  }

  twostate lemma DequeueShape(new m: Mutex, new n: Thread, sys: System)
    requires old(Shape(sys)) && m in sys.mutexes && old(m.waiting) != [] && n == old(m.waiting[0])
    requires IsHeap(m.waiting) && multiset(old(m.waiting)) == multiset(m.waiting) + multiset{n}
    requires forall t :: t in sys.threads ==> t.priority == old(t.priority) && t.mutexLocked == old(t.mutexLocked) && t.held == old(t.held)
    requires forall k :: k in sys.mutexes ==> k.next == old(k.next)
    requires forall k :: k in sys.mutexes && k != m ==> unchanged(k)
    ensures Shape(sys)
  {
    forall t | t in sys.threads
      ensures ListOk(t)
    {
      assert old(ListOk(t)) && forall k :: k in t.held ==> k in sys.mutexes;
      ListFrame(t);
    }
    forall k | k in sys.mutexes
      ensures QueueOk(k) && forall t :: t in k.waiting ==> t in sys.threads
    {
      assert old(QueueOk(k)) && forall t :: t in old(k.waiting) ==> t in sys.threads;
      if k != m {
        QueueFrame(k);
      } else {
        PoppedQueue(old(m.waiting), m.waiting);
        assert forall t :: t in k.waiting ==> t in Members(k.waiting);
      }
    }
  }

  twostate lemma DequeueView(new m: Mutex, new n: Thread, sys: System)
    requires old(Shape(sys)) && m in sys.mutexes && old(m.waiting) != [] && n == old(m.waiting[0]) && n in sys.threads
    requires multiset(old(m.waiting)) == multiset(m.waiting) + multiset{n} && n.mutexWaiting == null
    requires n.priority == old(n.priority) && n.savedPriority == old(n.savedPriority) && n.held == old(n.held)
    requires m.owner == old(m.owner) && m.recursiveDepth == old(m.recursiveDepth)
    requires forall t :: t in sys.threads && t != n ==> unchanged(t)
    requires forall k :: k in sys.mutexes && k != m ==> unchanged(k)
    ensures View(sys) == Dequeue(old(View(sys)), m, n)
  {
    var w := old(View(sys));
    assert old(QueueOk(m));
    PoppedQueue(old(m.waiting), m.waiting);
    forall k | k in sys.mutexes
      ensures ViewMutex(k) == Dequeue(w, m, n).mtx[k]
    {
      assert w.mtx[k] == old(ViewMutex(k));
    }
    forall t | t in sys.threads
      ensures ViewThread(t) == Dequeue(w, m, n).thr[t]
    {
      assert w.thr[t] == old(ViewThread(t));
    }
  }

  /** A free mutex is on no list. */
  lemma FreeUnlisted(m: Mutex, sys: System)
    requires Valid(sys) && m in sys.mutexes && m.owner == null
    ensures forall t :: t in sys.threads ==> m !in t.held
  {
    var w := View(sys);
    forall t | t in sys.threads
      ensures m !in t.held
    {
      assert ThreadLinks(w, t) && w.mtx[m] == ViewMutex(m) && w.thr[t] == ViewThread(t);
    }
  }

  /** What the world says about an owner, on the objects. */
  lemma OwnedFacts(w: World<Thread, Mutex>, p: Thread, m: Mutex, sys: System)
    requires Inv(w) && w == View(sys) && p in sys.threads && m in sys.mutexes && m.owner == p && p.mutexWaiting == null
    ensures m in p.held && Distinct(p.held) && Running(w, p)
    ensures w.thr[p] == ViewThread(p) && w.mtx[m] == ViewMutex(m)
    ensures forall t, k :: t in sys.threads && t != p && k in t.held ==> k !in p.held
    ensures Sees(w, sys) && forall k :: k in sys.mutexes ==> p !in k.waiting
  {
    assert ThreadLinks(w, p) && MutexLinks(w, m);
    assert w.thr[p] == ViewThread(p) && w.mtx[m] == ViewMutex(m);
    forall t, k | t in sys.threads && t != p && k in t.held
      ensures k !in p.held
    {
      assert w.thr[t] == ViewThread(t) && ThreadLinks(w, t);
    }
    ThreadsSeen(w, p, sys);
  }

  /** The waiters of a mutex wait for it and for no other. */
  lemma WaitersWait(w: World<Thread, Mutex>, m: Mutex, sys: System)
    requires Inv(w) && w == View(sys) && m in sys.mutexes
    ensures forall t :: t in m.waiting ==> t.mutexWaiting == m
    ensures forall t, k :: t in m.waiting && k in sys.mutexes && t in k.waiting ==> k == m
  {
    forall t, k | k in sys.mutexes && t in k.waiting
      ensures t.mutexWaiting == k
    {
      assert MutexLinks(w, k) && w.mtx[k] == ViewMutex(k);
      assert t in Members(k.waiting) && w.thr[t] == ViewThread(t);
    }
  }

  lemma WaitersInWorld(w: World<Thread, Mutex>, m: Mutex, sys: System)
    requires Shape(sys) && Inv(w) && w == View(sys) && m in sys.mutexes
    ensures w.mtx[m] == ViewMutex(m)
    ensures m.waiting == [] ==> w.mtx[m].waiting == {}
    ensures m.waiting != [] ==> m.waiting[0] in w.thr && HighestWaiter(w, m, m.waiting[0])
  {
    forall t | t in sys.threads
      ensures w.thr[t].pri == t.priority
    {
      assert w.thr[t] == ViewThread(t);
    }
    assert w.mtx[m] == ViewMutex(m);
    FrontIsMax(w, m, sys);
  }

  ghost function ReleaseOf(w: World<Thread, Mutex>, p: Thread, m: Mutex, pr: int, n: Thread?): World<Thread, Mutex>
    requires p in w.thr && m in w.mtx && (n == null || n in w.thr)
  {
    Inheritance.Release(w, p, m, pr, ThreadOption(n))
  }

  lemma SameDepth(w: World<Thread, Mutex>, m: Mutex, sys: System)
    requires w == View(sys) && m in sys.mutexes && m.recursiveDepth <= 0
    ensures SetDepth(w, m, Unlocked(m.recursiveDepth)) == w
  {
    assert w.mtx[m] == ViewMutex(m);
  }

  lemma ReleaseValid(w: World<Thread, Mutex>, p: Thread, m: Mutex, pr: int, n: Thread?, sys: System)
    requires Releases(w, p, m, pr, ThreadOption(n)) && Shape(sys) && View(sys) == ReleaseOf(w, p, m, pr, n)
    ensures Valid(sys)
  {
    ReleaseInv(w, p, m, pr, ThreadOption(n));
  }

  twostate lemma DisownShape(new m: Mutex, sys: System)
    requires old(Shape(sys)) && m in sys.mutexes && m.waiting == []
    requires forall t :: t in sys.threads ==> unchanged(t)
    requires forall k :: k in sys.mutexes ==> k.next == old(k.next)
    requires forall k :: k in sys.mutexes && k != m ==> unchanged(k)
    ensures Shape(sys)
  {
    forall t | t in sys.threads
      ensures ListOk(t)
    {
      assert old(ListOk(t)) && forall k :: k in t.held ==> k in sys.mutexes;
      ListFrame(t);
    }
    forall k | k in sys.mutexes
      ensures QueueOk(k) && forall t :: t in k.waiting ==> t in sys.threads
    {
      assert old(QueueOk(k)) && forall t :: t in old(k.waiting) ==> t in sys.threads;
      if k != m { QueueFrame(k); }
    }
  }

  twostate lemma DisownView(new m: Mutex, sys: System)
    requires m in sys.mutexes && m.waiting == old(m.waiting) && m.owner == null && m.recursiveDepth == old(m.recursiveDepth)
    requires forall t :: t in sys.threads ==> unchanged(t)
    requires forall k :: k in sys.mutexes && k != m ==> unchanged(k)
    ensures View(sys) == Disown(old(View(sys)), m)
  {
    var w := old(View(sys));
    forall k | k in sys.mutexes
      ensures ViewMutex(k) == Disown(w, m).mtx[k]
    {
      assert w.mtx[k] == old(ViewMutex(k));
    }
    forall t | t in sys.threads
      ensures ViewThread(t) == w.thr[t]
    {
      assert w.thr[t] == old(ViewThread(t));
    }
  }

  /** A running thread is in no queue, and the world knows all queues and priorities. */
  lemma ThreadsSeen(w: World<Thread, Mutex>, p: Thread, sys: System)
    requires Inv(w) && w == View(sys) && p in sys.threads && p.mutexWaiting == null
    ensures w.thr[p] == ViewThread(p)
    ensures Sees(w, sys) && forall k :: k in sys.mutexes ==> p !in k.waiting
  {
    forall k | k in sys.mutexes
      ensures w.mtx[k].waiting == Members(k.waiting) && p !in k.waiting
    {
      NotQueued(w, p, k, sys);
      assert w.mtx[k] == ViewMutex(k);
    }
    forall t | t in sys.threads
      ensures w.thr[t] == ViewThread(t)
    {
    }
  }

  twostate lemma PriorityShape(new p: Thread, sys: System)
    requires old(Shape(sys)) && p in sys.threads
    requires p.mutexLocked == old(p.mutexLocked) && p.held == old(p.held)
    requires forall t :: t in sys.threads && t != p ==> unchanged(t)
    requires forall k :: k in sys.mutexes ==> unchanged(k) && p !in k.waiting
    ensures Shape(sys)
  {
    forall t | t in sys.threads
      ensures ListOk(t)
    {
      assert old(ListOk(t)) && forall k :: k in t.held ==> k in sys.mutexes;
      ListFrame(t);
    }
    forall k | k in sys.mutexes
      ensures QueueOk(k)
    {
      assert old(QueueOk(k)) && forall t :: t in k.waiting ==> t in sys.threads;
      QueueFrame(k);
    }
  }

  twostate lemma PriorityView(new p: Thread, new v: int, new pr: int, sys: System)
    requires p in sys.threads && p.priority == pr
    requires p.mutexWaiting == old(p.mutexWaiting) && p.held == old(p.held)
    requires p.savedPriority == (if p.held == [] then old(p.savedPriority) else v)
    requires forall t :: t in sys.threads && t != p ==> unchanged(t)
    requires forall k :: k in sys.mutexes ==> unchanged(k)
    ensures View(sys) == Reprioritize(old(View(sys)), p, v, pr)
  {
    var w := old(View(sys));
    forall k | k in sys.mutexes
      ensures ViewMutex(k) == w.mtx[k]
    {
      assert w.mtx[k] == old(ViewMutex(k));
    }
    forall t | t in sys.threads
      ensures ViewThread(t) == Reprioritize(w, p, v, pr).thr[t]
    {
      assert w.thr[t] == old(ViewThread(t));
    }
  }
}
