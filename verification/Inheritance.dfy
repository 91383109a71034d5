// Priority inheritance as a relation between threads and mutexes, on values:
// what each operation of sync.cpp does to the ownership, the queues and the
// priorities, and what every operation keeps. T and M name threads and mutexes.

module Inheritance {
  import opened Common

  /** held lists the locked mutexes, the last one locked first. */
  datatype ThreadState<M> = ThreadState(pri: int, saved: int, held: seq<M>, waitsFor: Option<M>)

  /** depth is -1 for a mutex that is not recursive. */
  datatype MutexState<T> = MutexState(owner: Option<T>, waiting: set<T>, depth: int)

  datatype World<!T, !M> = World(thr: map<T, ThreadState<M>>, mtx: map<M, MutexState<T>>)

  // ----- the invariant

  /** Every thread's side of the links agrees with the mutexes' side. */
  ghost predicate ThreadLinks<T, M>(w: World<T, M>, t: T)
    requires t in w.thr
  {
    var s := w.thr[t];
    && Distinct(s.held)
    && (forall m :: m in s.held ==> m in w.mtx && w.mtx[m].owner == Some(t))
    && (s.waitsFor.Some? ==> s.waitsFor.value in w.mtx && t in w.mtx[s.waitsFor.value].waiting)
  }

  /** Every mutex's side agrees with the threads' side; a free mutex has no waiters. */
  ghost predicate MutexLinks<T, M>(w: World<T, M>, m: M)
    requires m in w.mtx
  {
    var s := w.mtx[m];
    && s.depth >= -1
    && (s.owner.None? ==> s.waiting == {} && s.depth <= 0)
    && (s.owner.Some? ==> s.owner.value in w.thr && m in w.thr[s.owner.value].held)
    && (forall t :: t in s.waiting ==> t in w.thr && w.thr[t].waitsFor == Some(m))
  }

  ghost predicate Links<T, M>(w: World<T, M>)
  {
    && (forall t :: t in w.thr ==> ThreadLinks(w, t))
    && (forall m :: m in w.mtx ==> MutexLinks(w, m))
  }

  /** The thread that owns the mutex t waits for. */
  ghost function Blocker<T, M>(w: World<T, M>, t: T): Option<T>
    requires Links(w) && t in w.thr
  {
    var s := w.thr[t];
    if s.waitsFor.None? then None else assert ThreadLinks(w, t); w.mtx[s.waitsFor.value].owner
  }

  lemma BlockerKnown<T, M>(w: World<T, M>, t: T)
    requires Links(w) && t in w.thr && Blocker(w, t).Some?
    ensures Blocker(w, t).value in w.thr
    ensures w.thr[t].waitsFor.value in w.thr[Blocker(w, t).value].held
  {
    assert ThreadLinks(w, t);
    assert MutexLinks(w, w.thr[t].waitsFor.value);
  }

  /** Following the blockers from t ends after at most n steps. */
  ghost predicate Ends<T, M>(w: World<T, M>, t: T, n: nat)
    requires Links(w) && t in w.thr
    decreases n
  {
    var b := Blocker(w, t);
    b.None? || (n > 0 && (BlockerKnown(w, t); Ends(w, b.value, n - 1)))
  }

  /** The wait-for graph has no cycle. */
  ghost predicate Acyclic<T, M>(w: World<T, M>)
    requires Links(w)
  {
    forall t :: t in w.thr ==> exists n :: Ends(w, t, n)
  }

  ghost predicate Inv<T, M>(w: World<T, M>)
  {
    Links(w) && Acyclic(w)
  }

  lemma SomeEnd<T, M>(w: World<T, M>, t: T) returns (n: nat)
    requires Inv(w) && t in w.thr
    ensures Ends(w, t, n)
  {
    n :| Ends(w, t, n);
  }

  /** The threads t waits for, directly or not, and t itself. */
  ghost function Chain<T, M>(w: World<T, M>, t: T): set<T>
    requires Inv(w) && t in w.thr
  {
    var n :| Ends(w, t, n);
    ChainWithin(w, t, n)
  }

  ghost function ChainWithin<T, M>(w: World<T, M>, t: T, n: nat): set<T>
    requires Links(w) && t in w.thr && Ends(w, t, n)
    decreases n
  {
    var b := Blocker(w, t);
    if b.None? then {t} else BlockerKnown(w, t); {t} + ChainWithin(w, b.value, n - 1)
  }

  lemma {:induction false} ChainWithinUnique<T, M>(w: World<T, M>, t: T, n: nat, k: nat)
    requires Links(w) && t in w.thr && Ends(w, t, n) && Ends(w, t, k)
    ensures ChainWithin(w, t, n) == ChainWithin(w, t, k)
    decreases n
  {
    var b := Blocker(w, t);
    if b.Some? {
      BlockerKnown(w, t);
      ChainWithinUnique(w, b.value, n - 1, k - 1);
    }
  }

  lemma ChainIs<T, M>(w: World<T, M>, t: T, n: nat)
    requires Inv(w) && t in w.thr && Ends(w, t, n)
    ensures Chain(w, t) == ChainWithin(w, t, n)
  {
    forall k: nat | Ends(w, t, k)
      ensures ChainWithin(w, t, k) == ChainWithin(w, t, n)
    {
      ChainWithinUnique(w, t, n, k);
    }
  }

  /** A chain starts with its thread and goes on with the chain of its blocker. */
  lemma ChainUnfolds<T, M>(w: World<T, M>, t: T)
    requires Inv(w) && t in w.thr
    ensures var b := Blocker(w, t);
      Chain(w, t) == if b.None? then {t} else (BlockerKnown(w, t); {t} + Chain(w, b.value))
  {
    var b := Blocker(w, t);
    var n: nat :| Ends(w, t, n);
    ChainIs(w, t, n);
    if b.Some? {
      BlockerKnown(w, t);
      ChainIs(w, b.value, n - 1);
    }
  }

  /** Members of a chain are threads; it is closed under blockers, and each but the first blocks another. */
  lemma {:induction false} ChainFacts<T, M>(w: World<T, M>, t: T, n: nat)
    requires Inv(w) && t in w.thr && Ends(w, t, n)
    ensures t in Chain(w, t)
    ensures forall c :: c in Chain(w, t) ==> c in w.thr
    ensures forall c :: c in Chain(w, t) && Blocker(w, c).Some? ==> Blocker(w, c).value in Chain(w, t)
    ensures forall c :: c in Chain(w, t) && c != t ==> exists d :: d in Chain(w, t) && Blocker(w, d) == Some(c)
    decreases n
  {
    ChainUnfolds(w, t);
    var b := Blocker(w, t);
    if b.Some? {
      BlockerKnown(w, t);
      ChainFacts(w, b.value, n - 1);
      forall c | c in Chain(w, t) && c != t
        ensures exists d :: d in Chain(w, t) && Blocker(w, d) == Some(c)
      {
        if c == b.value {
          assert t in Chain(w, t) && Blocker(w, t) == Some(c);
        } else {
          var d :| d in Chain(w, b.value) && Blocker(w, d) == Some(c);
          assert d in Chain(w, t);
        }
      }
    }
  }

  lemma {:induction false} EndsMember<T, M>(w: World<T, M>, t: T, n: nat, c: T)
    requires Inv(w) && t in w.thr && Ends(w, t, n) && c in Chain(w, t)
    ensures c in w.thr && Ends(w, c, n) && (c != t ==> n > 0 && Ends(w, c, n - 1))
    decreases n
  {
    ChainUnfolds(w, t);
    var b := Blocker(w, t);
    if b.Some? && c != t {
      BlockerKnown(w, t);
      EndsMember(w, b.value, n - 1, c);
      EndsLonger(w, c, n - 1);
    }
  }

  lemma {:induction false} EndsLonger<T, M>(w: World<T, M>, t: T, n: nat)
    requires Links(w) && t in w.thr && Ends(w, t, n)
    ensures Ends(w, t, n + 1)
    decreases n
  {
    var b := Blocker(w, t);
    if b.Some? {
      BlockerKnown(w, t);
      EndsLonger(w, b.value, n - 1);
    }
  }

  /** No thread is in the chain of its own blocker. */
  lemma {:induction false} NotInOwnTail<T, M>(w: World<T, M>, t: T, n: nat)
    requires Inv(w) && t in w.thr && Ends(w, t, n) && Blocker(w, t).Some?
    ensures Blocker(w, t).value in w.thr && t !in Chain(w, Blocker(w, t).value)
    decreases n
  {
    BlockerKnown(w, t);
    var b := Blocker(w, t).value;
    if t in Chain(w, b) {
      EndsMember(w, b, n - 1, t);
      NotInOwnTail(w, t, n - 1);
    }
  }

  /** A chain is a line: two threads of it blocked by the same thread are the same. */
  lemma {:induction false} ChainIsLine<T, M>(w: World<T, M>, t: T, n: nat, x: T, y: T)
    requires Inv(w) && t in w.thr && Ends(w, t, n) && x in Chain(w, t) && y in Chain(w, t)
    ensures x in w.thr && y in w.thr
    ensures Blocker(w, x).Some? && Blocker(w, x) == Blocker(w, y) ==> x == y
    decreases n
  {
    ChainFacts(w, t, n);
    ChainUnfolds(w, t);
    if Blocker(w, t).Some? && Blocker(w, x).Some? && Blocker(w, x) == Blocker(w, y) && x != y {
      BlockerKnown(w, t);
      var b := Blocker(w, t).value;
      if x != t && y != t {
        ChainIsLine(w, b, n - 1, x, y);
      } else {
        // The other thread is in the chain of b and blocked by b: b would be in its own tail.
        OtherSide(w, b, n - 1, if x == t then y else x);
      }
    }
  }

  /** Nothing in the chain of b is blocked by b. */
  lemma OtherSide<T, M>(w: World<T, M>, b: T, n: nat, z: T)
    requires Inv(w) && b in w.thr && Ends(w, b, n) && z in Chain(w, b)
    ensures z in w.thr && Blocker(w, z) != Some(b)
  {
    EndsMember(w, b, n, z);
    if Blocker(w, z) == Some(b) {
      NotInOwnTail(w, z, n);
    }
  }

  // ----- inherited priorities

  /** Some waiter of one of the mutexes has priority v. */
  ghost predicate WaiterAt<T, M>(w: World<T, M>, held: seq<M>, v: int)
    requires Links(w)
  {
    exists m, u :: m in held && m in w.mtx && u in w.mtx[m].waiting && u in w.thr && w.thr[u].pri == v
  }

  lemma WaiterIs<T, M>(w: World<T, M>, held: seq<M>, v: int, m: M, u: T)
    requires Links(w) && m in held && m in w.mtx && u in w.mtx[m].waiting && u in w.thr && w.thr[u].pri == v
    ensures WaiterAt(w, held, v)
  {
  }

  lemma SomeWaiter<T, M>(w: World<T, M>, held: seq<M>, v: int) returns (m: M, u: T)
    requires Links(w) && WaiterAt(w, held, v)
    ensures m in held && m in w.mtx && u in w.mtx[m].waiting && u in w.thr && w.thr[u].pri == v
  {
    m, u :| m in held && m in w.mtx && u in w.mtx[m].waiting && u in w.thr && w.thr[u].pri == v;
  }

  /** v is the maximum of base and of the priorities of all the waiters of the mutexes. */
  ghost predicate Inherited<T, M>(w: World<T, M>, base: int, held: seq<M>, v: int)
    requires Links(w)
  {
    && v >= base
    && (forall m, u :: m in held && m in w.mtx && u in w.mtx[m].waiting && u in w.thr ==> w.thr[u].pri <= v)
    && (v == base || WaiterAt(w, held, v))
  }

  /** A thread that holds mutexes runs at the maximum of its own and its waiters' priorities. */
  ghost predicate ExactFor<T, M>(w: World<T, M>, t: T)
    requires Links(w) && t in w.thr
  {
    w.thr[t].held != [] ==> Inherited(w, w.thr[t].saved, w.thr[t].held, w.thr[t].pri)
  }

  ghost predicate Exact<T, M>(w: World<T, M>)
    requires Links(w)
  {
    forall t :: t in w.thr ==> ExactFor(w, t)
  }

  /** With exact inheritance no thread waits, directly or not, for one of lower priority. */
  lemma {:induction false} NoInversion<T, M>(w: World<T, M>, t: T, n: nat, c: T)
    requires Inv(w) && Exact(w) && t in w.thr && Ends(w, t, n) && c in Chain(w, t)
    ensures c in w.thr && w.thr[t].pri <= w.thr[c].pri
    decreases n
  {
    ChainUnfolds(w, t);
    if c != t {
      var b := Blocker(w, t).value;
      BlockerKnown(w, t);
      assert ThreadLinks(w, t) && ExactFor(w, b);
      NoInversion(w, b, n - 1, c);
    }
  }

  // ----- the operations

  /** p becomes the owner of m, which is pushed on its list. */
  ghost function Take<T, M>(w: World<T, M>, p: T, m: M): World<T, M>
    requires p in w.thr && m in w.mtx
  {
    var s := w.thr[p];
    w.(thr := w.thr[p := s.(saved := if s.held == [] then s.pri else s.saved, held := [m] + s.held)],
       mtx := w.mtx[m := w.mtx[m].(owner := Some(p))])
  }

  ghost function Enqueue<T, M>(w: World<T, M>, p: T, m: M): World<T, M>
    requires p in w.thr && m in w.mtx
  {
    w.(thr := w.thr[p := w.thr[p].(waitsFor := Some(m))],
       mtx := w.mtx[m := w.mtx[m].(waiting := w.mtx[m].waiting + {p})])
  }

  /** The threads of a set get priority v. */
  ghost function Raise<T, M>(w: World<T, M>, c: set<T>, v: int): World<T, M>
  {
    w.(thr := map t | t in w.thr :: if t in c then w.thr[t].(pri := v) else w.thr[t])
  }

  /** A thread that is running is not queued on a mutex. */
  predicate Running<T, M>(w: World<T, M>, p: T)
  {
    p in w.thr && w.thr[p].waitsFor.None?
  }

  /** p may wait for the owner of m without closing a cycle. */
  ghost predicate MayWait<T, M>(w: World<T, M>, p: T, m: M)
    requires Inv(w)
  {
    && Running(w, p) && m in w.mtx && w.mtx[m].owner.Some?
    && w.mtx[m].owner.value in w.thr && p !in Chain(w, w.mtx[m].owner.value)
  }

  /** The effect of queueing p on m: its priority is given to the owner, and to all the owner waits for. */
  ghost function Block<T, M>(w: World<T, M>, p: T, m: M): World<T, M>
    requires Inv(w) && MayWait(w, p, m)
  {
    var o := w.mtx[m].owner.value;
    var queued := Enqueue(w, p, m);
    if w.thr[o].pri < w.thr[p].pri then Raise(queued, Chain(w, o), w.thr[p].pri) else queued
  }

  // ----- waiting keeps the invariant

  lemma RaiseLinks<T, M>(w: World<T, M>, c: set<T>, v: int)
    requires Links(w)
    ensures var r := Raise(w, c, v);
      && Links(r) && r.thr.Keys == w.thr.Keys
      && forall t :: t in w.thr ==> Blocker(r, t) == Blocker(w, t)
  {
    var r := Raise(w, c, v);
    forall t | t in r.thr
      ensures ThreadLinks(r, t)
    {
      assert ThreadLinks(w, t);
    }
    forall m | m in r.mtx
      ensures MutexLinks(r, m)
    {
      assert MutexLinks(w, m);
    }
  }

  lemma {:induction false} SameBlockers<T, M>(w: World<T, M>, w': World<T, M>, t: T, n: nat)
    requires Links(w) && Links(w') && w.thr.Keys == w'.thr.Keys && t in w.thr
    requires forall u :: u in w.thr ==> Blocker(w, u) == Blocker(w', u)
    ensures Ends(w, t, n) == Ends(w', t, n)
    decreases n
  {
    if Blocker(w, t).Some? && n > 0 {
      BlockerKnown(w, t);
      SameBlockers(w, w', Blocker(w, t).value, n - 1);
    }
  }

  lemma SameBlockersAcyclic<T, M>(w: World<T, M>, w': World<T, M>)
    requires Links(w) && Links(w') && w.thr.Keys == w'.thr.Keys && Acyclic(w)
    requires forall u :: u in w.thr ==> Blocker(w, u) == Blocker(w', u)
    ensures Acyclic(w')
  {
    forall t | t in w'.thr
      ensures exists n :: Ends(w', t, n)
    {
      var n: nat :| Ends(w, t, n);
      SameBlockers(w, w', t, n);
    }
  }

  lemma EnqueueLinks<T, M>(w: World<T, M>, p: T, m: M)
    requires Inv(w) && Running(w, p) && m in w.mtx && w.mtx[m].owner.Some?
    ensures var q := Enqueue(w, p, m);
      && Links(q) && q.thr.Keys == w.thr.Keys && Blocker(q, p) == w.mtx[m].owner
      && forall t :: t in w.thr && t != p ==> Blocker(q, t) == Blocker(w, t)
  {
    var q := Enqueue(w, p, m);
    forall t | t in q.thr
      ensures ThreadLinks(q, t)
    {
      assert ThreadLinks(w, t);
    }
    forall k | k in q.mtx
      ensures MutexLinks(q, k)
    {
      assert MutexLinks(w, k);
    }
  }

  /** When p is in the chain of m's owner, queueing it on m lets no chain that reaches p end. */
  lemma {:induction false} CycleNeverEnds<T, M>(w: World<T, M>, p: T, m: M, t: T, n: nat)
    requires Inv(w) && Running(w, p) && m in w.mtx && w.mtx[m].owner.Some? && w.mtx[m].owner.value in w.thr
    requires t in w.thr && p in Chain(w, w.mtx[m].owner.value) && p in Chain(w, t)
    ensures Links(Enqueue(w, p, m)) && t in Enqueue(w, p, m).thr && !Ends(Enqueue(w, p, m), t, n)
    decreases n
  {
    EnqueueLinks(w, p, m);
    ChainUnfolds(w, t);
    if n > 0 {
      if t != p { BlockerKnown(w, t); }
      CycleNeverEnds(w, p, m, if t == p then w.mtx[m].owner.value else Blocker(w, t).value, n - 1);
    }
  }

  /** Waiting for m closes a cycle if and only if the thread is in the chain of the owner. */
  lemma WaitClosesCycleIff<T, M>(w: World<T, M>, p: T, m: M)
    requires Inv(w) && Running(w, p) && m in w.mtx && w.mtx[m].owner.Some?
    ensures w.mtx[m].owner.value in w.thr && Links(Enqueue(w, p, m))
    ensures Acyclic(Enqueue(w, p, m)) <==> p !in Chain(w, w.mtx[m].owner.value)
  {
    assert MutexLinks(w, m);
    EnqueueLinks(w, p, m);
    var o := w.mtx[m].owner.value;
    if p in Chain(w, o) {
      forall n: nat
        ensures !Ends(Enqueue(w, p, m), o, n)
      {
        CycleNeverEnds(w, p, m, o, n);
      }
    } else {
      EnqueueInv(w, p, m);
    }
  }

  /** A chain that avoids p does not see the new wait. */
  lemma {:induction false} ChainAvoids<T, M>(w: World<T, M>, p: T, m: M, t: T, n: nat)
    requires Inv(w) && MayWait(w, p, m) && t in w.thr && Ends(w, t, n) && p !in Chain(w, t)
    ensures Links(Enqueue(w, p, m)) && t in Enqueue(w, p, m).thr && Ends(Enqueue(w, p, m), t, n)
    decreases n
  {
    EnqueueLinks(w, p, m);
    ChainUnfolds(w, t);
    if Blocker(w, t).Some? {
      BlockerKnown(w, t);
      ChainAvoids(w, p, m, Blocker(w, t).value, n - 1);
    }
  }

  /** k steps end the chain of the owner; any chain of w now ends at most k + 1 steps later. */
  lemma {:induction false} EnqueueEnds<T, M>(w: World<T, M>, p: T, m: M, t: T, n: nat, k: nat)
    requires Inv(w) && MayWait(w, p, m) && t in w.thr && Ends(w, t, n)
    requires Ends(w, w.mtx[m].owner.value, k)
    ensures Links(Enqueue(w, p, m)) && t in Enqueue(w, p, m).thr && Ends(Enqueue(w, p, m), t, n + k + 1)
    decreases n
  {
    EnqueueLinks(w, p, m);
    var q := Enqueue(w, p, m);
    if t == p {
      var o := w.mtx[m].owner.value;
      ChainAvoids(w, p, m, o, k);
      EndsMuchLonger(q, o, k, n + k);
    } else if Blocker(w, t).Some? {
      BlockerKnown(w, t);
      EnqueueEnds(w, p, m, Blocker(w, t).value, n - 1, k);
    }
  }

  lemma {:induction false} EndsMuchLonger<T, M>(w: World<T, M>, t: T, n: nat, k: nat)
    requires Links(w) && t in w.thr && Ends(w, t, n) && n <= k
    ensures Ends(w, t, k)
    decreases k - n
  {
    if n < k {
      EndsLonger(w, t, n);
      EndsMuchLonger(w, t, n + 1, k);
    }
  }

  lemma EnqueueInv<T, M>(w: World<T, M>, p: T, m: M)
    requires Inv(w) && MayWait(w, p, m)
    ensures Inv(Enqueue(w, p, m))
  {
    EnqueueLinks(w, p, m);
    var q := Enqueue(w, p, m);
    var k: nat :| Ends(w, w.mtx[m].owner.value, k);
    forall t | t in q.thr
      ensures exists n :: Ends(q, t, n)
    {
      var n: nat :| Ends(w, t, n);
      EnqueueEnds(w, p, m, t, n, k);
    }
  }

  /** The chain of the owner is the same before and after the requester is queued. */
  lemma {:induction false} ChainUnaffected<T, M>(w: World<T, M>, p: T, m: M, t: T, n: nat)
    requires Inv(w) && MayWait(w, p, m) && t in w.thr && Ends(w, t, n) && p !in Chain(w, t)
    ensures var q := Enqueue(w, p, m); Inv(q) && t in q.thr && Chain(q, t) == Chain(w, t)
    decreases n
  {
    EnqueueInv(w, p, m);
    EnqueueLinks(w, p, m);
    ChainUnfolds(w, t);
    ChainUnfolds(Enqueue(w, p, m), t);
    if Blocker(w, t).Some? {
      BlockerKnown(w, t);
      ChainUnaffected(w, p, m, Blocker(w, t).value, n - 1);
    }
  }

  lemma RaiseInv<T, M>(w: World<T, M>, c: set<T>, v: int)
    requires Inv(w)
    ensures Inv(Raise(w, c, v))
  {
    RaiseLinks(w, c, v);
    SameBlockersAcyclic(w, Raise(w, c, v));
  }

  /** Queueing a thread keeps links and heaps' owners in order and the graph without cycles. */
  lemma BlockInv<T, M>(w: World<T, M>, p: T, m: M)
    requires Inv(w) && MayWait(w, p, m)
    ensures Inv(Block(w, p, m))
  {
    EnqueueInv(w, p, m);
    RaiseInv(Enqueue(w, p, m), Chain(w, w.mtx[m].owner.value), w.thr[p].pri);
  }

  // ----- waiting and exact inheritance

  /** A queue of a thread's mutex, before and after p queues on m. */
  lemma QueuesAfterEnqueue<T, M>(w: World<T, M>, p: T, m: M, t: T, k: M)
    requires Inv(w) && MayWait(w, p, m) && t in w.thr && k in w.thr[t].held
    ensures k in w.mtx && Enqueue(w, p, m).mtx[k].waiting == w.mtx[k].waiting + if k == m then {p} else {}
    ensures k == m ==> w.mtx[m].owner == Some(t)
  {
    assert ThreadLinks(w, t);
  }

  /** When the owner already runs at the requester's priority, nothing is assigned and exactness stays. */
  lemma QueueKeepsExact<T, M>(w: World<T, M>, p: T, m: M, t: T)
    requires Inv(w) && MayWait(w, p, m) && t in w.thr && ExactFor(w, t)
    requires w.thr[w.mtx[m].owner.value].pri >= w.thr[p].pri
    ensures Links(Enqueue(w, p, m)) && ExactFor(Enqueue(w, p, m), t)
  {
    EnqueueLinks(w, p, m);
    var q := Enqueue(w, p, m);
    var s := w.thr[t];
    if s.held != [] {
      forall k, u | k in s.held && k in q.mtx && u in q.mtx[k].waiting && u in q.thr
        ensures q.thr[u].pri <= s.pri
      {
        QueuesAfterEnqueue(w, p, m, t, k);
      }
      if s.pri != s.saved {
        var k, u := SomeWaiter(w, s.held, s.pri);
        QueuesAfterEnqueue(w, p, m, t, k);
        WaiterIs(q, s.held, s.pri, k, u);
      }
    }
  }

  /** A waiter of a thread outside the chain is outside the chain too. */
  lemma WaitersOffChain<T, M>(w: World<T, M>, o: T, t: T, k: M, u: T)
    requires Inv(w) && o in w.thr && t in w.thr && k in w.thr[t].held && u in w.thr
    requires k in w.mtx && u in w.mtx[k].waiting
    ensures Blocker(w, u) == Some(t)
    ensures u in Chain(w, o) ==> t in Chain(w, o)
  {
    assert ThreadLinks(w, t) && MutexLinks(w, k);
    var n: nat :| Ends(w, o, n);
    ChainFacts(w, o, n);
  }

  lemma OffChainStaysExact<T, M>(w: World<T, M>, p: T, m: M, t: T)
    requires Inv(w) && MayWait(w, p, m) && t in w.thr && ExactFor(w, t)
    requires w.thr[w.mtx[m].owner.value].pri < w.thr[p].pri
    requires t !in Chain(w, w.mtx[m].owner.value)
    ensures Inv(Block(w, p, m)) && t in Block(w, p, m).thr && ExactFor(Block(w, p, m), t)
  {
    BlockInv(w, p, m);
    ChainUnfolds(w, w.mtx[m].owner.value);
    var r := Block(w, p, m);
    if w.thr[t].held != [] {
      OffChainBound(w, p, m, t, r);
      if w.thr[t].pri != w.thr[t].saved { OffChainWaiter(w, p, m, t, r); }
    }
  }

  lemma OffChainBound<T, M>(w: World<T, M>, p: T, m: M, t: T, r: World<T, M>)
    requires Inv(w) && MayWait(w, p, m) && t in w.thr && ExactFor(w, t) && r == Block(w, p, m) && w.thr[t].held != []
    requires w.thr[w.mtx[m].owner.value].pri < w.thr[p].pri && w.mtx[m].owner.value in Chain(w, w.mtx[m].owner.value)
    requires t !in Chain(w, w.mtx[m].owner.value)
    ensures forall k, u :: k in w.thr[t].held && k in r.mtx && u in r.mtx[k].waiting && u in r.thr ==> r.thr[u].pri <= w.thr[t].pri
  {
    forall k, u | k in w.thr[t].held && k in r.mtx && u in r.mtx[k].waiting && u in r.thr
      ensures r.thr[u].pri <= w.thr[t].pri
    {
      QueuesAfterEnqueue(w, p, m, t, k);
      WaitersOffChain(w, w.mtx[m].owner.value, t, k, u);
    }
  }

  lemma OffChainWaiter<T, M>(w: World<T, M>, p: T, m: M, t: T, r: World<T, M>)
    requires Links(r)
    requires Inv(w) && MayWait(w, p, m) && t in w.thr && ExactFor(w, t) && r == Block(w, p, m) && w.thr[t].held != []
    requires w.thr[w.mtx[m].owner.value].pri < w.thr[p].pri && w.mtx[m].owner.value in Chain(w, w.mtx[m].owner.value)
    requires t !in Chain(w, w.mtx[m].owner.value) && w.thr[t].pri != w.thr[t].saved
    ensures WaiterAt(r, w.thr[t].held, w.thr[t].pri)
  {
    var k, u := SomeWaiter(w, w.thr[t].held, w.thr[t].pri);
    QueuesAfterEnqueue(w, p, m, t, k);
    WaitersOffChain(w, w.mtx[m].owner.value, t, k, u);
    WaiterIs(r, w.thr[t].held, w.thr[t].pri, k, u);
  }

  /** Every thread of the chain has, after the raise, a waiter at the requester's priority. */
  lemma ChainHasRaisedWaiter<T, M>(w: World<T, M>, p: T, m: M, t: T)
    requires Inv(w) && MayWait(w, p, m) && t in w.thr
    requires w.thr[w.mtx[m].owner.value].pri < w.thr[p].pri
    requires t in Chain(w, w.mtx[m].owner.value)
    ensures Inv(Block(w, p, m)) && WaiterAt(Block(w, p, m), w.thr[t].held, w.thr[p].pri)
  {
    BlockInv(w, p, m);
    var o := w.mtx[m].owner.value;
    var r := Block(w, p, m);
    if t == o {
      assert MutexLinks(w, m);
      assert m in w.thr[t].held && m in r.mtx && p in r.mtx[m].waiting && r.thr[p].pri == w.thr[p].pri;
    } else {
      var n: nat :| Ends(w, o, n);
      ChainFacts(w, o, n);
      var d :| d in Chain(w, o) && Blocker(w, d) == Some(t);
      BlockerKnown(w, d);
      var k := w.thr[d].waitsFor.value;
      assert ThreadLinks(w, d);
      assert k in w.thr[t].held && k in r.mtx && d in r.mtx[k].waiting && r.thr[d].pri == w.thr[p].pri;
    }
  }

  lemma OnChainStaysExact<T, M>(w: World<T, M>, p: T, m: M, t: T)
    requires Inv(w) && MayWait(w, p, m) && t in w.thr && ExactFor(w, t)
    requires w.thr[w.mtx[m].owner.value].pri < w.thr[p].pri
    requires t in Chain(w, w.mtx[m].owner.value) && w.thr[t].pri <= w.thr[p].pri
    ensures Inv(Block(w, p, m)) && t in Block(w, p, m).thr && ExactFor(Block(w, p, m), t)
  {
    ChainHasRaisedWaiter(w, p, m, t);
    var r := Block(w, p, m);
    var s := w.thr[t];
    assert r.thr[t] == s.(pri := w.thr[p].pri);
    forall k, u | k in s.held && k in r.mtx && u in r.mtx[k].waiting && u in r.thr
      ensures r.thr[u].pri <= w.thr[p].pri
    {
      QueuesAfterEnqueue(w, p, m, t, k);
    }
  }

  /** A thread of the chain that was above the requester ends below what its waiters deserve. */
  lemma LoweredNotExact<T, M>(w: World<T, M>, p: T, m: M, d: T, c: T)
    requires Inv(w) && MayWait(w, p, m) && Exact(w) && d in w.thr && c in w.thr
    requires w.thr[w.mtx[m].owner.value].pri < w.thr[p].pri
    requires d in Chain(w, w.mtx[m].owner.value) && Blocker(w, d) == Some(c)
    requires w.thr[d].pri <= w.thr[p].pri < w.thr[c].pri
    ensures Inv(Block(w, p, m)) && c in Block(w, p, m).thr && !ExactFor(Block(w, p, m), c)
  {
    BlockInv(w, p, m);
    var o := w.mtx[m].owner.value;
    var r := Block(w, p, m);
    var n: nat :| Ends(w, o, n);
    ChainFacts(w, o, n);
    BlockerKnown(w, d);
    assert r.thr[c] == w.thr[c].(pri := w.thr[p].pri);
    assert ExactFor(w, c);
    if w.thr[c].pri != w.thr[c].saved { HigherWaiterStays(w, p, m, d, c, n, r); }
  }

  /** Who gave c its priority waits for c still, at that priority. */
  lemma HigherWaiterStays<T, M>(w: World<T, M>, p: T, m: M, d: T, c: T, n: nat, r: World<T, M>)
    requires Inv(w) && MayWait(w, p, m) && d in w.thr && c in w.thr && r == Block(w, p, m) && ExactFor(w, c)
    requires w.thr[w.mtx[m].owner.value].pri < w.thr[p].pri && Ends(w, w.mtx[m].owner.value, n)
    requires d in Chain(w, w.mtx[m].owner.value) && Blocker(w, d) == Some(c)
    requires w.thr[d].pri <= w.thr[p].pri < w.thr[c].pri != w.thr[c].saved && w.thr[c].held != []
    ensures exists k, u :: k in w.thr[c].held && k in r.mtx && u in r.mtx[k].waiting && u in r.thr && r.thr[u].pri == w.thr[c].pri
  {
    var o := w.mtx[m].owner.value;
    var k, u := SomeWaiter(w, w.thr[c].held, w.thr[c].pri);
    QueuesAfterEnqueue(w, p, m, c, k);
    WaitersOffChain(w, o, c, k, u);
    if u in Chain(w, o) { ChainIsLine(w, o, n, d, u); }
    assert u in r.mtx[k].waiting && r.thr[u].pri == w.thr[c].pri;
  }

  /** If the result is exact, no thread of the chain was above the requester. */
  lemma {:induction false} ExactMeansChainLow<T, M>(w: World<T, M>, p: T, m: M, t: T, n: nat)
    requires Inv(w) && MayWait(w, p, m) && Exact(w) && t in w.thr && Ends(w, t, n)
    requires w.thr[w.mtx[m].owner.value].pri < w.thr[p].pri
    requires t in Chain(w, w.mtx[m].owner.value) && w.thr[t].pri <= w.thr[p].pri
    requires Inv(Block(w, p, m)) && Exact(Block(w, p, m))
    ensures forall c :: c in Chain(w, t) ==> c in w.thr && w.thr[c].pri <= w.thr[p].pri
    decreases n
  {
    ChainUnfolds(w, t);
    if Blocker(w, t).Some? {
      BlockerKnown(w, t);
      var c := Blocker(w, t).value;
      if w.thr[c].pri > w.thr[p].pri { LoweredNotExact(w, p, m, t, c); }
      var k: nat :| Ends(w, w.mtx[m].owner.value, k);
      ChainFacts(w, w.mtx[m].owner.value, k);
      ExactMeansChainLow(w, p, m, c, n - 1);
    }
  }

  /**
   * Queueing keeps inheritance exact precisely when nothing has to be assigned,
   * or no thread the owner waits for is already above the requester. The walk
   * assigns without comparing, so in every other case it lowers someone.
   */
  lemma BlockExactIff<T, M>(w: World<T, M>, p: T, m: M)
    requires Inv(w) && Exact(w) && MayWait(w, p, m)
    ensures Inv(Block(w, p, m))
    ensures var o := w.mtx[m].owner.value;
      Exact(Block(w, p, m)) <==>
        w.thr[o].pri >= w.thr[p].pri || forall c :: c in Chain(w, o) ==> c in w.thr && w.thr[c].pri <= w.thr[p].pri
  {
    BlockInv(w, p, m);
    var o := w.mtx[m].owner.value;
    var r := Block(w, p, m);
    var n: nat :| Ends(w, o, n);
    ChainFacts(w, o, n);
    if w.thr[o].pri >= w.thr[p].pri {
      forall t | t in r.thr
        ensures ExactFor(r, t)
      {
        assert ExactFor(w, t);
        QueueKeepsExact(w, p, m, t);
      }
    } else if forall c :: c in Chain(w, o) ==> w.thr[c].pri <= w.thr[p].pri {
      forall t | t in r.thr
        ensures ExactFor(r, t)
      {
        assert ExactFor(w, t);
        if t in Chain(w, o) { OnChainStaysExact(w, p, m, t); } else { OffChainStaysExact(w, p, m, t); }
      }
    } else if Exact(r) {
      ExactMeansChainLow(w, p, m, o, n);
    }
  }

  // ----- taking a free mutex

  /** A thread that keeps its mutexes, their queues and its priorities keeps its exactness. */
  lemma SameQueuesExact<T, M>(w: World<T, M>, r: World<T, M>, t: T)
    requires Links(w) && Links(r) && t in w.thr && t in r.thr && ExactFor(w, t)
    requires r.thr[t].held == w.thr[t].held && r.thr[t].pri == w.thr[t].pri && r.thr[t].saved == w.thr[t].saved
    requires forall k :: k in w.thr[t].held && k in w.mtx ==> k in r.mtx && r.mtx[k].waiting == w.mtx[k].waiting
    requires forall k, u :: k in w.thr[t].held && k in w.mtx && u in w.mtx[k].waiting && u in w.thr ==> u in r.thr && r.thr[u].pri == w.thr[u].pri
    ensures ExactFor(r, t)
  {
    forall k, u | k in r.thr[t].held && k in r.mtx && u in r.mtx[k].waiting && u in r.thr && r.thr[t].held != []
      ensures r.thr[u].pri <= r.thr[t].pri
    {
      assert ThreadLinks(w, t) && MutexLinks(w, k);
    }
  }

  lemma TakeInv<T, M>(w: World<T, M>, p: T, m: M)
    requires Inv(w) && Running(w, p) && m in w.mtx && w.mtx[m].owner.None?
    ensures Inv(Take(w, p, m))
  {
    var r := Take(w, p, m);
    assert MutexLinks(w, m);
    forall t | t in r.thr
      ensures ThreadLinks(r, t)
    {
      assert ThreadLinks(w, t);
    }
    forall k | k in r.mtx
      ensures MutexLinks(r, k)
    {
      assert MutexLinks(w, k);
    }
    forall u | u in w.thr
      ensures Blocker(w, u) == Blocker(r, u)
    {
      assert ThreadLinks(w, u);
    }
    SameBlockersAcyclic(w, r);
  }

  lemma TakeExact<T, M>(w: World<T, M>, p: T, m: M)
    requires Inv(w) && Exact(w) && Running(w, p) && m in w.mtx && w.mtx[m].owner.None?
    ensures Inv(Take(w, p, m)) && Exact(Take(w, p, m))
  {
    TakeInv(w, p, m);
    var r := Take(w, p, m);
    assert MutexLinks(w, m);
    forall t | t in r.thr
      ensures ExactFor(r, t)
    {
      assert ExactFor(w, t) && ThreadLinks(w, t);
      if t != p { SameQueuesExact(w, r, t); } else { TakerExact(w, p, m); }
    }
  }

  lemma TakerExact<T, M>(w: World<T, M>, p: T, m: M)
    requires Inv(w) && p in w.thr && ExactFor(w, p) && m in w.mtx && w.mtx[m].waiting == {}
    requires Links(Take(w, p, m))
    ensures ExactFor(Take(w, p, m), p)
  {
    var r := Take(w, p, m);
    var s := w.thr[p];
    assert ThreadLinks(w, p);
    if s.held != [] && s.pri != s.saved {
      var k, u := SomeWaiter(w, s.held, s.pri);
      WaiterIs(r, r.thr[p].held, s.pri, k, u);
    }
  }

  // ----- recursion depth

  ghost function SetDepth<T, M>(w: World<T, M>, m: M, depth: int): World<T, M>
    requires m in w.mtx
  {
    w.(mtx := w.mtx[m := w.mtx[m].(depth := depth)])
  }

  /** A recursive mutex is set to a depth; another is left alone. */
  ghost function Restored<T, M>(w: World<T, M>, m: M, depth: nat): World<T, M>
    requires m in w.mtx
  {
    if w.mtx[m].depth >= 0 then SetDepth(w, m, depth) else w
  }

  /** Only the depth of an owned mutex may be raised; nothing else changes. */
  lemma SetDepthInv<T, M>(w: World<T, M>, m: M, depth: int)
    requires Inv(w) && m in w.mtx && w.mtx[m].owner.Some? && depth >= -1
    ensures Inv(SetDepth(w, m, depth)) && (Exact(w) ==> Exact(SetDepth(w, m, depth)))
  {
    var r := SetDepth(w, m, depth);
    SetDepthLinks(w, m, depth, r);
    SameBlockersAcyclic(w, r);
    if Exact(w) {
      forall t | t in r.thr
        ensures ExactFor(r, t)
      {
        assert ExactFor(w, t);
        SameQueuesExact(w, r, t);
      }
    }
  }

  lemma SetDepthLinks<T, M>(w: World<T, M>, m: M, depth: int, r: World<T, M>)
    requires Inv(w) && m in w.mtx && w.mtx[m].owner.Some? && depth >= -1 && r == SetDepth(w, m, depth)
    ensures Links(r) && forall t :: t in w.thr ==> Blocker(r, t) == Blocker(w, t)
  {
    forall t | t in r.thr
      ensures ThreadLinks(r, t)
    {
      assert ThreadLinks(w, t);
    }
    forall k | k in r.mtx
      ensures MutexLinks(r, k)
    {
      assert MutexLinks(w, k);
    }
  }

  // ----- releasing

  /** The priority a thread is left with when it holds only rest. */
  ghost predicate LeftPriority<T, M>(w: World<T, M>, p: T, rest: seq<M>, pr: int)
    requires Links(w) && p in w.thr
  {
    if rest == [] then pr == w.thr[p].saved else Inherited(w, w.thr[p].saved, rest, pr)
  }

  ghost predicate MayRelease<T, M>(w: World<T, M>, p: T, m: M, pr: int)
  {
    && Inv(w) && Running(w, p) && m in w.mtx && w.mtx[m].owner == Some(p)
    && LeftPriority(w, p, Without(w.thr[p].held, m), pr)
  }

  /** Recursion depth of a mutex that nobody has locked yet. */
  ghost function Unlocked(depth: int): int
  {
    if depth < 0 then depth else 0
  }

  /** Unlocking a mutex that nobody waits for. */
  ghost function Free<T, M>(w: World<T, M>, p: T, m: M, pr: int): World<T, M>
    requires p in w.thr && m in w.mtx
  {
    World(w.thr[p := w.thr[p].(held := Without(w.thr[p].held, m), pri := pr)],
          w.mtx[m := MutexState(None, {}, Unlocked(w.mtx[m].depth))])
  }

  /** The first step of unlocking: m is off p's list, but still p's. */
  ghost function Unlisted<T, M>(w: World<T, M>, p: T, m: M): World<T, M>
    requires p in w.thr
  {
    w.(thr := w.thr[p := w.thr[p].(held := Without(w.thr[p].held, m))])
  }

  /** n is a waiter of m of highest priority. */
  ghost predicate HighestWaiter<T, M>(w: World<T, M>, m: M, n: T)
  {
    && m in w.mtx && n in w.mtx[m].waiting && n in w.thr
    && forall u :: u in w.mtx[m].waiting && u in w.thr ==> w.thr[u].pri <= w.thr[n].pri
  }

  /** Unlocking a mutex that n gets: n keeps its priority, which is its own again. */
  ghost function HandOff<T, M>(w: World<T, M>, p: T, m: M, pr: int, n: T): World<T, M>
    requires p in w.thr && m in w.mtx && n in w.thr
  {
    var s := w.thr[n];
    World(w.thr[p := w.thr[p].(held := Without(w.thr[p].held, m), pri := pr)]
               [n := ThreadState(s.pri, if s.held == [] then s.pri else s.saved, [m] + s.held, None)],
          w.mtx[m := MutexState(Some(n), w.mtx[m].waiting - {n}, Unlocked(w.mtx[m].depth))])
  }

  lemma WithoutLinks<T, M>(w: World<T, M>, p: T, m: M)
    requires p in w.thr && ThreadLinks(w, p)
    ensures Distinct(Without(w.thr[p].held, m))
    ensures forall k :: k in Without(w.thr[p].held, m) ==> k != m && k in w.mtx && w.mtx[k].owner == Some(p)
    ensures forall k :: k in w.thr[p].held && k != m ==> k in Without(w.thr[p].held, m)
  {
    WithoutFacts(w.thr[p].held, m);
    assert Distinct(w.thr[p].held);
    forall k | k in Without(w.thr[p].held, m)
      ensures k != m && k in w.mtx && w.mtx[k].owner == Some(p)
    {
      assert k in w.thr[p].held;
    }
  }

  /** p's new priority, before m changes hands. */
  ghost function Settled<T, M>(w: World<T, M>, p: T, m: M, pr: int): World<T, M>
    requires p in w.thr
  {
    Raise(Unlisted(w, p, m), {p}, pr)
  }

  /** n leaves the queue of m. */
  ghost function Dequeue<T, M>(w: World<T, M>, m: M, n: T): World<T, M>
    requires m in w.mtx && n in w.thr
  {
    World(w.thr[n := w.thr[n].(waitsFor := None)], w.mtx[m := w.mtx[m].(waiting := w.mtx[m].waiting - {n})])
  }

  /** The steps of a hand-off add up to it. */
  lemma HandOffInSteps<T, M>(w: World<T, M>, p: T, m: M, pr: int, n: T)
    requires p in w.thr && m in w.mtx && n in w.thr && n != p
    ensures SetDepth(Take(Dequeue(Settled(w, p, m, pr), m, n), n, m), m, Unlocked(w.mtx[m].depth)) == HandOff(w, p, m, pr, n)
  {
  }

  /** Nobody owns m any more. */
  ghost function Disown<T, M>(w: World<T, M>, m: M): World<T, M>
    requires m in w.mtx
  {
    w.(mtx := w.mtx[m := w.mtx[m].(owner := None)])
  }

  lemma FreeInSteps<T, M>(w: World<T, M>, p: T, m: M, pr: int)
    requires p in w.thr && m in w.mtx && w.mtx[m].waiting == {}
    ensures SetDepth(Disown(Settled(w, p, m, pr), m), m, Unlocked(w.mtx[m].depth)) == Free(w, p, m, pr)
  {
  }

  /** The maximum over the queues of a list, one mutex more. */
  lemma InheritedMore<T, M>(w: World<T, M>, base: int, held: seq<M>, k: M, v: int, v': int)
    requires Links(w) && Inherited(w, base, held, v) && k in w.mtx && v <= v'
    requires forall u :: u in w.mtx[k].waiting && u in w.thr ==> w.thr[u].pri <= v'
    requires v == v' || WaiterAt(w, [k], v')
    ensures Inherited(w, base, held + [k], v')
  {
    if v == v' {
      if v != base {
        var m, u := SomeWaiter(w, held, v);
        WaiterIs(w, held + [k], v, m, u);
      }
    } else {
      var m, u := SomeWaiter(w, [k], v');
      WaiterIs(w, held + [k], v', m, u);
    }
  }

  lemma FreeInv<T, M>(w: World<T, M>, p: T, m: M, pr: int)
    requires MayRelease(w, p, m, pr) && w.mtx[m].waiting == {}
    ensures Inv(Free(w, p, m, pr))
  {
    var r := Free(w, p, m, pr);
    assert ThreadLinks(w, p) && MutexLinks(w, m);
    WithoutLinks(w, p, m);
    forall t | t in r.thr
      ensures ThreadLinks(r, t)
    {
      assert ThreadLinks(w, t);
    }
    forall k | k in r.mtx
      ensures MutexLinks(r, k)
    {
      assert MutexLinks(w, k);
    }
    forall u | u in w.thr
      ensures Blocker(w, u) == Blocker(r, u)
    {
      assert ThreadLinks(w, u);
    }
    SameBlockersAcyclic(w, r);
  }

  lemma ReleaserExact<T, M>(w: World<T, M>, r: World<T, M>, p: T, m: M, pr: int)
    requires MayRelease(w, p, m, pr) && Links(r) && p in r.thr
    requires r.thr[p] == w.thr[p].(held := Without(w.thr[p].held, m), pri := pr)
    requires forall k :: k in w.mtx && k != m ==> k in r.mtx && r.mtx[k].waiting == w.mtx[k].waiting
    requires forall u :: u in w.thr && u != p ==> u in r.thr && r.thr[u].pri == w.thr[u].pri
    ensures ExactFor(r, p)
  {
    var rest := r.thr[p].held;
    WithoutFacts(w.thr[p].held, m);
    assert ThreadLinks(w, p);
    if rest != [] {
      forall k, u | k in rest && k in r.mtx && u in r.mtx[k].waiting && u in r.thr
        ensures r.thr[u].pri <= pr
      {
        assert MutexLinks(w, k);
      }
      if pr != w.thr[p].saved {
        var k, u := SomeWaiter(w, rest, pr);
        assert MutexLinks(w, k);
        WaiterIs(r, rest, pr, k, u);
      }
    }
  }

  lemma FreeExact<T, M>(w: World<T, M>, p: T, m: M, pr: int)
    requires MayRelease(w, p, m, pr) && w.mtx[m].waiting == {} && Exact(w)
    ensures Inv(Free(w, p, m, pr)) && Exact(Free(w, p, m, pr))
  {
    FreeInv(w, p, m, pr);
    var r := Free(w, p, m, pr);
    forall t | t in r.thr
      ensures ExactFor(r, t)
    {
      assert ExactFor(w, t) && ThreadLinks(w, t);
      if t == p {
        ReleaserExact(w, r, p, m, pr);
      } else {
        NotTheReleaser(w, p, m, t);
        SameQueuesExact(w, r, t);
      }
    }
  }

  /** The queues of another thread are not that of m, and the releaser is in none of them. */
  lemma NotTheReleaser<T, M>(w: World<T, M>, p: T, m: M, t: T)
    requires Links(w) && Running(w, p) && m in w.mtx && w.mtx[m].owner == Some(p) && t in w.thr && t != p
    ensures m !in w.thr[t].held
    ensures forall k :: k in w.thr[t].held && k in w.mtx ==> p !in w.mtx[k].waiting
  {
    assert ThreadLinks(w, t);
    forall k | k in w.thr[t].held && k in w.mtx
      ensures p !in w.mtx[k].waiting
    {
      assert MutexLinks(w, k);
    }
  }

  lemma HandOffLinks<T, M>(w: World<T, M>, p: T, m: M, pr: int, n: T)
    requires MayRelease(w, p, m, pr) && HighestWaiter(w, m, n)
    ensures n != p && Links(HandOff(w, p, m, pr, n))
  {
    var r := HandOff(w, p, m, pr, n);
    assert ThreadLinks(w, p) && MutexLinks(w, m) && ThreadLinks(w, n);
    WithoutLinks(w, p, m);
    forall t | t in r.thr
      ensures ThreadLinks(r, t)
    {
      assert ThreadLinks(w, t);
    }
    forall k | k in r.mtx
      ensures MutexLinks(r, k)
    {
      assert MutexLinks(w, k);
    }
  }

  lemma {:induction false} HandOffEnds<T, M>(w: World<T, M>, p: T, m: M, pr: int, n: T, t: T, i: nat)
    requires MayRelease(w, p, m, pr) && HighestWaiter(w, m, n) && t in w.thr && Ends(w, t, i)
    ensures var r := HandOff(w, p, m, pr, n); Links(r) && t in r.thr && Ends(r, t, i)
    decreases i
  {
    HandOffLinks(w, p, m, pr, n);
    var r := HandOff(w, p, m, pr, n);
    assert ThreadLinks(w, t);
    if Blocker(w, t).Some? && t != n {
      BlockerKnown(w, t);
      if w.thr[t].waitsFor == Some(m) {
        assert Blocker(r, t) == Some(n) && Ends(r, n, i - 1);
      } else {
        HandOffEnds(w, p, m, pr, n, Blocker(w, t).value, i - 1);
      }
    }
  }

  lemma HandOffInv<T, M>(w: World<T, M>, p: T, m: M, pr: int, n: T)
    requires MayRelease(w, p, m, pr) && HighestWaiter(w, m, n)
    ensures Inv(HandOff(w, p, m, pr, n))
  {
    HandOffLinks(w, p, m, pr, n);
    var r := HandOff(w, p, m, pr, n);
    forall t | t in r.thr
      ensures exists i :: Ends(r, t, i)
    {
      var i: nat :| Ends(w, t, i);
      HandOffEnds(w, p, m, pr, n, t, i);
    }
  }

  lemma ReceiverExact<T, M>(w: World<T, M>, p: T, m: M, pr: int, n: T)
    requires MayRelease(w, p, m, pr) && HighestWaiter(w, m, n) && ExactFor(w, n)
    ensures Links(HandOff(w, p, m, pr, n)) && ExactFor(HandOff(w, p, m, pr, n), n)
  {
    HandOffLinks(w, p, m, pr, n);
    var r := HandOff(w, p, m, pr, n);
    NotTheReleaser(w, p, m, n);
    assert ThreadLinks(w, n) && MutexLinks(w, m);
    ReceiverBound(w, p, m, pr, n, r);
    if w.thr[n].held != [] && w.thr[n].pri != w.thr[n].saved {
      var k, u := SomeWaiter(w, w.thr[n].held, w.thr[n].pri);
      WaiterIs(r, r.thr[n].held, w.thr[n].pri, k, u);
    }
  }

  lemma ReceiverBound<T, M>(w: World<T, M>, p: T, m: M, pr: int, n: T, r: World<T, M>)
    requires MayRelease(w, p, m, pr) && HighestWaiter(w, m, n) && ExactFor(w, n) && r == HandOff(w, p, m, pr, n)
    requires n != p && (forall k :: k in w.thr[n].held && k in w.mtx ==> p !in w.mtx[k].waiting) && p !in w.mtx[m].waiting
    ensures forall k, u :: k in r.thr[n].held && k in r.mtx && u in r.mtx[k].waiting && u in r.thr ==> r.thr[u].pri <= w.thr[n].pri
  {
    assert ThreadLinks(w, n) && MutexLinks(w, m);
    forall k, u | k in r.thr[n].held && k in r.mtx && u in r.mtx[k].waiting && u in r.thr
      ensures r.thr[u].pri <= w.thr[n].pri
    {
      assert MutexLinks(w, k);
    }
  }

  lemma BystanderExact<T, M>(w: World<T, M>, p: T, m: M, pr: int, n: T, t: T)
    requires MayRelease(w, p, m, pr) && HighestWaiter(w, m, n) && t in w.thr && ExactFor(w, t) && t != p && t != n
    ensures Links(HandOff(w, p, m, pr, n)) && ExactFor(HandOff(w, p, m, pr, n), t)
  {
    HandOffLinks(w, p, m, pr, n);
    NotTheReleaser(w, p, m, t);
    SameQueuesExact(w, HandOff(w, p, m, pr, n), t);
  }

  /** Handing a mutex over leaves everybody exact, though the receiver's priority is never touched. */
  lemma HandOffExact<T, M>(w: World<T, M>, p: T, m: M, pr: int, n: T)
    requires MayRelease(w, p, m, pr) && HighestWaiter(w, m, n) && Exact(w)
    ensures Inv(HandOff(w, p, m, pr, n)) && Exact(HandOff(w, p, m, pr, n))
  {
    HandOffInv(w, p, m, pr, n);
    HandOffLinks(w, p, m, pr, n);
    var r := HandOff(w, p, m, pr, n);
    forall t | t in r.thr
      ensures ExactFor(r, t)
    {
      assert ExactFor(w, t);
      if t == n {
        ReceiverExact(w, p, m, pr, n);
      } else if t == p {
        ReleaserExact(w, r, p, m, pr);
      } else {
        BystanderExact(w, p, m, pr, n, t);
      }
    }
  }

  /** What unlocking comes to: n is the thread that gets the mutex, if any does. */
  ghost function Release<T, M>(w: World<T, M>, p: T, m: M, pr: int, n: Option<T>): World<T, M>
    requires p in w.thr && m in w.mtx && (n.Some? ==> n.value in w.thr)
  {
    if n.None? then Free(w, p, m, pr) else HandOff(w, p, m, pr, n.value)
  }

  /** Somebody gets the mutex exactly if somebody waits for it, and it is one of highest priority. */
  ghost predicate Releases<T, M>(w: World<T, M>, p: T, m: M, pr: int, n: Option<T>)
  {
    MayRelease(w, p, m, pr) && if n.None? then w.mtx[m].waiting == {} else HighestWaiter(w, m, n.value)
  }

  lemma ReleaseInv<T, M>(w: World<T, M>, p: T, m: M, pr: int, n: Option<T>)
    requires Releases(w, p, m, pr, n)
    ensures Inv(Release(w, p, m, pr, n)) && (Exact(w) ==> Exact(Release(w, p, m, pr, n)))
  {
    if n.None? {
      FreeInv(w, p, m, pr);
      if Exact(w) { FreeExact(w, p, m, pr); }
    } else {
      HandOffInv(w, p, m, pr, n.value);
      if Exact(w) { HandOffExact(w, p, m, pr, n.value); }
    }
  }

  // ----- changing one's own priority

  /** setPriority of a running thread: pr is what the request v comes to with the mutexes it holds. */
  ghost function Reprioritize<T, M>(w: World<T, M>, p: T, v: int, pr: int): World<T, M>
    requires p in w.thr
  {
    var s := w.thr[p];
    w.(thr := w.thr[p := s.(pri := pr, saved := if s.held == [] then s.saved else v)])
  }

  ghost predicate RequestedPriority<T, M>(w: World<T, M>, p: T, v: int, pr: int)
    requires Links(w) && p in w.thr
  {
    if w.thr[p].held == [] then pr == v else Inherited(w, v, w.thr[p].held, pr)
  }

  lemma ReprioritizeInv<T, M>(w: World<T, M>, p: T, v: int, pr: int)
    requires Inv(w) && p in w.thr
    ensures Inv(Reprioritize(w, p, v, pr))
  {
    var r := Reprioritize(w, p, v, pr);
    forall t | t in r.thr
      ensures ThreadLinks(r, t)
    {
      assert ThreadLinks(w, t);
    }
    forall m | m in r.mtx
      ensures MutexLinks(r, m)
    {
      assert MutexLinks(w, m);
    }
    SameBlockersAcyclic(w, r);
  }

  lemma ReprioritizeExact<T, M>(w: World<T, M>, p: T, v: int, pr: int)
    requires Inv(w) && Exact(w) && Running(w, p) && RequestedPriority(w, p, v, pr)
    ensures Inv(Reprioritize(w, p, v, pr)) && Exact(Reprioritize(w, p, v, pr))
  {
    ReprioritizeInv(w, p, v, pr);
    var r := Reprioritize(w, p, v, pr);
    forall t | t in r.thr
      ensures ExactFor(r, t)
    {
      assert ExactFor(w, t) && ThreadLinks(w, t);
      forall k | k in w.thr[t].held && k in w.mtx
        ensures p !in w.mtx[k].waiting
      {
        assert MutexLinks(w, k);
      }
      if t != p { SameQueuesExact(w, r, t); } else { RequesterExact(w, p, v, pr); }
    }
  }

  lemma RequesterExact<T, M>(w: World<T, M>, p: T, v: int, pr: int)
    requires Inv(w) && Running(w, p) && RequestedPriority(w, p, v, pr)
    requires Links(Reprioritize(w, p, v, pr))
    ensures ExactFor(Reprioritize(w, p, v, pr), p)
  {
    var r := Reprioritize(w, p, v, pr);
    var held := w.thr[p].held;
    assert ThreadLinks(w, p);
    if held != [] {
      forall k, u | k in held && k in r.mtx && u in r.mtx[k].waiting && u in r.thr
        ensures r.thr[u].pri <= pr
      {
        assert MutexLinks(w, k);
      }
      if pr != v {
        var k, u := SomeWaiter(w, held, pr);
        assert MutexLinks(w, k);
        WaiterIs(r, held, pr, k, u);
      }
    }
  }
}
