// The life of processes (process.cpp): creation, exit, and the two ways of waiting for a
// child. A step is what one thread does while it holds the mutex of the process table.

module ProcessTable {
  import opened Common

  /** childs and zombies list the children by pid; waitCount threads wait for this one in particular. */
  datatype Process = Process(ppid: int, childs: seq<int>, zombies: seq<int>, waitCount: int, zombie: bool, exitCode: int)

  type Table = map<int, Process>

  const KERNEL: int := 0

  // ----- the invariant

  /** A list of children of q that live. */
  ghost predicate Living(t: Table, q: int, list: seq<int>)
  {
    Distinct(list) && forall c :: c in list ==> c in t && c != KERNEL && t[c].ppid == q && !t[c].zombie
  }

  /** A list of children of q that have ended, and that nobody waits for. */
  ghost predicate Ended(t: Table, q: int, list: seq<int>)
  {
    Distinct(list) && forall c :: c in list ==> c in t && c != KERNEL && t[c].ppid == q && t[c].zombie && t[c].waitCount == 0
  }

  ghost predicate ListsOk(t: Table, q: int)
    requires q in t
  {
    && Living(t, q, t[q].childs) && Ended(t, q, t[q].zombies)
    && (t[q].zombie ==> t[q].childs == [] && t[q].zombies == [])
  }

  /** A process is one of its parent's children, or of its zombies, or it is kept for those who wait for it. */
  ghost predicate PlaceOk(t: Table, p: int)
    requires p in t
  {
    && t[p].ppid in t && t[p].ppid != p && !t[t[p].ppid].zombie && t[p].waitCount >= 0
    && (!t[p].zombie ==> p in t[t[p].ppid].childs)
    && (t[p].zombie && t[p].waitCount == 0 ==> p in t[t[p].ppid].zombies)
  }

  ghost predicate Inv(t: Table)
  {
    && KERNEL in t && !t[KERNEL].zombie
    && (forall q :: q in t ==> ListsOk(t, q))
    && (forall p :: p in t && p != KERNEL ==> PlaceOk(t, p))
  }

  // ----- what the operations do

  ghost function Create(t: Table, parent: int, pid: int): Table
    requires parent in t
  {
    t[pid := Process(parent, [], [], 0, false, 0)][parent := t[parent].(childs := t[parent].childs + [pid])]
  }

  /** The thread of a new process could not be made. */
  ghost function Undone(t: Table, parent: int, pid: int): Table
    requires parent in t
  {
    t[parent := t[parent].(childs := Without(t[parent].childs, pid))] - {pid}
  }

  /** The children of p become the kernel's. */
  ghost function Adopted(t: Table, p: int): Table
    requires p in t && KERNEL in t && p != KERNEL
  {
    var o: Table := map c | c in t :: if c in t[p].childs || c in t[p].zombies then t[c].(ppid := KERNEL) else t[c];
    o[KERNEL := o[KERNEL].(childs := t[p].childs + o[KERNEL].childs, zombies := t[p].zombies + o[KERNEL].zombies)]
     [p := o[p].(childs := [], zombies := [])]
  }

  /** p is a zombie: its parent's if nobody waits for it, and otherwise theirs who do. */
  ghost function Buried(t: Table, p: int, code: int): Table
    requires p in t && t[p].ppid in t && t[p].ppid != p
  {
    var q := t[p].ppid;
    t[p := t[p].(zombie := true, exitCode := code)]
     [q := t[q].(childs := Without(t[q].childs, p), zombies := if t[p].waitCount > 0 then t[q].zombies else t[q].zombies + [p])]
  }

  ghost function Reaped(t: Table, parent: int, p: int): Table
    requires parent in t
  {
    t[parent := t[parent].(zombies := Without(t[parent].zombies, p))] - {p}
  }

  ghost function Counted(t: Table, p: int, k: int): Table
    requires p in t
  {
    t[p := t[p].(waitCount := t[p].waitCount + k)]
  }

  // ----- lists alone

  lemma DistinctPlus(s: seq<int>, x: int)
    requires Distinct(s) && x !in s
    ensures Distinct(s + [x])
  {
  }

  ghost predicate Alike(t: Table, r: Table, c: int)
  {
    c in t && c in r && r[c].ppid == t[c].ppid && r[c].zombie == t[c].zombie && r[c].waitCount == t[c].waitCount
  }

  /** A list is as good in a table in which its children look the same. */
  lemma ListsKept(t: Table, r: Table, q: int, childs: seq<int>, zombies: seq<int>)
    requires Living(t, q, childs) && Ended(t, q, zombies)
    requires forall c :: c in childs || c in zombies ==> Alike(t, r, c)
    ensures Living(r, q, childs) && Ended(r, q, zombies)
  {
  }

  lemma LivingWithout(t: Table, q: int, list: seq<int>, p: int)
    requires Living(t, q, list)
    ensures Living(t, q, Without(list, p)) && p !in Without(list, p) && (list == [] ==> Without(list, p) == [])
  {
    WithoutFacts(list, p);
  }

  lemma EndedWithout(t: Table, q: int, list: seq<int>, p: int)
    requires Ended(t, q, list)
    ensures Ended(t, q, Without(list, p)) && p !in Without(list, p) && (list == [] ==> Without(list, p) == [])
  {
    WithoutFacts(list, p);
  }

  lemma LivingPlus(t: Table, q: int, list: seq<int>, p: int)
    requires Living(t, q, list) && p !in list && p in t && p != KERNEL && t[p].ppid == q && !t[p].zombie
    ensures Living(t, q, list + [p])
  {
    DistinctPlus(list, p);
  }

  lemma EndedPlus(t: Table, q: int, list: seq<int>, p: int)
    requires Ended(t, q, list) && p !in list && p in t && p != KERNEL && t[p].ppid == q && t[p].zombie && t[p].waitCount == 0
    ensures Ended(t, q, list + [p])
  {
    DistinctPlus(list, p);
  }

  // ----- what they keep

  lemma CreateInv(t: Table, parent: int, pid: int)
    requires Inv(t) && parent in t && !t[parent].zombie && pid !in t
    ensures Inv(Create(t, parent, pid))
  {
    var r := Create(t, parent, pid);
    CreatedParent(t, parent, pid, r);
    forall q | q in r && q != pid && q != parent
      ensures ListsOk(r, q)
    {
      CreatedOther(t, parent, pid, r, q);
    }
    forall p | p in r && p != KERNEL
      ensures PlaceOk(r, p)
    {
      if p != pid { CreatedPlace(t, parent, pid, r, p); } else { assert r[parent].childs[|t[parent].childs|] == pid; }
    }
  }

  lemma CreatedParent(t: Table, parent: int, pid: int, r: Table)
    requires Inv(t) && parent in t && !t[parent].zombie && pid !in t && pid != KERNEL && r == Create(t, parent, pid)
    ensures ListsOk(r, parent)
  {
    assert ListsOk(t, parent);
    ListsKept(t, r, parent, t[parent].childs, t[parent].zombies);
    LivingPlus(r, parent, t[parent].childs, pid);
  }

  lemma CreatedOther(t: Table, parent: int, pid: int, r: Table, q: int)
    requires Inv(t) && parent in t && pid !in t && r == Create(t, parent, pid) && q in t && q != parent
    ensures ListsOk(r, q)
  {
    assert ListsOk(t, q);
    ListsKept(t, r, q, t[q].childs, t[q].zombies);
  }

  lemma CreatedPlace(t: Table, parent: int, pid: int, r: Table, p: int)
    requires Inv(t) && parent in t && pid !in t && r == Create(t, parent, pid) && p in t && p != KERNEL
    ensures PlaceOk(r, p)
  {
    assert PlaceOk(t, p);
    PlaceStays(t, r, p);
  }

  /** Undoing a creation that nothing has followed leaves the table as it was. */
  lemma UndoneCreate(t: Table, parent: int, pid: int)
    requires Inv(t) && parent in t && pid !in t
    ensures Undone(Create(t, parent, pid), parent, pid) == t
  {
    NotYetChild(t, parent, pid);
    WithoutLast(t[parent].childs, pid);
  }

  lemma NotYetChild(t: Table, parent: int, pid: int)
    requires Inv(t) && parent in t && pid !in t
    ensures pid !in t[parent].childs
  {
    assert ListsOk(t, parent);
  }

  lemma {:induction false} WithoutLast(s: seq<int>, p: int)
    requires p !in s
    ensures Without(s + [p], p) == s
  {
    if s == [] {
      assert Without([p], p) == Without([p][1..], p) && [p][1..] == [];
    } else {
      assert (s + [p])[1..] == s[1..] + [p];
      WithoutLast(s[1..], p);
      assert s == [s[0]] + s[1..];
    }
  }

  /** None of p's own threads is waiting for a child, as when its only thread is the one that ends it. */
  ghost predicate NotWaiting(t: Table, p: int)
  {
    forall c :: c in t && c != KERNEL && t[c].ppid == p ==> t[c].waitCount == 0
  }

  ghost predicate NoChildren(t: Table, p: int)
  {
    forall c :: c in t && c != KERNEL ==> t[c].ppid != p
  }

  lemma DistinctBoth(a: seq<int>, b: seq<int>)
    requires Distinct(a) && Distinct(b) && forall c :: c in a ==> c !in b
    ensures Distinct(a + b)
  {
    forall i, j | 0 <= i < j < |a + b|
      ensures (a + b)[i] != (a + b)[j]
    {
      if i < |a| <= j { assert a[i] in a && b[j - |a|] in b; }
    }
  }

  lemma AdoptedInv(t: Table, p: int, r: Table)
    requires Inv(t) && p in t && p != KERNEL && !t[p].zombie && NotWaiting(t, p) && r == Adopted(t, p)
    ensures Inv(r) && r.Keys == t.Keys && NoChildren(r, p)
    ensures r[p] == t[p].(childs := [], zombies := [])
  {
    AdoptedKeys(t, p);
    forall q | q in r
      ensures ListsOk(r, q)
    {
      AdoptedLists(t, p, q);
    }
    forall c | c in r && c != KERNEL
      ensures PlaceOk(r, c) && r[c].ppid != p
    {
      AdoptedPlace(t, p, c);
    }
  }

  lemma AdoptedKeys(t: Table, p: int)
    requires Inv(t) && p in t && p != KERNEL && !t[p].zombie
    ensures var r := Adopted(t, p);
      r.Keys == t.Keys && !r[KERNEL].zombie && r[p] == t[p].(childs := [], zombies := [])
  {
    assert ListsOk(t, p);
    assert PlaceOk(t, p);
    assert p !in t[p].childs && p !in t[p].zombies;
  }

  lemma AdoptedLists(t: Table, p: int, q: int)
    requires Inv(t) && p in t && p != KERNEL && !t[p].zombie && q in t
    ensures ListsOk(Adopted(t, p), q)
  {
    assert ListsOk(t, q) && ListsOk(t, p) && PlaceOk(t, p);
    var r := Adopted(t, p);
    if q == KERNEL {
      AdoptedByKernel(t, p, r);
    } else if q != p {
      ListsKept(t, r, q, t[q].childs, t[q].zombies);
    }
  }

  lemma AdoptedByKernel(t: Table, p: int, r: Table)
    requires KERNEL in t && ListsOk(t, KERNEL) && !t[KERNEL].zombie && p in t && p != KERNEL
    requires ListsOk(t, p) && PlaceOk(t, p) && r == Adopted(t, p)
    ensures ListsOk(r, KERNEL)
  {
    MovedLists(t, r, p, t[p].childs, t[p].zombies);
    OwnLists(t, r, p, t[KERNEL].childs, t[KERNEL].zombies);
    DistinctBoth(t[p].childs, t[KERNEL].childs);
    DistinctBoth(t[p].zombies, t[KERNEL].zombies);
  }

  /** p's children, in the table in which they are the kernel's. */
  lemma MovedLists(t: Table, r: Table, p: int, childs: seq<int>, zombies: seq<int>)
    requires p in t && KERNEL in t && p != KERNEL && r == Adopted(t, p) && childs == t[p].childs && zombies == t[p].zombies
    requires Living(t, p, childs) && Ended(t, p, zombies) && p !in childs && p !in zombies
    ensures Living(r, KERNEL, childs) && Ended(r, KERNEL, zombies)
  {
  }

  lemma OwnLists(t: Table, r: Table, p: int, childs: seq<int>, zombies: seq<int>)
    requires p in t && KERNEL in t && p != KERNEL && r == Adopted(t, p) && ListsOk(t, p)
    requires Living(t, KERNEL, childs) && Ended(t, KERNEL, zombies)
    ensures Living(r, KERNEL, childs) && Ended(r, KERNEL, zombies)
  {
  }

  lemma AdoptedPlace(t: Table, p: int, c: int)
    requires Inv(t) && p in t && p != KERNEL && !t[p].zombie && c in t && c != KERNEL && NotWaiting(t, p)
    ensures PlaceOk(Adopted(t, p), c) && Adopted(t, p)[c].ppid != p
  {
    assert ListsOk(t, p) && PlaceOk(t, p) && PlaceOk(t, c);
  }

  lemma BuriedInv(t: Table, p: int, code: int)
    requires Inv(t) && p in t && p != KERNEL && !t[p].zombie && t[p].childs == [] && t[p].zombies == [] && NoChildren(t, p)
    ensures t[p].ppid in t && t[p].ppid != p && Inv(Buried(t, p, code))
  {
    assert PlaceOk(t, p);
    var r := Buried(t, p, code);
    forall u | u in r
      ensures ListsOk(r, u)
    {
      BuriedLists(t, p, code, u);
    }
    forall c | c in r && c != KERNEL
      ensures PlaceOk(r, c)
    {
      BuriedPlace(t, p, code, c);
    }
  }

  lemma BuriedLists(t: Table, p: int, code: int, u: int)
    requires Inv(t) && p in t && p != KERNEL && !t[p].zombie && t[p].childs == [] && t[p].zombies == [] && u in t
    ensures t[p].ppid in t && t[p].ppid != p && ListsOk(Buried(t, p, code), u)
  {
    assert PlaceOk(t, p);
    var r := Buried(t, p, code);
    if u == t[p].ppid { BuriedParent(t, p, code, r); } else if u != p { BuriedOther(t, p, code, u, r); }
  }

  lemma BuriedParent(t: Table, p: int, code: int, r: Table)
    requires Inv(t) && p in t && p != KERNEL && !t[p].zombie && PlaceOk(t, p) && r == Buried(t, p, code)
    ensures ListsOk(r, t[p].ppid)
  {
    var q := t[p].ppid;
    assert ListsOk(t, q);
    LivingWithout(t, q, t[q].childs, p);
    ListsKept(t, r, q, Without(t[q].childs, p), t[q].zombies);
    if t[p].waitCount == 0 { EndedPlus(r, q, t[q].zombies, p); }
  }

  lemma BuriedOther(t: Table, p: int, code: int, u: int, r: Table)
    requires Inv(t) && p in t && PlaceOk(t, p) && r == Buried(t, p, code) && u in t && u != p && u != t[p].ppid
    ensures ListsOk(r, u)
  {
    assert ListsOk(t, u);
    ListsKept(t, r, u, t[u].childs, t[u].zombies);
  }

  lemma BuriedPlace(t: Table, p: int, code: int, c: int)
    requires Inv(t) && p in t && p != KERNEL && !t[p].zombie && NoChildren(t, p) && c in t && c != KERNEL
    ensures t[p].ppid in t && t[p].ppid != p && PlaceOk(Buried(t, p, code), c)
  {
    assert PlaceOk(t, p) && PlaceOk(t, c);
    var q := t[p].ppid;
    WithoutFacts(t[q].childs, p);
    if c == p && t[p].waitCount == 0 { assert Buried(t, p, code)[q].zombies[|t[q].zombies|] == p; }
  }

  /** A zombie that nobody waits for any more is taken out. */
  lemma ReapedInv(t: Table, p: int)
    requires Inv(t) && p in t && p != KERNEL && t[p].zombie
    ensures t[p].ppid in t && Inv(Reaped(t, t[p].ppid, p))
  {
    assert PlaceOk(t, p);
    var r := Reaped(t, t[p].ppid, p);
    forall u | u in r
      ensures ListsOk(r, u)
    {
      ReapedLists(t, p, u);
    }
    forall c | c in r && c != KERNEL
      ensures PlaceOk(r, c)
    {
      ReapedPlace(t, p, c);
    }
  }

  lemma ReapedLists(t: Table, p: int, u: int)
    requires Inv(t) && p in t && p != KERNEL && t[p].zombie && u in t && u != p
    ensures t[p].ppid in t && ListsOk(Reaped(t, t[p].ppid, p), u)
  {
    assert PlaceOk(t, p);
    ReapedList(t, t[p].ppid, p, u, Reaped(t, t[p].ppid, p));
  }

  lemma ReapedList(t: Table, q: int, p: int, u: int, r: Table)
    requires p in t && t[p].zombie && q in t && q != p && q == t[p].ppid && r == Reaped(t, q, p) && u in t && u != p && ListsOk(t, u)
    ensures ListsOk(r, u)
  {
    EndedWithout(t, u, t[u].zombies, p);
    ListsKept(t, r, u, t[u].childs, if u == q then Without(t[u].zombies, p) else t[u].zombies);
  }

  lemma ReapedPlace(t: Table, p: int, c: int)
    requires Inv(t) && p in t && p != KERNEL && t[p].zombie && c in t && c != p && c != KERNEL
    ensures t[p].ppid in t && PlaceOk(Reaped(t, t[p].ppid, p), c)
  {
    assert PlaceOk(t, p) && PlaceOk(t, c);
    WithoutFacts(t[t[p].ppid].zombies, p);
    PlaceStays(t, Reaped(t, t[p].ppid, p), c);
  }

  /** A process and its parent are as before, but for others in the parent's lists. */
  lemma PlaceStays(t: Table, r: Table, c: int)
    requires c in t && PlaceOk(t, c) && Alike(t, r, c) && t[c].ppid in r && r[t[c].ppid].zombie == t[t[c].ppid].zombie
    requires c in t[t[c].ppid].childs ==> c in r[t[c].ppid].childs
    requires c in t[t[c].ppid].zombies ==> c in r[t[c].ppid].zombies
    ensures PlaceOk(r, c)
  {
  }

  /** A process that has never run is taken out again. */
  lemma UndoneInv(t: Table, p: int)
    requires Inv(t) && p in t && p != KERNEL && !t[p].zombie && NoChildren(t, p)
    ensures t[p].ppid in t && Inv(Undone(t, t[p].ppid, p))
  {
    assert PlaceOk(t, p);
    var r := Undone(t, t[p].ppid, p);
    forall u | u in r
      ensures ListsOk(r, u)
    {
      UndoneLists(t, p, u);
    }
    forall c | c in r && c != KERNEL
      ensures PlaceOk(r, c)
    {
      UndonePlace(t, p, c);
    }
  }

  lemma UndoneLists(t: Table, p: int, u: int)
    requires Inv(t) && p in t && p != KERNEL && !t[p].zombie && u in t && u != p
    ensures t[p].ppid in t && ListsOk(Undone(t, t[p].ppid, p), u)
  {
    assert PlaceOk(t, p);
    UndoneList(t, t[p].ppid, p, u, Undone(t, t[p].ppid, p));
  }

  lemma UndoneList(t: Table, q: int, p: int, u: int, r: Table)
    requires p in t && !t[p].zombie && q in t && q != p && q == t[p].ppid && r == Undone(t, q, p) && u in t && u != p && ListsOk(t, u)
    ensures ListsOk(r, u)
  {
    LivingWithout(t, u, t[u].childs, p);
    ListsKept(t, r, u, if u == q then Without(t[u].childs, p) else t[u].childs, t[u].zombies);
  }

  lemma UndonePlace(t: Table, p: int, c: int)
    requires Inv(t) && p in t && p != KERNEL && !t[p].zombie && NoChildren(t, p) && c in t && c != p && c != KERNEL
    ensures t[p].ppid in t && PlaceOk(Undone(t, t[p].ppid, p), c)
  {
    assert PlaceOk(t, p) && PlaceOk(t, c);
    WithoutFacts(t[t[p].ppid].childs, p);
    PlaceStays(t, Undone(t, t[p].ppid, p), c);
  }

  lemma CountedInv(t: Table, p: int, k: int)
    requires Inv(t) && p in t && p != KERNEL && t[p].waitCount + k >= 0
    requires t[p].zombie ==> t[p].waitCount + k > 0 && t[p].waitCount > 0
    ensures Inv(Counted(t, p, k))
  {
    OnlyCounted(t, p, Counted(t, p, k));
  }

  lemma OnlyCounted(t: Table, p: int, r: Table)
    requires Inv(t) && p in t && p != KERNEL && r.Keys == t.Keys && (t[p].zombie ==> t[p].waitCount > 0 && r[p].waitCount > 0)
    requires r[p] == t[p].(waitCount := r[p].waitCount) && r[p].waitCount >= 0 && forall c :: c in t && c != p ==> r[c] == t[c]
    ensures Inv(r)
  {
    forall u | u in r
      ensures ListsOk(r, u)
    {
      CountedLists(t, p, r, u);
    }
    forall c | c in r && c != KERNEL
      ensures PlaceOk(r, c)
    {
      CountedPlace(t, p, r, c);
    }
  }

  lemma CountedPlace(t: Table, p: int, r: Table, c: int)
    requires Inv(t) && p in t && p != KERNEL && r.Keys == t.Keys && (t[p].zombie ==> t[p].waitCount > 0 && r[p].waitCount > 0)
    requires r[p] == t[p].(waitCount := r[p].waitCount) && r[p].waitCount >= 0 && forall c :: c in t && c != p ==> r[c] == t[c]
    requires c in t && c != KERNEL
    ensures PlaceOk(r, c)
  {
    assert PlaceOk(t, c);
  }

  lemma CountedLists(t: Table, p: int, r: Table, u: int)
    requires Inv(t) && p in t && r.Keys == t.Keys && u in t && (t[p].zombie ==> t[p].waitCount > 0)
    requires r[p] == t[p].(waitCount := r[p].waitCount) && forall c :: c in t && c != p ==> r[c] == t[c]
    ensures ListsOk(r, u)
  {
    assert ListsOk(t, u);
  }
}
