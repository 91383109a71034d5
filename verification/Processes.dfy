// The process table itself (process.cpp): the methods that change it while they hold its mutex.

module Processes {
  import opened Common
  import opened ProcessTable

  const PID_MAX: int := 0x7fff_ffff

  /** Incrementing a 32 bit pid. */
  function Successor(pid: int): int
  {
    if pid == PID_MAX then -0x8000_0000 else pid + 1
  }

  datatype Answer = Collected(pid: int, exitCode: int) | NoChild | StillRunning | Waits

  class ProcessList {
    var pidCounter: int
    var processes: Table

    constructor ()
      ensures Inv(processes) && processes == map[KERNEL := Process(KERNEL, [], [], 0, false, 0)]
    {
      pidCounter := 0;
      processes := map[KERNEL := Process(KERNEL, [], [], 0, false, 0)];
    }

    /** How many increments there are before pid, at most. */
    static function Distance(counter: int, pid: int): int
    {
      if counter < 0 then pid
      else if counter <= pid then pid - counter
      else PID_MAX - counter + 1 + pid
    }

    /** A pid that is not in use; free is one that shows there is any. */
    method GetNewPid(ghost free: int) returns (pid: int)
      requires 0 < free <= PID_MAX && free !in processes && -0x8000_0000 <= pidCounter <= PID_MAX
      modifies this`pidCounter
      ensures pid !in processes && 0 < pid <= PID_MAX && -0x8000_0000 <= pidCounter <= PID_MAX
    {
      while true
        invariant -0x8000_0000 <= pidCounter <= PID_MAX
        decreases Distance(pidCounter, free), pidCounter < 0
      {
        if pidCounter < 0 { pidCounter := 1; }
        if pidCounter != 0 && pidCounter !in processes {
          pid := pidCounter;
          pidCounter := Successor(pidCounter);
          return pid;
        }
        pidCounter := Successor(pidCounter);
      }
    }

    method CreateProcess(parent: int, ghost free: int) returns (pid: int)
      requires Inv(processes) && parent in processes && !processes[parent].zombie
      requires 0 < free <= PID_MAX && free !in processes && -0x8000_0000 <= pidCounter <= PID_MAX
      modifies this
      ensures Inv(processes) && 0 < pid && pid !in old(processes) && processes == Create(old(processes), parent, pid)
      ensures -0x8000_0000 <= pidCounter <= PID_MAX
    {
      pid := GetNewPid(free);
      CreateInv(processes, parent, pid);
      AddChild(parent, pid);
    }

    method AddChild(parent: int, pid: int)
      requires parent in processes && pid !in processes
      modifies this`processes
      ensures processes == Create(old(processes), parent, pid)
    {
      var p := processes[parent];
      processes := processes[parent := p.(childs := p.childs + [pid])];
      processes := processes[pid := Process(parent, [], [], 0, false, 0)];
      assert processes == Create(old(processes), parent, pid);
    }

    /** The thread of a new process could not be made; parent is the one that tried. */
    method UndoCreate(parent: int, pid: int)
      requires Inv(processes) && pid in processes && pid != KERNEL && parent == processes[pid].ppid
      requires !processes[pid].zombie && NoChildren(processes, pid)
      modifies this`processes
      ensures parent in old(processes) && Inv(processes) && processes == Undone(old(processes), parent, pid)
    {
      UndoneInv(processes, pid);
      NotOwnParent(processes, pid);
      RemoveChild(parent, pid);
    }

    static lemma NotOwnParent(t: Table, pid: int)
      requires Inv(t) && pid in t && pid != KERNEL
      ensures t[pid].ppid != pid
    {
      assert PlaceOk(t, pid);
    }

    method RemoveChild(parent: int, pid: int)
      requires parent in processes && pid in processes && parent != pid
      modifies this`processes
      ensures processes == Undone(old(processes), parent, pid)
    {
      processes := processes - {pid};
      processes := processes[parent := processes[parent].(childs := Without(processes[parent].childs, pid))];
    }

    /** The list has processes only, and neither the kernel nor p. */
    static ghost predicate Known(t: Table, list: seq<int>, p: int)
    {
      forall i :: 0 <= i < |list| ==> list[i] in t && list[i] != KERNEL && list[i] != p
    }

    /** The children of a list become the kernel's. */
    method Reparent(list: seq<int>)
      requires forall i :: 0 <= i < |list| ==> list[i] in processes
      modifies this`processes
      ensures processes == map c | c in old(processes) :: if c in list then old(processes)[c].(ppid := KERNEL) else old(processes)[c]
    {
      var i := 0;
      while i < |list|
        invariant 0 <= i <= |list| && processes.Keys == old(processes).Keys
        invariant processes == map c | c in old(processes) ::
                    if c in list[..i] then old(processes)[c].(ppid := KERNEL) else old(processes)[c]
      {
        assert list[..i + 1] == list[..i] + [list[i]];
        processes := processes[list[i] := processes[list[i]].(ppid := KERNEL)];
        i := i + 1;
      }
      assert list[..i] == list;
    }

    /** The children of p, living or not, become the kernel's. */
    method Adopt(p: int)
      requires p in processes && KERNEL in processes && p != KERNEL
      requires Known(processes, processes[p].childs, p) && Known(processes, processes[p].zombies, p)
      modifies this`processes
      ensures processes == Adopted(old(processes), p)
    {
      var childs, zombies := processes[p].childs, processes[p].zombies;
      Reparent(childs);
      Reparent(zombies);
      var k := processes[KERNEL];
      processes := processes[KERNEL := k.(childs := childs + k.childs, zombies := zombies + k.zombies)];
      processes := processes[p := processes[p].(childs := [], zombies := [])];
    }

    /** The end of a process; true if those who wait for it in particular are to be woken, and not the others. */
    method EndProcess(p: int, code: int) returns (wakesWaiters: bool)
      requires Inv(processes) && p in processes && p != KERNEL && !processes[p].zombie && NotWaiting(processes, p)
      modifies this`processes
      ensures Inv(processes) && wakesWaiters == (old(processes)[p].waitCount > 0)
      ensures var o := Adopted(old(processes), p);
        p in o && o[p].ppid in o && o[p].ppid != p && processes == Buried(o, p, code)
    {
      EndFacts(processes, p);
      AdoptedInv(processes, p, Adopted(processes, p));
      BuriedInv(Adopted(processes, p), p, code);
      Adopt(p);
      if processes[p].ppid !in processes { assert false; }
      wakesWaiters := processes[p].waitCount > 0;
      Bury(p, code);
    }

    static lemma EndFacts(t: Table, p: int)
      requires Inv(t) && p in t && p != KERNEL && !t[p].zombie
      ensures Known(t, t[p].childs, p) && Known(t, t[p].zombies, p)
    {
      assert PlaceOk(t, p);
      forall i | 0 <= i < |t[p].childs|
        ensures t[p].childs[i] in t && t[p].childs[i] != KERNEL && t[p].childs[i] != p
      {
        ChildKnown(t, p, t[p].childs[i]);
      }
      forall i | 0 <= i < |t[p].zombies|
        ensures t[p].zombies[i] in t && t[p].zombies[i] != KERNEL && t[p].zombies[i] != p
      {
        ChildKnown(t, p, t[p].zombies[i]);
      }
    }

    static lemma ChildKnown(t: Table, p: int, c: int)
      requires Inv(t) && p in t && PlaceOk(t, p) && !t[p].zombie && (c in t[p].childs || c in t[p].zombies)
      ensures c in t && c != KERNEL && c != p
    {
      assert ListsOk(t, p);
    }

    method Bury(p: int, code: int)
      requires p in processes && processes[p].ppid in processes && processes[p].ppid != p
      modifies this`processes
      ensures processes == Buried(old(processes), p, code)
    {
      processes := processes[p := processes[p].(zombie := true, exitCode := code)];
      var q := processes[p].ppid;
      var parent := processes[q];
      processes := processes[q := parent.(childs := Without(parent.childs, p))];
      if processes[p].waitCount <= 0 {
        processes := processes[q := processes[q].(zombies := parent.zombies + [p])];
      }
    }

    /** Takes a zombie out of the table, for its parent. */
    method Collect(self: int, pid: int) returns (a: Answer)
      requires Inv(processes) && pid in processes && pid != KERNEL && processes[pid].zombie && processes[pid].ppid == self
      modifies this`processes
      ensures self in old(processes) && Inv(processes) && processes == Reaped(old(processes), self, pid)
      ensures a == Collected(pid, old(processes)[pid].exitCode)
    {
      ReapedInv(processes, pid);
      a := Collected(pid, processes[pid].exitCode);
      var parent := processes[self];
      processes := processes[self := parent.(zombies := Without(parent.zombies, pid))] - {pid};
    }

    /** waitpid for any child; Waits means that the thread sleeps and then begins again. */
    method WaitpidAny(self: int, nohang: bool) returns (a: Answer)
      requires Inv(processes) && self in processes && !processes[self].zombie
      modifies this`processes
      ensures Inv(processes)
      ensures old(processes)[self].zombies == [] ==>
        && processes == old(processes)
        && a == (if nohang then StillRunning else if processes[self].childs == [] then NoChild else Waits)
      ensures old(processes)[self].zombies != [] ==>
        && var z := old(processes)[self].zombies[0];
           && z in old(processes) && old(processes)[z].waitCount == 0
           && a == Collected(z, old(processes)[z].exitCode) && processes == Reaped(old(processes), self, z)
    {
      if processes[self].zombies == [] && nohang { return StillRunning; }
      if processes[self].zombies == [] {
        if processes[self].childs == [] { return NoChild; }
        return Waits;
      }
      assert ListsOk(processes, self);
      var joined := processes[self].zombies[0];
      if processes[joined].waitCount != 0 { assert false; }
      a := Collect(self, joined);
    }

    /** waitpid for one child; Waits means that the thread has been counted and sleeps until the child ends. */
    method WaitpidFor(self: int, pid: int, nohang: bool) returns (a: Answer)
      requires Inv(processes) && self in processes && !processes[self].zombie && pid > 0
      modifies this`processes
      ensures Inv(processes)
      ensures var t := old(processes);
        if pid !in t || t[pid].ppid != self || pid == self then a == NoChild && processes == t
        else if !t[pid].zombie then
          (if nohang then a == StillRunning && processes == t else a == Waits && processes == Counted(t, pid, 1))
        else if t[pid].waitCount == 0 then a == Collected(pid, t[pid].exitCode) && processes == Reaped(t, self, pid)
        else a == NoChild && processes == t
    {
      if pid !in processes || processes[pid].ppid != self || pid == self { return NoChild; }
      if !processes[pid].zombie {
        if nohang { return StillRunning; }
        Count(pid, 1);
        return Waits;
      }
      if processes[pid].waitCount == 0 {
        a := Collect(self, pid);
      } else {
        a := NoChild;
      }
    }

    /** One more thread, or one less, waits for this very process. */
    method Count(pid: int, n: int)
      requires Inv(processes) && pid in processes && pid != KERNEL
      requires if processes[pid].zombie then n == -1 && processes[pid].waitCount > 1 else n == 1
      modifies this`processes
      ensures Inv(processes) && processes == Counted(old(processes), pid, n)
    {
      CountFacts(processes, pid, n);
      AddCount(pid, n);
    }

    static lemma CountFacts(t: Table, pid: int, n: int)
      requires Inv(t) && pid in t && pid != KERNEL
      requires if t[pid].zombie then n == -1 && t[pid].waitCount > 1 else n == 1
      ensures t[pid].waitCount + n >= 0 && Inv(Counted(t, pid, n))
    {
      assert PlaceOk(t, pid);
      CountedInv(t, pid, n);
    }

    method AddCount(pid: int, n: int)
      requires pid in processes && processes[pid].waitCount + n >= 0
      modifies this`processes
      ensures processes == Counted(old(processes), pid, n)
    {
      processes := processes[pid := processes[pid].(waitCount := processes[pid].waitCount + n)];
    }

    /** The rest of waitpid for one child, after the child has ended. */
    method WaitpidReturns(self: int, pid: int) returns (a: Answer)
      requires Inv(processes) && pid in processes && pid != KERNEL && processes[pid].ppid == self
      requires processes[pid].zombie && processes[pid].waitCount > 0
      modifies this`processes
      ensures Inv(processes) && self in old(processes)
      ensures var t := old(processes);
        if t[pid].waitCount > 1 then a == NoChild && processes == Counted(t, pid, -1)
        else a == Collected(pid, t[pid].exitCode) && processes == Reaped(t, self, pid)
    {
      assert PlaceOk(processes, pid);
      if processes[pid].waitCount > 1 {
        Count(pid, -1);
        return NoChild;
      }
      a := Collect(self, pid);
    }
  }
}
