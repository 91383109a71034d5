// The fixed size event queue itself (e20.h): an array used as a ring, and two stacks
// of waiting records linked through the records.

module FixedEventQueues {
  import opened Common
  import opened EventQueueProtocol

  class WaitingList {
    var next: WaitingList?
    var token: bool
  }

  // ----- the ring

  /** The n elements from position get on, going round at the end. */
  function Ring<E>(a: seq<E>, get: nat, n: nat): seq<E>
    requires get < |a| && n <= |a|
  {
    if get + n <= |a| then a[get..get + n] else a[get..] + a[..get + n - |a|]
  }

  function Advance(i: nat, k: nat, size: nat): nat
    requires i < size && k <= size
  {
    if i + k >= size then i + k - size else i + k
  }

  lemma RingLength<E>(a: seq<E>, get: nat, n: nat)
    requires get < |a| && n <= |a|
    ensures |Ring(a, get, n)| == n
  {
  }

  lemma RingAt<E>(a: seq<E>, get: nat, n: nat, i: nat)
    requires get < |a| && i < n <= |a|
    ensures |Ring(a, get, n)| == n && Ring(a, get, n)[i] == a[Advance(get, i, |a|)]
  {
  }

  lemma RingPut<E>(a: seq<E>, get: nat, n: nat, e: E)
    requires get < |a| && n < |a|
    ensures Ring(a[Advance(get, n, |a|) := e], get, n + 1) == Ring(a, get, n) + [e]
  {
    var b := a[Advance(get, n, |a|) := e];
    var r, t := Ring(b, get, n + 1), Ring(a, get, n) + [e];
    RingLength(b, get, n + 1);
    RingLength(a, get, n);
    forall i: nat | i < n + 1
      ensures r[i] == t[i]
    {
      RingAt(b, get, n + 1, i);
      if i < n { RingAt(a, get, n, i); }
    }
  }

  lemma RingGet<E>(a: seq<E>, get: nat, n: nat)
    requires get < |a| && 0 < n <= |a|
    ensures |Ring(a, get, n)| == n && Ring(a, get, n)[0] == a[get]
    ensures Ring(a, Advance(get, 1, |a|), n - 1) == Ring(a, get, n)[1..]
  {
    var next := Advance(get, 1, |a|);
    var r, t := Ring(a, next, n - 1), Ring(a, get, n)[1..];
    RingLength(a, next, n - 1);
    RingAt(a, get, n, 0);
    forall i: nat | i < n - 1
      ensures r[i] == t[i]
    {
      RingAt(a, next, n - 1, i);
      RingAt(a, get, n, i + 1);
    }
  }

  // ----- the stacks

  /** Following next from the top visits the records of s, and ends. */
  ghost predicate StackLinked(top: WaitingList?, s: seq<WaitingList>)
    reads s`next
  {
    if s == [] then top == null else top == s[0] && StackLinked(s[0].next, s[1..])
  }

  class FixedEventQueue<E> {
    const events: array<E>
    var put: nat
    var get: nat
    var n: nat
    var waitingGet: WaitingList?
    var waitingPut: WaitingList?
    ghost var getters: seq<WaitingList>
    ghost var putters: seq<WaitingList>
    ghost var wokenGetters: set<WaitingList>  // they have a token, but their thread has not gone on
    ghost var wokenPutters: set<WaitingList>

    ghost predicate Shape()
      reads this, events, getters, putters, wokenGetters, wokenPutters
    {
      && get < events.Length && n <= events.Length && put == Advance(get, n, events.Length)
      && StackLinked(waitingGet, getters) && StackLinked(waitingPut, putters)
      && Apart(getters, wokenGetters) && Apart(putters, wokenPutters)
      && (forall w :: w in getters ==> w !in putters && w !in wokenPutters && !w.token)
      && (forall w :: w in putters ==> w !in wokenGetters && !w.token)
      && (forall w :: w in wokenGetters ==> w !in wokenPutters && w.token)
      && (forall w :: w in wokenPutters ==> w.token)
    }

    ghost function View(): Queue<E, WaitingList>
      requires Shape()
      reads this, events, getters, putters, wokenGetters, wokenPutters
    {
      Queue(events.Length, Ring(events[..], get, n), getters, putters, wokenGetters, wokenPutters)
    }

    ghost predicate Valid()
      reads this, events, getters, putters, wokenGetters, wokenPutters
    {
      Shape() && Inv(View())
    }

    constructor (slots: array<E>)
      requires slots.Length > 0
      ensures Valid() && View() == Queue(slots.Length, [], [], [], {}, {}) && events == slots
    {
      events := slots;
      put, get, n, waitingGet, waitingPut := 0, 0, 0, null, null;
      getters, putters, wokenGetters, wokenPutters := [], [], {}, {};
    }

    method StoreEvent(event: E)
      requires Shape() && n < events.Length
      modifies this`put, this`n, events
      ensures Shape() && View() == old(View()).(events := old(View()).events + [event])
    {
      RingLength(events[..], get, n);
      RingPut(events[..], get, n, event);
      ghost var stored := events[..][put := event];
      events[put] := event;
      assert events[..] == stored;
      put := put + 1;
      if put >= events.Length { put := 0; }
      n := n + 1;
    }

    method WakeOneGetter()
      requires Shape()
      modifies this`waitingGet, this`getters, this`wokenGetters, getters`token
      ensures Shape() && View() == WakeGetter(old(View()))
      ensures old(getters) != [] ==> getters == old(getters)[1..] && old(getters)[0].token
    {
      PopStack(waitingGet, getters);
      if waitingGet != null {
        waitingGet.token := true;
        wokenGetters := wokenGetters + {waitingGet};
        waitingGet := waitingGet.next;
        getters := getters[1..];
      }
    }

    method FetchEvent() returns (event: E)
      requires Shape() && n > 0
      modifies this`get, this`n
      ensures |old(View()).events| == old(n) && event == old(View()).events[0]
      ensures Shape() && View() == old(View()).(events := old(View()).events[1..])
    {
      RingLength(events[..], get, n);
      RingGet(events[..], get, n);
      event := events[get];
      get := get + 1;
      if get >= events.Length { get := 0; }
      n := n - 1;
    }

    method WakeOnePutter()
      requires Shape()
      modifies this`waitingPut, this`putters, this`wokenPutters, putters`token
      ensures Shape() && View() == WakePutter(old(View()))
      ensures old(putters) != [] ==> putters == old(putters)[1..] && old(putters)[0].token
    {
      PopStack(waitingPut, putters);
      if waitingPut != null {
        waitingPut.token := true;
        wokenPutters := wokenPutters + {waitingPut};
        waitingPut := waitingPut.next;
        putters := putters[1..];
      }
    }

    /** Posts without blocking; false if there is no slot. */
    method IRQpostImpl(event: E) returns (posted: bool)
      requires Shape()
      modifies this`put, this`n, this`waitingGet, this`getters, this`wokenGetters, events, getters`token
      ensures Shape() && |old(View()).events| == old(n) && posted == (old(n) < events.Length)
      ensures View() == if posted then Put(old(View()), event) else old(View())
      ensures old(Valid()) ==> Valid()
    {
      RingLength(events[..], get, n);
      if old(Valid()) && n < events.Length { PutInv(View(), event); }
      if n >= events.Length { return false; }
      StoreEvent(event);
      WakeOneGetter();
      return true;
    }

    /** Runs at most one event, which is given back to be called with interrupts enabled. */
    method RunOneImpl() returns (ran: bool, event: E)
      requires Valid() && events.Length > 0
      modifies this`get, this`n, this`waitingPut, this`putters, this`wokenPutters, putters`token
      ensures Valid() && ran == (old(View()).events != [])
      ensures ran ==> event == old(View()).events[0] && View() == Get(old(View()))
      ensures !ran ==> View() == old(View())
    {
      RingLength(events[..], get, n);
      if n <= 0 {
        event := events[0];
        return false, event;
      }
      GetInv(View());
      event := FetchEvent();
      WakeOnePutter();
      return true, event;
    }

    /** The record is on no stack and has no token to be found. */
    ghost predicate Unused(w: WaitingList)
      reads this`getters, this`putters, this`wokenGetters, this`wokenPutters
    {
      w !in getters && w !in putters && w !in wokenGetters && w !in wokenPutters
    }

    method WaitToPut(w: WaitingList)
      requires Shape() && Unused(w)
      modifies this`waitingPut, this`putters, w
      ensures Shape() && View() == old(View()).(putters := [w] + old(View()).putters)
    {
      w.token := false;
      w.next := waitingPut;
      waitingPut := w;
      PushStack(w, putters);
      putters := [w] + putters;
    }

    method WaitToGet(w: WaitingList)
      requires Shape() && Unused(w)
      modifies this`waitingGet, this`getters, w
      ensures Shape() && View() == old(View()).(getters := [w] + old(View()).getters)
    {
      w.token := false;
      w.next := waitingGet;
      waitingGet := w;
      PushStack(w, getters);
      getters := [w] + getters;
    }

    /** The head of postImpl's loop: false if the thread has to wait. */
    method PostHead(event: E, w: WaitingList) returns (posted: bool)
      requires Shape() && Unused(w)
      modifies this`put, this`n, this`waitingGet, this`getters, this`wokenGetters, events, getters`token
      modifies this`waitingPut, this`putters, w
      ensures Shape() && posted == (|old(View()).events| < events.Length) && View() == PutOrWait(old(View()), event, w)
    {
      RingLength(events[..], get, n);
      if n >= events.Length {
        WaitToPut(w);
        return false;
      }
      StoreEvent(event);
      WakeOneGetter();
      return true;
    }

    /** postImpl, up to the point where it is done or waits. */
    method PostImpl(event: E, w: WaitingList) returns (posted: bool)
      requires Valid() && Unused(w)
      modifies this`put, this`n, this`waitingGet, this`getters, this`wokenGetters, events, getters`token
      modifies this`waitingPut, this`putters, w
      ensures Valid() && posted == (|old(View()).events| < events.Length) && View() == PutOrWait(old(View()), event, w)
    {
      PutOrWaitInv(View(), event, w);
      posted := PostHead(event, w);
    }

    /** A thread that waits to post is scheduled, with its token or for another reason. */
    method PostGoesOn(event: E, w: WaitingList) returns (posted: bool)
      requires Valid() && (w in putters || w in wokenPutters)
      modifies this`put, this`n, this`waitingGet, this`getters, this`wokenGetters, events, getters`token
      modifies this`waitingPut, this`putters, this`wokenPutters, w
      ensures Valid()
      ensures w in old(putters) ==> !posted && View() == old(View())
      ensures w in old(wokenPutters) ==> wokenPutters == old(wokenPutters) - {w}
      ensures w in old(wokenPutters) ==>
                && posted == (|old(View()).events| < events.Length)
                && View() == PutOrWait(PutterGoesOn(old(View()), w), event, w)
    {
      if !w.token { return false; }
      PutterGoesOnInv(View(), event, w);
      wokenPutters := wokenPutters - {w};
      posted := PostHead(event, w);
    }

    /** The head of runImpl's loop: an event to call, or the thread has to wait. */
    method RunHead(w: WaitingList) returns (ran: bool, event: E)
      requires Shape() && Unused(w)
      modifies this`get, this`n, this`waitingPut, this`putters, this`wokenPutters, putters`token
      modifies this`waitingGet, this`getters, w
      ensures Shape() && ran == (old(View()).events != []) && View() == GetOrWait(old(View()), w)
      ensures ran ==> event == old(View()).events[0]
    {
      RingLength(events[..], get, n);
      if n <= 0 {
        event := events[get];
        WaitToGet(w);
        return false, event;
      }
      event := FetchEvent();
      WakeOnePutter();
      return true, event;
    }

    method RunImpl(w: WaitingList) returns (ran: bool, event: E)
      requires Valid() && Unused(w)
      modifies this`get, this`n, this`waitingPut, this`putters, this`wokenPutters, putters`token
      modifies this`waitingGet, this`getters, w
      ensures Valid() && ran == (old(View()).events != []) && View() == GetOrWait(old(View()), w)
      ensures ran ==> event == old(View()).events[0]
    {
      GetOrWaitInv(View(), w);
      ran, event := RunHead(w);
    }

    /** A thread that waits for an event is scheduled, with its token or for another reason. */
    method RunGoesOn(w: WaitingList) returns (ran: bool, event: E)
      requires Valid() && (w in getters || w in wokenGetters)
      modifies this`get, this`n, this`waitingPut, this`putters, this`wokenPutters, putters`token
      modifies this`waitingGet, this`getters, this`wokenGetters, w
      ensures Valid()
      ensures w in old(getters) ==> !ran && View() == old(View())
      ensures w in old(wokenGetters) ==> wokenGetters == old(wokenGetters) - {w}
      ensures w in old(wokenGetters) ==>
                && ran == (old(View()).events != [])
                && View() == GetOrWait(GetterGoesOn(old(View()), w), w)
                && (ran ==> event == old(View()).events[0])
    {
      if !w.token { return false, events[get]; }
      GetterGoesOnInv(View(), w);
      wokenGetters := wokenGetters - {w};
      ran, event := RunHead(w);
    }
  }

  lemma PushStack(w: WaitingList, s: seq<WaitingList>)
    requires w !in s && Distinct(s) && StackLinked(w.next, s)
    ensures StackLinked(w, [w] + s) && Distinct([w] + s)
  {
    assert ([w] + s)[1..] == s;
  }

  lemma PopStack(top: WaitingList?, s: seq<WaitingList>)
    requires StackLinked(top, s) && Distinct(s)
    ensures top == null <==> s == []
    ensures s != [] ==> s == [s[0]] + s[1..] && top == s[0] && StackLinked(top.next, s[1..]) && Distinct(s[1..]) && s[0] !in s[1..]
  {
  }
}
