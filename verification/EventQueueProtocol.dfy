// The fixed size event queue (e20.h) shared by any number of threads that post and
// run events, and by interrupts that post. A step is what one of them does between
// two points at which interrupts are enabled.

module EventQueueProtocol {
  import opened Common

  /**
   * getters and putters are the stacks of waiting records without a token; the woken ones
   * have their token, but their thread has not gone on yet. W names the records.
   */
  datatype Queue<!E, !W> = Queue(
    size: nat, events: seq<E>,
    getters: seq<W>, putters: seq<W>, wokenGetters: set<W>, wokenPutters: set<W>)

  /** A record is in one place only. */
  ghost predicate Apart<W>(stack: seq<W>, woken: set<W>)
  {
    Distinct(stack) && forall w :: w in stack ==> w !in woken
  }

  /**
   * No stranded work: while somebody waits without a token to get an event, those who have one
   * are enough for all the events; and the same for putting and free slots.
   */
  ghost predicate Fair<E, W>(q: Queue<E, W>)
  {
    && (q.getters != [] ==> |q.events| <= |q.wokenGetters|)
    && (q.putters != [] ==> q.size - |q.events| <= |q.wokenPutters|)
  }

  ghost predicate Inv<E, W>(q: Queue<E, W>)
  {
    && q.size > 0 && |q.events| <= q.size
    && Apart(q.getters, q.wokenGetters) && Apart(q.putters, q.wokenPutters)
    && Fair(q)
  }

  // ----- what the operations do

  /** The getter on top of the stack gets a token. */
  function WakeGetter<E, W>(q: Queue<E, W>): Queue<E, W>
  {
    if q.getters == [] then q else q.(getters := q.getters[1..], wokenGetters := q.wokenGetters + {q.getters[0]})
  }

  function WakePutter<E, W>(q: Queue<E, W>): Queue<E, W>
  {
    if q.putters == [] then q else q.(putters := q.putters[1..], wokenPutters := q.wokenPutters + {q.putters[0]})
  }

  /** An event goes to the back. */
  function Put<E, W>(q: Queue<E, W>, e: E): Queue<E, W>
    requires |q.events| < q.size
  {
    WakeGetter(q.(events := q.events + [e]))
  }

  /** The event at the front is taken. */
  function Get<E, W>(q: Queue<E, W>): Queue<E, W>
    requires q.events != []
  {
    WakePutter(q.(events := q.events[1..]))
  }

  /** A thread that posts, at the head of its loop. */
  function PutOrWait<E, W>(q: Queue<E, W>, e: E, w: W): Queue<E, W>
  {
    if |q.events| >= q.size then q.(putters := [w] + q.putters) else Put(q, e)
  }

  /** A thread that runs events, at the head of its loop. */
  function GetOrWait<E, W>(q: Queue<E, W>, w: W): Queue<E, W>
  {
    if q.events == [] then q.(getters := [w] + q.getters) else Get(q)
  }

  /** A putter finds its token and goes on. */
  function PutterGoesOn<E, W>(q: Queue<E, W>, w: W): Queue<E, W>
  {
    q.(wokenPutters := q.wokenPutters - {w})
  }

  function GetterGoesOn<E, W>(q: Queue<E, W>, w: W): Queue<E, W>
  {
    q.(wokenGetters := q.wokenGetters - {w})
  }

  // ----- what they keep

  ghost predicate NewPutter<E, W>(q: Queue<E, W>, w: W)
  {
    w !in q.putters && w !in q.wokenPutters
  }

  ghost predicate NewGetter<E, W>(q: Queue<E, W>, w: W)
  {
    w !in q.getters && w !in q.wokenGetters
  }

  /** Somebody who does not wait may put or get without breaking the promise to those who do. */
  lemma PutInv<E, W>(q: Queue<E, W>, e: E)
    requires Inv(q) && |q.events| < q.size
    ensures Inv(Put(q, e))
  {
    if q.getters != [] { assert q.getters[0] !in q.wokenGetters; }
  }

  lemma GetInv<E, W>(q: Queue<E, W>)
    requires Inv(q) && q.events != []
    ensures Inv(Get(q))
  {
    if q.putters != [] { assert q.putters[0] !in q.wokenPutters; }
  }

  lemma PutOrWaitInv<E, W>(q: Queue<E, W>, e: E, w: W)
    requires Inv(q) && NewPutter(q, w)
    ensures Inv(PutOrWait(q, e, w))
  {
    if |q.events| < q.size { PutInv(q, e); }
  }

  lemma GetOrWaitInv<E, W>(q: Queue<E, W>, w: W)
    requires Inv(q) && NewGetter(q, w)
    ensures Inv(GetOrWait(q, w))
  {
    if q.events != [] { GetInv(q); }
  }

  /** Who goes on with a token takes a slot that was counted for it, or waits again because there is none. */
  lemma PutterGoesOnInv<E, W>(q: Queue<E, W>, e: E, w: W)
    requires Inv(q) && w in q.wokenPutters
    ensures Inv(PutOrWait(PutterGoesOn(q, w), e, w))
  {
    var r := PutterGoesOn(q, w);
    assert |r.wokenPutters| == |q.wokenPutters| - 1;
    if r.getters != [] { assert r.getters[0] !in r.wokenGetters; }
  }

  lemma GetterGoesOnInv<E, W>(q: Queue<E, W>, w: W)
    requires Inv(q) && w in q.wokenGetters
    ensures Inv(GetOrWait(GetterGoesOn(q, w), w))
  {
    var r := GetterGoesOn(q, w);
    assert |r.wokenGetters| == |q.wokenGetters| - 1;
    if r.putters != [] { assert r.putters[0] !in r.wokenPutters; }
  }

  // ----- all runs

  /** offered are the events that blocked threads are trying to post. */
  datatype State<!E, !W> = State(q: Queue<E, W>, offered: map<W, E>, accepted: seq<E>, taken: seq<E>)

  datatype Action<E, W> =
    | Post(w: W, e: E)
    | PostGoesOn(w: W)
    | TryPost(e: E)
    | Run(w: W)
    | RunGoesOn(w: W)
    | RunOne

  ghost predicate Good<E, W>(s: State<E, W>)
  {
    && Inv(s.q)
    && s.accepted == s.taken + s.q.events
    && (forall w :: w in s.q.putters ==> w in s.offered)
    && (forall w :: w in s.q.wokenPutters ==> w in s.offered)
    && (forall w :: w in s.offered ==> w in s.q.putters || w in s.q.wokenPutters)
  }

  ghost predicate Enabled<E, W>(s: State<E, W>, a: Action<E, W>)
  {
    match a
    case Post(w, _) => NewPutter(s.q, w) && w !in s.offered
    case PostGoesOn(w) => w in s.q.wokenPutters && w in s.offered
    case TryPost(_) => true
    case Run(w) => NewGetter(s.q, w)
    case RunGoesOn(w) => w in s.q.wokenGetters
    case RunOne => true
  }

  /** The head of the loop of a post; q is the queue without w's token. */
  ghost function Posted<E, W>(s: State<E, W>, q: Queue<E, W>, w: W, e: E): State<E, W>
  {
    if |q.events| >= q.size then s.(q := PutOrWait(q, e, w), offered := s.offered[w := e])
    else s.(q := PutOrWait(q, e, w), offered := s.offered - {w}, accepted := s.accepted + [e])
  }

  ghost function Took<E, W>(s: State<E, W>, q: Queue<E, W>, w: W): State<E, W>
  {
    if q.events == [] then s.(q := GetOrWait(q, w)) else s.(q := GetOrWait(q, w), taken := s.taken + [q.events[0]])
  }

  ghost function Next<E, W>(s: State<E, W>, a: Action<E, W>): State<E, W>
    requires Enabled(s, a)
  {
    match a
    case Post(w, e) => Posted(s, s.q, w, e)
    case PostGoesOn(w) => Posted(s, PutterGoesOn(s.q, w), w, s.offered[w])
    case TryPost(e) => if |s.q.events| >= s.q.size then s else s.(q := Put(s.q, e), accepted := s.accepted + [e])
    case Run(w) => Took(s, s.q, w)
    case RunGoesOn(w) => Took(s, GetterGoesOn(s.q, w), w)
    case RunOne => if s.q.events == [] then s else s.(q := Get(s.q), taken := s.taken + [s.q.events[0]])
  }

  /** Who waits to put, and only they, have an event on offer; w may be on its way in or out. */
  ghost predicate OffersBut<E, W>(s: State<E, W>, q: Queue<E, W>, w: W)
  {
    && NewPutter(q, w)
    && (forall u :: u in q.putters ==> u in s.offered)
    && (forall u :: u in q.wokenPutters ==> u in s.offered)
    && (forall u :: u in s.offered && u != w ==> u in q.putters || u in q.wokenPutters)
  }

  lemma PostedGood<E, W>(s: State<E, W>, q: Queue<E, W>, w: W, e: E)
    requires OffersBut(s, q, w) && s.accepted == s.taken + q.events && Inv(PutOrWait(q, e, w))
    ensures Good(Posted(s, q, w, e))
  {
    var r := Posted(s, q, w, e);
    if |q.events| >= q.size {
      PushedMembers(q.putters, w);
    } else {
      assert r.accepted == r.taken + r.q.events;
    }
  }

  lemma PushedMembers<W>(stack: seq<W>, w: W)
    ensures forall u :: u in [w] + stack ==> u == w || u in stack
    ensures w in [w] + stack && forall u :: u in stack ==> u in [w] + stack
  {
    assert ([w] + stack)[0] == w;
    assert ([w] + stack)[1..] == stack;
  }

  lemma TookGood<E, W>(s: State<E, W>, q: Queue<E, W>, w: W)
    requires Good(s) && q == s.q.(wokenGetters := q.wokenGetters) && Inv(GetOrWait(q, w))
    ensures Good(Took(s, q, w))
  {
    if q.events != [] { GotGood(s, q, Took(s, q, w)); }
  }

  /** The front event goes from the queue to those taken. */
  lemma GotGood<E, W>(s: State<E, W>, q: Queue<E, W>, r: State<E, W>)
    requires Good(s) && q == s.q.(wokenGetters := q.wokenGetters) && q.events != [] && Inv(Get(q))
    requires r == s.(q := Get(q), taken := s.taken + [q.events[0]])
    ensures Good(r)
  {
    assert q.events == [q.events[0]] + q.events[1..];
    if q.putters != [] {
      assert q.putters == [q.putters[0]] + q.putters[1..];
    }
  }

  lemma StepGood<E, W>(s: State<E, W>, a: Action<E, W>)
    requires Good(s) && Enabled(s, a)
    ensures Good(Next(s, a))
  {
    match a
    case Post(w, e) =>
      PutOrWaitInv(s.q, e, w);
      PostedGood(s, s.q, w, e);
    case PostGoesOn(w) =>
      PutterGoesOnInv(s.q, s.offered[w], w);
      PostedGood(s, PutterGoesOn(s.q, w), w, s.offered[w]);
    case TryPost(e) => if |s.q.events| < s.q.size { PutInv(s.q, e); }
    case Run(w) =>
      GetOrWaitInv(s.q, w);
      TookGood(s, s.q, w);
    case RunGoesOn(w) =>
      GetterGoesOnInv(s.q, w);
      TookGood(s, GetterGoesOn(s.q, w), w);
    case RunOne =>
      if s.q.events != [] {
        GetInv(s.q);
        GotGood(s, s.q, Next(s, a));
      }
  }

  /** Actions taken one after the other, and where they lead. */
  ghost predicate Possible<E, W>(s: State<E, W>, run: seq<Action<E, W>>)
    decreases |run|
  {
    run == [] || (Enabled(s, run[0]) && Possible(Next(s, run[0]), run[1..]))
  }

  ghost function After<E, W>(s: State<E, W>, run: seq<Action<E, W>>): State<E, W>
    requires Possible(s, run)
    decreases |run|
  {
    if run == [] then s else After(Next(s, run[0]), run[1..])
  }

  /** An empty queue that nobody uses. */
  ghost predicate Initial<E, W>(s: State<E, W>)
  {
    && s.q == Queue(s.q.size, [], [], [], {}, {}) && s.q.size > 0
    && s.offered == map[] && s.accepted == [] && s.taken == []
  }

  lemma InitialGood<E, W>(s: State<E, W>)
    requires Initial(s)
    ensures Good(s)
  {
  }

  /**
   * In every run events leave in the order in which they were accepted, and nobody is left waiting
   * for an event, or a slot, that nobody with a token is about to look for.
   */
  lemma {:induction false} RunsKeepOrder<E, W>(s: State<E, W>, run: seq<Action<E, W>>)
    requires Good(s) && Possible(s, run)
    ensures var r := After(s, run);
      && Good(r) && r.taken <= r.accepted && s.accepted <= r.accepted
      && (r.q.getters != [] && r.q.events != [] ==> r.q.wokenGetters != {})
      && (r.q.putters != [] && |r.q.events| < r.q.size ==> r.q.wokenPutters != {})
    decreases |run|
  {
    if run != [] {
      StepGood(s, run[0]);
      RunsKeepOrder(Next(s, run[0]), run[1..]);
    }
  }

  /** From an empty queue, in every reachable state: what was accepted is what was taken, and then what is queued. */
  lemma NothingLost<E, W>(s: State<E, W>, run: seq<Action<E, W>>)
    requires Initial(s) && (InitialGood(s); Possible(s, run))
    ensures (InitialGood(s);
      var r := After(s, run);
      && r.accepted == r.taken + r.q.events
      && (r.q.getters != [] && r.q.events != [] ==> r.q.wokenGetters != {})
      && (r.q.putters != [] && |r.q.events| < r.q.size ==> r.q.wokenPutters != {}))
  {
    InitialGood(s);
    RunsKeepOrder(s, run);
  }

  /** The threads that run events and wait, of which ws did before the step: they looked last, and found none. */
  ghost function Looked<E, W>(s: State<E, W>, a: Action<E, W>, ws: set<W>): set<W>
  {
    match a
    case Run(w) => if s.q.events == [] then ws + {w} else ws - {w}
    case RunGoesOn(w) => if s.q.events == [] then ws + {w} else ws - {w}
    case _ => ws
  }

  ghost function LookedIn<E, W>(s: State<E, W>, run: seq<Action<E, W>>, ws: set<W>): set<W>
    requires Possible(s, run)
    decreases |run|
  {
    if run == [] then ws else LookedIn(Next(s, run[0]), run[1..], Looked(s, run[0], ws))
  }

  ghost predicate WaitToGet<E, W>(q: Queue<E, W>, ws: set<W>)
  {
    ws == (set w | w in q.getters) + q.wokenGetters
  }

  lemma GetterLeaves<E, W>(q: Queue<E, W>, w: W, ws: set<W>)
    requires Inv(q) && WaitToGet(q, ws) && w in q.wokenGetters
    ensures WaitToGet(GetterGoesOn(q, w), ws - {w}) && NewGetter(GetterGoesOn(q, w), w)
  {
  }

  lemma GetOrWaitWaits<E, W>(q: Queue<E, W>, w: W, ws: set<W>)
    requires WaitToGet(q, ws) && w !in ws
    ensures WaitToGet(GetOrWait(q, w), if q.events == [] then ws + {w} else ws)
  {
    PushedMembers(q.getters, w);
  }

  lemma WakeGetterWaits<E, W>(q: Queue<E, W>, ws: set<W>)
    requires WaitToGet(q, ws)
    ensures WaitToGet(WakeGetter(q), ws)
  {
    if q.getters != [] { assert q.getters == [q.getters[0]] + q.getters[1..]; }
  }

  lemma LookedStep<E, W>(s: State<E, W>, a: Action<E, W>, ws: set<W>)
    requires Good(s) && Enabled(s, a) && WaitToGet(s.q, ws)
    ensures WaitToGet(Next(s, a).q, Looked(s, a, ws))
  {
    match a
    case Post(w, e) => if |s.q.events| < s.q.size { WakeGetterWaits(s.q.(events := s.q.events + [e]), ws); }
    case PostGoesOn(w) =>
      var q := PutterGoesOn(s.q, w);
      if |q.events| < q.size { WakeGetterWaits(q.(events := q.events + [s.offered[w]]), ws); }
    case TryPost(e) => if |s.q.events| < s.q.size { WakeGetterWaits(s.q.(events := s.q.events + [e]), ws); }
    case Run(w) =>
      GetOrWaitWaits(s.q, w, ws);
      assert ws - {w} == ws;
    case RunGoesOn(w) =>
      GetterLeaves(s.q, w, ws);
      GetOrWaitWaits(GetterGoesOn(s.q, w), w, ws - {w});
      assert ws - {w} + {w} == ws + {w};
    case RunOne =>
  }

  lemma {:induction false} RunLooked<E, W>(s: State<E, W>, run: seq<Action<E, W>>, ws: set<W>)
    requires Good(s) && Possible(s, run) && WaitToGet(s.q, ws)
    ensures WaitToGet(After(s, run).q, LookedIn(s, run, ws))
    decreases |run|
  {
    if run != [] {
      StepGood(s, run[0]);
      LookedStep(s, run[0], ws);
      RunLooked(Next(s, run[0]), run[1..], Looked(s, run[0], ws));
    }
  }

  /**
   * From an empty queue, in every run: the records on the stack of getters, and those with a token, are those of
   * the threads that looked for an event last when there was none. So a token is never that of a thread that
   * has got its event, and while there is an event and somebody waits, one of those who wait has a token.
   */
  lemma TokensAreWaiters<E, W>(s: State<E, W>, run: seq<Action<E, W>>)
    requires Initial(s) && Possible(s, run)
    ensures var r, ws := After(s, run), LookedIn(s, run, {});
      && ws == (set w | w in r.q.getters) + r.q.wokenGetters
      && (ws != {} && r.q.events != [] ==> exists w :: w in ws && w in r.q.wokenGetters)
  {
    InitialGood(s);
    RunLooked(s, run, {});
    RunsKeepOrder(s, run);
    var r, ws := After(s, run), LookedIn(s, run, {});
    if ws != {} && r.q.events != [] {
      var w :| w in ws;
      assert r.q.wokenGetters != {};
      var u :| u in r.q.wokenGetters;
      assert u in ws;
    }
  }

  /** An event on offer stays on offer until it is accepted. */
  lemma OfferStep<E, W>(s: State<E, W>, a: Action<E, W>, w: W)
    requires Good(s) && Enabled(s, a) && w in s.offered
    ensures var r := Next(s, a);
      if w in r.offered then r.offered[w] == s.offered[w] else r.accepted == s.accepted + [s.offered[w]]
  {
  }

  /** A blocking post never drops its event: when the thread is through, the event has been accepted since. */
  lemma {:induction false} OfferAccepted<E, W>(s: State<E, W>, run: seq<Action<E, W>>, w: W)
    requires Good(s) && Possible(s, run) && w in s.offered
    requires w !in After(s, run).offered
    ensures s.accepted <= After(s, run).accepted
    ensures s.offered[w] in After(s, run).accepted[|s.accepted|..]
    decreases |run|
  {
    var r := Next(s, run[0]);
    StepGood(s, run[0]);
    OfferStep(s, run[0], w);
    RunsKeepOrder(r, run[1..]);
    var all := After(s, run).accepted;
    if w in r.offered {
      OfferAccepted(r, run[1..], w);
      SuffixOf(all, |s.accepted|, |r.accepted|, s.offered[w]);
    } else {
      assert all[|s.accepted|] == r.accepted[|s.accepted|] == s.offered[w];
      assert all[|s.accepted|..][0] == s.offered[w];
    }
  }

  lemma SuffixOf<E>(all: seq<E>, i: nat, j: nat, e: E)
    requires i <= j <= |all| && e in all[j..]
    ensures e in all[i..]
  {
    assert all[i..][j - i..] == all[j..];
  }
}
