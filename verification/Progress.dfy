/** No call is ever stuck: whatever has happened, every call that was invoked can still return. */
module Progress {
  import opened ReadWriteLock
  import opened Sessions
  import opened Interleaving

  /** The calls that were invoked and have not returned. */
  function OpenCalls(w: World): set<nat> {
    set c | c in w.calls && !w.calls[c].phase.Returned?
  }

  /** Each event is one that its caller is ready for, and none invokes a new call. */
  ghost predicate OnlyServes(w: World, events: seq<Event>)
    decreases |events|
  {
    events == [] || (Enabled(w, events[0]) && !events[0].Invoke? && OnlyServes(Next(w, events[0]), events[1..]))
  }

  /** The next event of a call that holds its lock. */
  function NextEvent(w: World, c: nat): Event
    requires c in w.calls
  {
    var Call(op, phase) := w.calls[c];
    match phase
    case Waiting => if IsLifecycle(op) then RLock(c) else Lock(c)
    case Holding =>
      if ReadsThenWrites(op) then Select(c) else if IsGui(op) then ExecuteGui(c, w.dbClock) else ReadClock(c, w.clock)
    case Checked => ReadClock(c, w.clock)
    case Stamped(_) => Execute(c)
    case _ => Unlock(c)
  }

  /** Events left until the call returns, when nothing rejects it. */
  function Distance(phase: Phase): nat {
    match phase
    case Waiting => 5
    case Holding => 4
    case Checked => 3
    case Stamped(_) => 2
    case Done(_) => 1
    case Returned(_) => 0
  }

  predicate MayGoOn(w: World, c: nat) {
    && c in w.calls && !w.calls[c].phase.Returned?
    && (w.calls[c].phase.Waiting? ==> if IsLifecycle(w.calls[c].op) then MayRLock(w.lock) else MayLock(w.lock))
  }

  /** A call that holds its lock is never kept waiting, and its events leave the other calls alone. */
  lemma GoesOn(w: World, c: nat)
    requires MayGoOn(w, c)
    ensures
      var e, next := NextEvent(w, c), Next(w, NextEvent(w, c));
      && Enabled(w, e) && !e.Invoke?
      && next.calls == w.calls[c := next.calls[c]]
      && next.calls[c].op == w.calls[c].op
      && Distance(next.calls[c].phase) < Distance(w.calls[c].phase) && !next.calls[c].phase.Waiting?
  {
  }

  lemma OneFewer(w: World, c: nat)
    requires MayGoOn(w, c)
    ensures
      var next := Next(w, NextEvent(w, c));
      && c in next.calls
      && OpenCalls(next) == (if next.calls[c].phase.Returned? then OpenCalls(w) - {c} else OpenCalls(w))
      && |OpenCalls(next)| == (if next.calls[c].phase.Returned? then |OpenCalls(w)| - 1 else |OpenCalls(w)|)
  {
    GoesOn(w, c);
    var next := Next(w, NextEvent(w, c));
    assert c in OpenCalls(w);
    assert OpenCalls(next) == if next.calls[c].phase.Returned? then OpenCalls(w) - {c} else OpenCalls(w);
  }

  /** While some call is open, one of them can go on: a lock holder, or any of them when nobody holds it. */
  lemma SomeCallMayGoOn(run: seq<Event>) returns (c: nat)
    requires OpenCalls(After(run)) != {}
    ensures MayGoOn(After(run), c)
  {
    var w := After(run);
    LockInvariant(run);
    if inside :| inside in w.calls && InsideLock(w.calls[inside].phase) {
      c := inside;
    } else {
      assert w.lock.readers == {};
      c :| c in OpenCalls(w);
    }
  }

  /** What serving the open calls leaves as it was. */
  ghost predicate SameRequests(w: World, end: World) {
    end.calls.Keys == w.calls.Keys && forall c <- w.calls :: end.calls[c].op == w.calls[c].op
  }

  /** One event of the call, as one more event of the run. */
  lemma OneMoreServed(run: seq<Event>, c: nat, longer: seq<Event>)
    requires MayGoOn(After(run), c) && longer == run + [NextEvent(After(run), c)]
    ensures
      var w, end := After(run), After(longer);
      && SameRequests(w, end) && c in end.calls && !end.calls[c].phase.Waiting?
      && Distance(end.calls[c].phase) < Distance(w.calls[c].phase)
      && |OpenCalls(end)| == (if end.calls[c].phase.Returned? then |OpenCalls(w)| - 1 else |OpenCalls(w)|)
  {
    AfterSnoc(run, NextEvent(After(run), c));
    GoesOn(After(run), c);
    OneFewer(After(run), c);
  }

  /** Serving goes on from there. */
  lemma ServedFirst(run: seq<Event>, c: nat, longer: seq<Event>, rest: seq<Event>, whole: seq<Event>)
    requires MayGoOn(After(run), c) && longer == run + [NextEvent(After(run), c)] && whole == longer + rest
    requires OnlyServes(After(longer), rest)
    ensures whole == run + ([NextEvent(After(run), c)] + rest)
    ensures OnlyServes(After(run), [NextEvent(After(run), c)] + rest)
  {
    var e := NextEvent(After(run), c);
    AfterSnoc(run, e);
    GoesOn(After(run), c);
    assert ([e] + rest)[1..] == rest;
  }

  lemma {:induction false} ServeFrom(run: seq<Event>, c: nat) returns (more: seq<Event>, whole: seq<Event>)
    requires MayGoOn(After(run), c)
    ensures whole == run + more && OnlyServes(After(run), more)
    ensures OpenCalls(After(whole)) == {} && SameRequests(After(run), After(whole))
    decreases |OpenCalls(After(run))|, Distance(After(run).calls[c].phase)
  {
    var e := NextEvent(After(run), c);
    var longer := run + [e];
    var rest;
    OneMoreServed(run, c, longer);
    if !After(longer).calls[c].phase.Returned? {
      rest, whole := ServeFrom(longer, c);
    } else if OpenCalls(After(longer)) != {} {
      var other := SomeCallMayGoOn(longer);
      rest, whole := ServeFrom(longer, other);
    } else {
      rest, whole := [], longer;
    }
    ServedFirst(run, c, longer, rest, whole);
    more := [e] + rest;
  }

  /**
   * Every run can be continued, without any new call and without an event that its caller is not ready for,
   * until every call that was invoked has returned.
   */
  lemma EveryCallCanReturn(run: seq<Event>) returns (more: seq<Event>)
    ensures OnlyServes(After(run), more)
    ensures SameRequests(After(run), After(run + more))
    ensures forall c <- After(run + more).calls :: After(run + more).calls[c].phase.Returned?
  {
    if OpenCalls(After(run)) == {} {
      more := [];
      assert run + [] == run;
      assert forall c <- After(run).calls :: c !in OpenCalls(After(run));
    } else {
      var c := SomeCallMayGoOn(run);
      var whole;
      more, whole := ServeFrom(run, c);
      var end := After(whole);
      assert forall c <- end.calls :: c !in OpenCalls(end);
    }
  }
}
