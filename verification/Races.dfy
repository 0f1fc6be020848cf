/** What the shared lock does not prevent, and exactly when it happens. */
module Races {
  import opened Common
  import opened ReadWriteLock
  import opened Sessions
  import opened Interleaving
  import opened Reduction
  import SerialRuns

  /** The statement about to run takes session `id` somewhere other than DISCONNECTED. */
  predicate WritesOpenState(w: World, e: Event, id: string) {
    && Enabled(w, e) && e.Execute?
    && var op := w.calls[e.call].op;
       && (op.MarkConnected? || (op.Update? && StateOf(op.newState) != Disconnected))
       && op.id == id
  }

  /** A DISCONNECTED session is reopened exactly by an UPDATE whose own check would by now reject it. */
  lemma ReopensIff(w: World, e: Event, id: string)
    requires id in w.store && w.store[id].state == Disconnected
    ensures id in Next(w, e).store
    ensures Next(w, e).store[id].state != Disconnected <==> WritesOpenState(w, e, id)
    ensures WritesOpenState(w, e, id) ==> !FreshAt(w, e)
  {
    if Enabled(w, e) && (e.Execute? || e.ExecuteGui?) {
      var op, now := w.calls[e.call].op, StampOf(w, e);
      var next := Next(w, e).store;
      assert next[id] == w.store[id]
             || (!op.Create? && Hits(op, now, id, w.store[id]) && next[id] == WriteRow(op, now, w.store[id]));
    }
  }

  /** DISCONNECTED is absorbing in every run whose UPDATEs are fresh, serial or not. */
  lemma {:induction false} FreshRunsNeverReopen(run: seq<Event>, i: nat, id: string)
    requires Fresh(run) && i <= |run|
    requires id in After(run[..i]).store && After(run[..i]).store[id].state == Disconnected
    ensures id in After(run).store && After(run).store[id].state == Disconnected
  {
    if i == |run| {
      assert run[..i] == run;
    } else {
      var front := run[..|run| - 1];
      assert front[..i] == run[..i];
      FreshSnoc(run);
      FreshRunsNeverReopen(front, i, id);
      ReopensIff(After(front), run[|run| - 1], id);
    }
  }

  // ---- Serial runs are among the interleaved ones -----------------------------------------

  /** The world after some more events. */
  function Drive(w: World, events: seq<Event>): World
    decreases |events|
  {
    if events == [] then w else Drive(Next(w, events[0]), events[1..])
  }

  /** What they commit. */
  function Commits(w: World, events: seq<Event>): seq<Commit>
    decreases |events|
  {
    if events == [] then [] else NewCommit(w, events[0]) + Commits(Next(w, events[0]), events[1..])
  }

  /** Whether none of them disturbs a call's window. */
  ghost predicate AllQuiet(w: World, events: seq<Event>)
    decreases |events|
  {
    events == [] || (!Disturbs(w, events[0]) && AllQuiet(Next(w, events[0]), events[1..]))
  }

  lemma OneMore(run: seq<Event>, e: Event)
    ensures After(run + [e]) == Next(After(run), e)
    ensures Log(run + [e]) == Log(run) + NewCommit(After(run), e)
  {
    assert (run + [e])[..|run|] == run;
  }

  lemma Peel(w: World, e: Event, rest: seq<Event>)
    ensures Drive(w, [e] + rest) == Drive(Next(w, e), rest)
    ensures Commits(w, [e] + rest) == NewCommit(w, e) + Commits(Next(w, e), rest)
  {
    assert ([e] + rest)[1..] == rest;
  }

  lemma PeelQuiet(w: World, e: Event, rest: seq<Event>)
    ensures AllQuiet(w, [e] + rest) <==> !Disturbs(w, e) && AllQuiet(Next(w, e), rest)
  {
    assert ([e] + rest)[1..] == rest;
  }

  /** The run and what follows it, seen as one run. */
  ghost predicate Continues(run: seq<Event>, events: seq<Event>, whole: seq<Event>) {
    && After(whole) == Drive(After(run), events)
    && Log(whole) == Log(run) + Commits(After(run), events)
  }

  lemma ContinuesAtTheEnd(run: seq<Event>)
    ensures Continues(run, [], run)
  {
  }

  lemma OneEarlier(w: World, log: seq<Commit>, e: Event, rest: seq<Event>, end: World, all: seq<Commit>)
    requires end == Drive(Next(w, e), rest)
    requires all == (log + NewCommit(w, e)) + Commits(Next(w, e), rest)
    ensures end == Drive(w, [e] + rest) && all == log + Commits(w, [e] + rest)
  {
    Peel(w, e, rest);
  }

  lemma {:induction false} RunThenDrive(run: seq<Event>, events: seq<Event>, whole: seq<Event>)
    requires whole == run + events
    ensures Continues(run, events, whole)
    decreases |events|
  {
    if events == [] {
      ContinuesAtTheEnd(run);
      assert whole == run;
    } else {
      var e, rest := events[0], events[1..];
      assert whole == (run + [e]) + rest;
      RunThenDrive(run + [e], rest, whole);
      OneMore(run, e);
      OneEarlier(After(run), Log(run), e, rest, After(whole), Log(whole));
      assert [e] + rest == events;
    }
  }

  lemma OneMoreQuiet(run: seq<Event>, e: Event, more: seq<Event>)
    requires more == run + [e] && Undisturbed(run) && !Disturbs(After(run), e)
    ensures Undisturbed(more)
  {
    forall k | 0 <= k < |more|
      ensures !Disturbs(After(more[..k]), more[k])
    {
      if k < |run| {
        assert more[..k] == run[..k] && more[k] == run[k];
      } else {
        assert more[..k] == run;
      }
    }
  }

  lemma {:induction false} QuietThenDrive(run: seq<Event>, events: seq<Event>, whole: seq<Event>)
    requires whole == run + events && Undisturbed(run) && AllQuiet(After(run), events)
    ensures Undisturbed(whole)
    decreases |events|
  {
    if events == [] {
      assert whole == run;
    } else {
      var e, rest := events[0], events[1..];
      assert whole == (run + [e]) + rest;
      OneMoreQuiet(run, e, run + [e]);
      OneMore(run, e);
      QuietThenDrive(run + [e], rest, whole);
    }
  }

  /** The world after three events. */
  function Three(w: World, a: Event, b: Event, c: Event): World {
    Next(Next(Next(w, a), b), c)
  }

  lemma DriveTwo(w: World, a: Event, b: Event, rest: seq<Event>)
    ensures Drive(w, [a, b] + rest) == Drive(Next(Next(w, a), b), rest)
    ensures Commits(w, [a, b] + rest)
            == NewCommit(w, a) + NewCommit(Next(w, a), b) + Commits(Next(Next(w, a), b), rest)
  {
    assert [a, b] + rest == [a] + ([b] + rest);
    Peel(w, a, [b] + rest);
    Peel(Next(w, a), b, rest);
  }

  lemma DriveThree(w: World, a: Event, b: Event, c: Event, rest: seq<Event>)
    ensures Drive(w, [a, b, c] + rest) == Drive(Three(w, a, b, c), rest)
    ensures Commits(w, [a, b, c] + rest)
            == NewCommit(w, a) + NewCommit(Next(w, a), b) + NewCommit(Next(Next(w, a), b), c)
               + Commits(Three(w, a, b, c), rest)
  {
    DriveTwo(w, a, b, [c] + rest);
    Peel(Next(Next(w, a), b), c, rest);
    assert [a, b, c] + rest == [a, b] + ([c] + rest);
  }

  lemma QuietTwo(w: World, a: Event, b: Event, rest: seq<Event>)
    ensures AllQuiet(w, [a, b] + rest)
            <==> !Disturbs(w, a) && !Disturbs(Next(w, a), b) && AllQuiet(Next(Next(w, a), b), rest)
  {
    assert [a, b] + rest == [a] + ([b] + rest);
    PeelQuiet(w, a, [b] + rest);
    PeelQuiet(Next(w, a), b, rest);
  }

  lemma QuietThree(w: World, a: Event, b: Event, c: Event, rest: seq<Event>)
    ensures AllQuiet(w, [a, b, c] + rest)
            <==> !Disturbs(w, a) && !Disturbs(Next(w, a), b) && !Disturbs(Next(Next(w, a), b), c)
                 && AllQuiet(Three(w, a, b, c), rest)
  {
    QuietTwo(w, a, b, [c] + rest);
    PeelQuiet(Next(Next(w, a), b), c, rest);
    assert [a, b, c] + rest == [a, b] + ([c] + rest);
  }

  lemma DriveSix(w: World, s: seq<Event>)
    requires |s| == 6
    ensures Drive(w, s) == Six(w, s)
  {
    assert s == [s[0], s[1], s[2]] + ([s[3], s[4], s[5]] + []);
    DriveThree(w, s[0], s[1], s[2], [s[3], s[4], s[5]] + []);
    DriveThree(Three(w, s[0], s[1], s[2]), s[3], s[4], s[5], []);
  }

  function Six(w: World, events: seq<Event>): World
    requires |events| == 6
  {
    Three(Three(w, events[0], events[1], events[2]), events[3], events[4], events[5])
  }

  lemma AfterSix(run: seq<Event>, s: seq<Event>)
    requires |s| == 6
    ensures After(run + s) == Six(After(run), s)
  {
    RunThenDrive(run, s, run + s);
    DriveSix(After(run), s);
  }

  /** One call from invocation to return with nothing in between; events the call does not need change nothing. */
  function CallEvents(c: nat, s: Step): (r: seq<Event>)
    ensures |r| == 6
  {
    [Invoke(c, s.op), if IsLifecycle(s.op) then RLock(c) else Lock(c), Select(c), ReadClock(c, s.now),
     if IsGui(s.op) then ExecuteGui(c, s.now) else Execute(c), Unlock(c)]
  }

  /** `end` is `w` after call `c` ran the step on its own. */
  ghost predicate RanAlone(w: World, c: nat, s: Step, end: World) {
    && end.store == Apply(s.op, s.now, w.store).0
    && end.calls == w.calls[c := Call(s.op, Returned(Apply(s.op, s.now, w.store).1))]
    && end.lock == UNLOCKED
    && end.clock <= (if IsGui(s.op) then w.clock else s.now)
    && end.dbClock <= (if IsGui(s.op) then s.now else w.dbClock)
  }

  ghost predicate MayRunAlone(w: World, c: nat, s: Step) {
    && w.lock == UNLOCKED && c !in w.calls
    && (if IsGui(s.op) then w.dbClock <= s.now else w.clock <= s.now)
  }

  /** The call has returned from its last event but for the unlock. */
  lemma UnlockEndsIt(w: World, c: nat, s: Step, before: World, outcome: Outcome)
    requires MayRunAlone(w, c, s)
    requires before.calls == w.calls[c := Call(s.op, Done(outcome))]
    requires (before.store, outcome) == Apply(s.op, s.now, w.store)
    requires before.lock == RWMutex({c}, None) || before.lock == RWMutex({}, Some(c))
    requires before.clock <= (if IsGui(s.op) then w.clock else s.now)
    requires before.dbClock <= (if IsGui(s.op) then s.now else w.dbClock)
    ensures RanAlone(w, c, s, Next(before, Unlock(c)))
  {
  }

  lemma LockTaken(w: World, c: nat, s: Step)
    requires MayRunAlone(w, c, s)
    ensures
      var w2 := Next(Next(w, CallEvents(c, s)[0]), CallEvents(c, s)[1]);
      w2 == World(w.store, w.calls[c := Call(s.op, Holding)],
                  if IsLifecycle(s.op) then RWMutex({c}, None) else RWMutex({}, Some(c)), w.clock, w.dbClock)
  {
  }

  /** From taking the lock to the last event before the unlock. */
  lemma MiddleOfACall(w2: World, c: nat, s: Step)
    requires c in w2.calls && w2.calls[c] == Call(s.op, Holding)
    requires if IsGui(s.op) then w2.dbClock <= s.now else w2.clock <= s.now
    ensures
      var e := CallEvents(c, s);
      var w5 := Next(Next(Next(w2, e[2]), e[3]), e[4]);
      var (store, outcome) := Apply(s.op, s.now, w2.store);
      && w5.store == store && w5.calls == w2.calls[c := Call(s.op, Done(outcome))] && w5.lock == w2.lock
      && w5.clock <= (if IsGui(s.op) then w2.clock else s.now)
      && w5.dbClock <= (if IsGui(s.op) then s.now else w2.dbClock)
  {
    var e, op := CallEvents(c, s), s.op;
    var w3 := Next(w2, e[2]);
    var w4 := Next(w3, e[3]);
    if IsGui(op) {
      assert w4 == w2;
    } else if ReadsThenWrites(op) && Guard(op, w2.store).Some? {
      assert w3 == Become(w2, c, Done(Apply(op, s.now, w2.store).1));
      assert w4 == w3 && Next(w4, e[4]) == w3;
    } else {
      assert w3 == if ReadsThenWrites(op) then Become(w2, c, Checked) else w2;
      assert w4.store == w2.store && w4.calls[c] == Call(op, Stamped(s.now));
    }
  }

  lemma CallInOneGo(w: World, c: nat, s: Step)
    requires MayRunAlone(w, c, s)
    ensures RanAlone(w, c, s, Six(w, CallEvents(c, s)))
  {
    var e := CallEvents(c, s);
    LockTaken(w, c, s);
    var w2 := Next(Next(w, e[0]), e[1]);
    MiddleOfACall(w2, c, s);
    var w5 := Next(Next(Next(w2, e[2]), e[3]), e[4]);
    UnlockEndsIt(w, c, s, w5, Apply(s.op, s.now, w.store).1);
  }

  /** The readings of each of the two clocks start at the epoch and never go back. */
  ghost predicate Timed(steps: seq<Step>) {
    && (forall i :: 0 <= i < |steps| ==> 0 <= steps[i].now)
    && (forall i, j :: 0 <= i < j < |steps| && IsGui(steps[i].op) == IsGui(steps[j].op) ==>
          steps[i].now <= steps[j].now)
  }

  /** The world has the serial run's store, and its calls, in order, with their results. */
  ghost predicate Realizes(w: World, steps: seq<Step>) {
    && w.store == Run(steps, map[])
    && (forall c: nat :: c in w.calls <==> c < |steps|)
    && (forall c: nat :: c < |steps| ==> w.calls[c] == Call(steps[c].op, Returned(Outcomes(steps, map[])[c])))
  }

  lemma RealizesOneMore(w: World, front: seq<Step>, last: Step, end: World)
    requires Realizes(w, front) && RanAlone(w, |front|, last, end)
    ensures Realizes(end, front + [last])
  {
    RunSnoc(front, last, map[]);
    var outcomes := Outcomes(front + [last], map[]);
    forall c: nat | c < |front| + 1
      ensures end.calls[c] == Call((front + [last])[c].op, Returned(outcomes[c]))
    {
    }
  }

  ghost predicate NoWindows(w: World) {
    forall c <- w.calls :: !InWindow(w.calls[c])
  }

  /** While the lock is free no call is between its SELECT and its UPDATE. */
  lemma FreeLockNoWindows(run: seq<Event>)
    requires After(run).lock == UNLOCKED
    ensures NoWindows(After(run))
  {
    var w := After(run);
    LockInvariant(run);
    forall c | c in w.calls
      ensures !InWindow(w.calls[c])
    {
      assert c !in w.lock.readers;
    }
  }

  /** A call that runs alone disturbs nobody. */
  lemma RunningAloneIsQuiet(w: World, c: nat, s: Step)
    requires MayRunAlone(w, c, s) && NoWindows(w)
    ensures AllQuiet(w, CallEvents(c, s))
  {
    var e := CallEvents(c, s);
    assert e == [e[0], e[1], e[2]] + ([e[3], e[4], e[5]] + []);
    QuietThree(w, e[0], e[1], e[2], [e[3], e[4], e[5]] + []);
    QuietThree(Three(w, e[0], e[1], e[2]), e[3], e[4], e[5], []);
    LockTaken(w, c, s);
    var w4 := Next(Three(w, e[0], e[1], e[2]), e[3]);
    OthersUntouched(Next(Next(w, e[0]), e[1]), c, e[2], e[3]);
    assert forall other <- w4.calls :: other != c ==> w4.calls[other] == w.calls[other];
  }

  lemma OtherUntouched(w: World, e: Event)
    requires e.call in w.calls
    ensures Next(w, e).calls.Keys == w.calls.Keys
    ensures forall other <- w.calls :: other != e.call ==> Next(w, e).calls[other] == w.calls[other]
  {
  }

  lemma OthersUntouched(w: World, c: nat, a: Event, b: Event)
    requires a.call == c && b.call == c && c in w.calls
    ensures var end := Next(Next(w, a), b);
            && end.calls.Keys == w.calls.Keys
            && (forall other <- w.calls :: other != c ==> end.calls[other] == w.calls[other])
  {
    OtherUntouched(w, a);
    OtherUntouched(Next(w, a), b);
  }

  /** One more call of a serial run, on its own after the others. */
  lemma OneMoreCall(before: seq<Event>, front: seq<Step>, last: Step)
    requires Realizes(After(before), front) && Undisturbed(before) && MayRunAlone(After(before), |front|, last)
    ensures
      var run := before + CallEvents(|front|, last);
      && Realizes(After(run), front + [last]) && Undisturbed(run)
      && RanAlone(After(before), |front|, last, After(run))
  {
    var w, events := After(before), CallEvents(|front|, last);
    AfterSix(before, events);
    CallInOneGo(w, |front|, last);
    FreeLockNoWindows(before);
    RunningAloneIsQuiet(w, |front|, last);
    QuietThenDrive(before, events, before + events);
    RealizesOneMore(w, front, last, After(before + events));
  }

  /** Every serial run is an interleaved run of the same calls, undisturbed, with the same store and results. */
  lemma {:induction false} SerialRunsAreReachable(steps: seq<Step>, appTime: Time, dbTime: Time)
    returns (run: seq<Event>)
    requires Timed(steps) && 0 <= appTime && 0 <= dbTime
    requires forall s <- steps :: s.now <= if IsGui(s.op) then dbTime else appTime
    ensures Realizes(After(run), steps) && Undisturbed(run)
    ensures After(run).lock == UNLOCKED && After(run).clock <= appTime && After(run).dbClock <= dbTime
  {
    if steps == [] {
      run := [];
    } else {
      var front, last := steps[..|steps| - 1], steps[|steps| - 1];
      var appBefore := if IsGui(last.op) then appTime else last.now;
      var dbBefore := if IsGui(last.op) then last.now else dbTime;
      TimedFront(steps, appTime, dbTime);
      var before := SerialRunsAreReachable(front, appBefore, dbBefore);
      OneMoreCall(before, front, last);
      run := before + CallEvents(|front|, last);
      assert front + [last] == steps;
    }
  }

  lemma TimedFront(steps: seq<Step>, appTime: Time, dbTime: Time)
    requires steps != [] && Timed(steps)
    requires forall s <- steps :: s.now <= if IsGui(s.op) then dbTime else appTime
    ensures var front, last := steps[..|steps| - 1], steps[|steps| - 1];
            && Timed(front) && 0 <= last.now
            && (forall s <- front :: s.now <= if IsGui(s.op) then (if IsGui(last.op) then last.now else dbTime)
                                              else (if IsGui(last.op) then appTime else last.now))
  {
    var front, last := steps[..|steps| - 1], steps[|steps| - 1];
    forall s | s in front
      ensures IsGui(s.op) == IsGui(last.op) ==> s.now <= last.now
    {
      var i :| 0 <= i < |front| && front[i] == s;
      assert steps[i] == s;
    }
  }

  // ---- Losing a disconnect ----------------------------------------------------------------

  /** Calls `d` and `m` both SELECT the session before either writes; the disconnect writes first. */
  function BothSelect(d: nat, m: nat, id: string, reason: string): (r: seq<Event>)
    ensures |r| == 6
  {
    [Invoke(d, Disconnect(id, reason)), Invoke(m, MarkConnected(id)), RLock(d), RLock(m), Select(d), Select(m)]
  }

  function BothWrite(d: nat, m: nat, t1: Time, t2: Time): (r: seq<Event>)
    ensures |r| == 6
  {
    [ReadClock(d, t1), Execute(d), ReadClock(m, t2), Execute(m), Unlock(d), Unlock(m)]
  }

  lemma BothHold(w: World, d: nat, m: nat, x: Op, y: Op)
    requires w.lock == UNLOCKED && d !in w.calls && m !in w.calls && d != m && IsLifecycle(x) && IsLifecycle(y)
    ensures Next(Next(Next(Next(w, Invoke(d, x)), Invoke(m, y)), RLock(d)), RLock(m))
            == w.(calls := w.calls[d := Call(x, Holding)][m := Call(y, Holding)], lock := RWMutex({d, m}, None))
  {
    var w2 := Next(Next(w, Invoke(d, x)), Invoke(m, y));
    assert w2 == w.(calls := w.calls[d := Call(x, Waiting)][m := Call(y, Waiting)]);
    var w3 := Next(w2, RLock(d));
    assert w3.lock == RWMutex({d}, None);
    var w4 := Next(w3, RLock(m));
    assert w4.lock == RWMutex({d, m}, None);
    assert w4.calls == w.calls[d := Call(x, Holding)][m := Call(y, Holding)];
  }

  lemma BothSelectPass(w: World, d: nat, m: nat, id: string, reason: string)
    requires w.lock == UNLOCKED && d !in w.calls && m !in w.calls && d != m
    requires id in w.store && w.store[id].state == Authorized
    ensures
      var end := Six(w, BothSelect(d, m, id, reason));
      && end.store == w.store && end.clock == w.clock
      && end.calls == w.calls[d := Call(Disconnect(id, reason), Checked)][m := Call(MarkConnected(id), Checked)]
  {
    var x, y := Disconnect(id, reason), MarkConnected(id);
    BothHold(w, d, m, x, y);
    var w4 := w.(calls := w.calls[d := Call(x, Holding)][m := Call(y, Holding)], lock := RWMutex({d, m}, None));
    var w5 := Next(w4, Select(d));
    assert w5.calls == w.calls[d := Call(x, Checked)][m := Call(y, Holding)];
  }

  lemma BothWriteSucceed(w: World, d: nat, m: nat, id: string, reason: string, t1: Time, t2: Time)
    requires d in w.calls && w.calls[d] == Call(Disconnect(id, reason), Checked)
    requires m in w.calls && w.calls[m] == Call(MarkConnected(id), Checked)
    requires d != m && id in w.store && w.clock <= t1 <= t2
    ensures
      var end := Six(w, BothWrite(d, m, t1, t2));
      && d in end.calls && end.calls[d].phase == Returned(Ok)
      && m in end.calls && end.calls[m].phase == Returned(Ok)
      && id in end.store && end.store[id].state == Active && end.store[id].disconnectedAt == Some(t1)
  {
    var s := BothWrite(d, m, t1, t2);
    var x, y := Disconnect(id, reason), MarkConnected(id);
    var w1 := Next(w, s[0]);
    var w2 := Next(w1, s[1]);
    assert w2.store[id] == Closed(w.store[id], reason, t1);
    assert w2.calls == w.calls[d := Call(x, Done(Ok))];
    var w3 := Next(w2, s[2]);
    var w4 := Next(w3, s[3]);
    assert w4.store[id] == WriteRow(y, t2, w2.store[id]);
    assert w4.calls == w.calls[d := Call(x, Done(Ok))][m := Call(y, Done(Ok))];
  }

  /**
   * From any reachable state with the lock free and a session AUTHORIZED, a disconnect and a
   * mark-connected can both report success and leave the session ACTIVE, and no serial run of any calls
   * ends in that store.
   */
  lemma DisconnectCanBeLost(run: seq<Event>, d: nat, m: nat, id: string, reason: string, t1: Time, t2: Time)
    requires var w := After(run); w.lock == UNLOCKED && d !in w.calls && m !in w.calls && d != m
    requires var w := After(run); id in w.store && w.store[id].state == Authorized && w.clock <= t1 <= t2
    ensures
      var raced := run + BothSelect(d, m, id, reason) + BothWrite(d, m, t1, t2);
      var w := After(raced);
      && d in w.calls && w.calls[d].phase == Returned(Ok)
      && m in w.calls && w.calls[m].phase == Returned(Ok)
      && id in w.store && w.store[id].state == Active && w.store[id].disconnectedAt == Some(t1)
      && (forall steps: seq<Step> :: Run(steps, map[]) != w.store)
      && !Undisturbed(raced)
  {
    var selected := run + BothSelect(d, m, id, reason);
    var raced := selected + BothWrite(d, m, t1, t2);
    AfterSix(run, BothSelect(d, m, id, reason));
    BothSelectPass(After(run), d, m, id, reason);
    AfterSix(selected, BothWrite(d, m, t1, t2));
    BothWriteSucceed(After(selected), d, m, id, reason, t1, t2);
    var store := After(raced).store;
    forall steps: seq<Step>
      ensures Run(steps, map[]) != store
    {
      if Run(steps, map[]) == store {
        SerialRuns.DisconnectTimeMeansDisconnected(steps, id);
      }
    }
    if Undisturbed(raced) {
      UndisturbedRunsAreSerial(raced);
      assert Run(Steps(Log(raced)), map[]) == store;
    }
  }

  /** A run of two calls that leaves one session, AUTHORIZED, and the lock free. */
  lemma OneAuthorizedSession() returns (run: seq<Event>)
    ensures var w := After(run);
            && Undisturbed(run)
            && w.store.Keys == {"s"} && w.store["s"].state == Authorized && w.store["s"].certExpiresAt == 100
            && w.lock == UNLOCKED && w.clock <= 2 && (forall c: nat :: c in w.calls <==> c < 2)
  {
    var create, authorize := Step(Create("s", "u", "d", "c", 100), 1), Step(Update("s", "AUTHORIZED"), 2);
    var steps := [create, authorize];
    assert steps[..1] == [create] && [create][..0] == [];
    run := SerialRunsAreReachable(steps, 2, 0);
    assert Run([create], map[]) == Apply(create.op, 1, map[]).0;
  }

  /** Such a state is reachable, so the loss is too. */
  lemma LostDisconnectHappens() returns (run: seq<Event>)
    ensures var store := After(run).store;
            && "s" in store && store["s"].state == Active && store["s"].disconnectedAt.Some?
            && (forall steps: seq<Step> :: Run(steps, map[]) != store)
  {
    var before := OneAuthorizedSession();
    DisconnectCanBeLost(before, 2, 3, "s", "bye", 2, 3);
    run := before + BothSelect(2, 3, "s", "bye") + BothWrite(2, 3, 2, 3);
  }

  // ---- No bound on transitions ------------------------------------------------------------

  /** Calls `first` up to but not including `end` are MarkConnected calls in the given phase or later ones. */
  ghost predicate AllMarking(w: World, first: nat, end: nat, id: string, phase: Phase) {
    forall c: nat :: first <= c < end ==> c in w.calls && w.calls[c] == Call(MarkConnected(id), phase)
  }

  ghost predicate MayStillSelect(w: World, id: string) {
    w.lock.writer.None? && id in w.store && w.store[id].state == Authorized
  }

  /** Any number of calls can SELECT the session while it is AUTHORIZED. */
  lemma {:induction false} ManySelect(run: seq<Event>, first: nat, k: nat, id: string) returns (selected: seq<Event>)
    requires MayStillSelect(After(run), id) && forall c: nat :: c >= first ==> c !in After(run).calls
    ensures AllMarking(After(selected), first, first + k, id, Checked)
    ensures forall c: nat :: c >= first + k ==> c !in After(selected).calls
    ensures MayStillSelect(After(selected), id)
    ensures After(selected).store == After(run).store && After(selected).clock == After(run).clock
  {
    if k == 0 {
      selected := run;
    } else {
      var before := ManySelect(run, first, k - 1, id);
      var c := first + k - 1;
      AfterSnoc(before, Invoke(c, MarkConnected(id)));
      var invoked := before + [Invoke(c, MarkConnected(id))];
      AfterSnoc(invoked, RLock(c));
      AfterSnoc(invoked + [RLock(c)], Select(c));
      selected := invoked + [RLock(c)] + [Select(c)];
      OneSelects(After(before), c, id);
    }
  }

  lemma OneSelects(w: World, c: nat, id: string)
    requires MayStillSelect(w, id) && c !in w.calls
    ensures var end := Next(Next(Next(w, Invoke(c, MarkConnected(id))), RLock(c)), Select(c));
            && end.store == w.store && end.clock == w.clock && end.lock.writer.None?
            && end.calls == w.calls[c := Call(MarkConnected(id), Checked)]
  {
    var x := MarkConnected(id);
    var w2 := Next(Next(w, Invoke(c, x)), RLock(c));
    assert w2.calls == w.calls[c := Call(x, Holding)];
  }

  /** And then every one of them can write and report success. */
  lemma {:induction false} ManyWrite(run: seq<Event>, first: nat, k: nat, id: string) returns (written: seq<Event>)
    requires AllMarking(After(run), first, first + k, id, Checked)
    ensures AllMarking(After(written), first, first + k, id, Done(Ok))
    ensures After(written).store.Keys == After(run).store.Keys
    ensures forall c: nat :: c >= first + k && c in After(run).calls ==>
              c in After(written).calls && After(written).calls[c] == After(run).calls[c]
    decreases k
  {
    if k == 0 {
      written := run;
    } else {
      var w, c, now := After(run), first + k - 1, After(run).clock;
      AfterSnoc(run, ReadClock(c, now));
      AfterSnoc(run + [ReadClock(c, now)], Execute(c));
      var one := run + [ReadClock(c, now)] + [Execute(c)];
      OneWrites(w, c, id);
      written := ManyWrite(one, first, k - 1, id);
    }
  }

  lemma OneWrites(w: World, c: nat, id: string)
    requires c in w.calls && w.calls[c] == Call(MarkConnected(id), Checked)
    ensures var end := Next(Next(w, ReadClock(c, w.clock)), Execute(c));
            end.calls == w.calls[c := Call(MarkConnected(id), Done(Ok))] && end.store.Keys == w.store.Keys
  {
    var w1 := Next(w, ReadClock(c, w.clock));
    assert w1.calls == w.calls[c := Call(MarkConnected(id), Stamped(w.clock))];
  }

  /**
   * The serial bound of three transitions for each session has no counterpart under overlap: for every k
   * there is a run with a single session on which k calls have each moved it to ACTIVE with success.
   */
  lemma TransitionsAreUnbounded(k: nat) returns (run: seq<Event>)
    ensures After(run).store.Keys == {"s"}
    ensures AllMarking(After(run), 2, 2 + k, "s", Done(Ok))
  {
    var before := OneAuthorizedSession();
    var selected := ManySelect(before, 2, k, "s");
    run := ManyWrite(selected, 2, k, "s");
  }
}
