/**
 * When a run with overlapping calls is equivalent to a serial one.
 *
 * A call takes effect at one event: a rejected call at its SELECT, any other at its statement.
 * Listing the calls in that order gives the only candidate serial run that the proofs need.
 */
module Reduction {
  import opened Common
  import opened Sessions
  import opened Interleaving
  import SerialRuns

  /** A call that has taken effect: what it was, the time it was stamped with, and what it returns. */
  datatype Commit = Commit(call: nat, step: Step, outcome: Outcome)

  function NewCommit(w: World, e: Event): seq<Commit> {
    if !Enabled(w, e) then []
    else
      var op := if e.Invoke? then e.op else w.calls[e.call].op;
      if e.Select? && Guard(op, w.store).Some? then
        [Commit(e.call, Step(op, w.clock), Fail(Guard(op, w.store).value))]
      else if e.Execute? || e.ExecuteGui? then
        [Commit(e.call, Step(op, StampOf(w, e)), Statement(op, StampOf(w, e), w.store).1)]
      else []
  }

  function Log(run: seq<Event>): seq<Commit> {
    if run == [] then []
    else Log(run[..|run| - 1]) + NewCommit(After(run[..|run| - 1]), run[|run| - 1])
  }

  function Steps(log: seq<Commit>): (r: seq<Step>)
    ensures |r| == |log|
  {
    seq(|log|, i requires 0 <= i < |log| => log[i].step)
  }

  function Results(log: seq<Commit>): (r: seq<Outcome>)
    ensures |r| == |log|
  {
    seq(|log|, i requires 0 <= i < |log| => log[i].outcome)
  }

  lemma LogSnoc(log: seq<Commit>, c: Commit)
    ensures Steps(log + [c]) == Steps(log) + [c.step]
    ensures Results(log + [c]) == Results(log) + [c.outcome]
  {
  }

  // ---- The exact condition ----------------------------------------------------------------

  /** An UPDATE is fresh when the check its call made at the SELECT would still pass. */
  predicate FreshAt(w: World, e: Event) {
    Enabled(w, e) && e.Execute? && ReadsThenWrites(w.calls[e.call].op) ==> Guard(w.calls[e.call].op, w.store).None?
  }

  ghost predicate Fresh(run: seq<Event>) {
    forall k :: 0 <= k < |run| ==> FreshAt(After(run[..k]), run[k])
  }

  lemma FreshSnoc(run: seq<Event>)
    requires run != []
    ensures Fresh(run) <==> Fresh(run[..|run| - 1]) && FreshAt(After(run[..|run| - 1]), run[|run| - 1])
  {
    var front := run[..|run| - 1];
    forall k | 0 <= k < |front|
      ensures front[..k] == run[..k]
    {
    }
  }

  lemma OneStepReplays(w: World, e: Event)
    ensures NewCommit(w, e) == [] ==> Next(w, e).store == w.store
    ensures |NewCommit(w, e)| <= 1
    ensures |NewCommit(w, e)| == 1 ==>
              var c := NewCommit(w, e)[0];
              if FreshAt(w, e) then Apply(c.step.op, c.step.now, w.store) == (Next(w, e).store, c.outcome)
              else Apply(c.step.op, c.step.now, w.store).1 != c.outcome
  {
  }

  /**
   * The calls, run serially in the order they took effect and with the timestamps they had, return what
   * they returned in the interleaved run if and only if every UPDATE was fresh; and then the serial run
   * ends in the same store.
   */
  lemma {:induction false} ReplaysIffFresh(run: seq<Event>)
    ensures Outcomes(Steps(Log(run)), map[]) == Results(Log(run)) <==> Fresh(run)
    ensures Fresh(run) ==> Run(Steps(Log(run)), map[]) == After(run).store
  {
    if run != [] {
      var front, e := run[..|run| - 1], run[|run| - 1];
      var w := After(front);
      ReplaysIffFresh(front);
      FreshSnoc(run);
      OneStepReplays(w, e);
      if NewCommit(w, e) == [] {
        assert Log(run) == Log(front);
        assert FreshAt(w, e);
      } else {
        var c := NewCommit(w, e)[0];
        assert Log(run) == Log(front) + [c];
        LogSnoc(Log(front), c);
        RunSnoc(Steps(Log(front)), c.step, map[]);
        var was, all := Outcomes(Steps(Log(front)), map[]), Outcomes(Steps(Log(run)), map[]);
        assert all[..|was|] == was && Results(Log(run))[..|was|] == Results(Log(front));
      }
    }
  }

  // ---- A condition a reader of the run can check -----------------------------------------

  /** The call has made its SELECT and still has its UPDATE to do. */
  predicate InWindow(call: Call) {
    ReadsThenWrites(call.op) && (call.phase.Checked? || call.phase.Stamped?)
  }

  /** The event writes a lifecycle change to the session of some other call's open window. */
  ghost predicate Disturbs(w: World, e: Event) {
    && Enabled(w, e) && e.Execute? && IsLifecycle(w.calls[e.call].op)
    && exists c <- w.calls ::
         && c != e.call && InWindow(w.calls[c])
         && w.calls[c].op.id in SerialRuns.HitSet(w.calls[e.call].op, StampOf(w, e), w.store)
  }

  ghost predicate Undisturbed(run: seq<Event>) {
    forall k :: 0 <= k < |run| ==> !Disturbs(After(run[..k]), run[k])
  }

  lemma UndisturbedPrefix(run: seq<Event>)
    requires run != [] && Undisturbed(run)
    ensures Undisturbed(run[..|run| - 1]) && !Disturbs(After(run[..|run| - 1]), run[|run| - 1])
  {
    var front := run[..|run| - 1];
    forall k | 0 <= k < |front|
      ensures !Disturbs(After(front[..k]), front[k])
    {
      assert front[..k] == run[..k] && front[k] == run[k];
    }
  }

  ghost predicate WindowsStillPass(w: World) {
    forall c <- w.calls :: InWindow(w.calls[c]) ==> Guard(w.calls[c].op, w.store).None?
  }

  lemma GuardSeesOnlyTheState(op: Op, was: Store, now: Store)
    requires ReadsThenWrites(op) && op.id in was && op.id in now && was[op.id].state == now[op.id].state
    ensures Guard(op, was) == Guard(op, now)
  {
  }

  lemma QuietStepKeepsWindows(w: World, e: Event)
    requires WindowsStillPass(w) && !Disturbs(w, e)
    ensures WindowsStillPass(Next(w, e))
  {
    var next := Next(w, e);
    forall c | c in next.calls && InWindow(next.calls[c])
      ensures Guard(next.calls[c].op, next.store).None?
    {
      if Enabled(w, e) && (e.Execute? || e.ExecuteGui?) {
        var op, id := next.calls[c].op, next.calls[c].op.id;
        assert c != e.call && InWindow(w.calls[c]);
        assert id in w.store;
        if !w.calls[e.call].op.Create? {
          assert IsGui(w.calls[e.call].op) || id !in SerialRuns.HitSet(w.calls[e.call].op, StampOf(w, e), w.store);
        }
        assert next.store[id].state == w.store[id].state;
        GuardSeesOnlyTheState(op, w.store, next.store);
      }
    }
  }

  lemma {:induction false} UndisturbedIsFresh(run: seq<Event>)
    requires Undisturbed(run)
    ensures Fresh(run) && WindowsStillPass(After(run))
  {
    if run != [] {
      var front, e := run[..|run| - 1], run[|run| - 1];
      UndisturbedPrefix(run);
      UndisturbedIsFresh(front);
      FreshSnoc(run);
      QuietStepKeepsWindows(After(front), e);
    }
  }

  /** What a call in its window still finds: its session, which has left REQUESTED if the call aims at ACTIVE. */
  ghost predicate WindowsSound(w: World) {
    forall c <- w.calls :: InWindow(w.calls[c]) ==>
      var op := w.calls[c].op;
      op.id in w.store && (AimsAtActive(op) ==> w.store[op.id].state != Requested)
  }

  lemma WindowStep(w: World, e: Event)
    requires Sound(w) && WindowsSound(w)
    ensures WindowsSound(Next(w, e))
  {
    var next := Next(w, e);
    StepGrows(w, e);
    forall c | c in next.calls && InWindow(next.calls[c])
      ensures var op := next.calls[c].op;
              op.id in next.store && (AimsAtActive(op) ==> next.store[op.id].state != Requested)
    {
      WindowOpens(w, e, c);
      assert RowGrows(w.store[next.calls[c].op.id], next.store[next.calls[c].op.id]);
    }
  }

  /** A call is in its window because it was before, or because its SELECT has just passed. */
  lemma WindowOpens(w: World, e: Event, c: nat)
    requires WindowsSound(w) && c in Next(w, e).calls && InWindow(Next(w, e).calls[c])
    ensures var op := Next(w, e).calls[c].op;
            op.id in w.store && (AimsAtActive(op) ==> w.store[op.id].state != Requested)
  {
    assert c in w.calls && w.calls[c].op == Next(w, e).calls[c].op;
    if !InWindow(w.calls[c]) {
      assert e == Select(c) && Guard(w.calls[c].op, w.store).None?;
    }
  }

  lemma {:induction false} EveryWindowIsSound(run: seq<Event>)
    ensures WindowsSound(After(run))
  {
    if run != [] {
      var front := run[..|run| - 1];
      EveryWindowIsSound(front);
      EveryStateIsSound(front);
      WindowStep(After(front), run[|run| - 1]);
    }
  }

  // ---- The serial run is about the same calls ---------------------------------------------

  predicate Finished(call: Call) {
    call.phase.Done? || call.phase.Returned?
  }

  predicate Reports(call: Call, commit: Commit) {
    Finished(call) && call.op == commit.step.op && call.phase.outcome == commit.outcome
  }

  /** The log has each finished call exactly once, with the operation and the result it had. */
  ghost predicate Accounts(log: seq<Commit>, w: World) {
    && (forall i, j :: 0 <= i < j < |log| ==> log[i].call != log[j].call)
    && (forall i :: 0 <= i < |log| ==> log[i].call in w.calls && Reports(w.calls[log[i].call], log[i]))
    && (forall c <- w.calls :: Finished(w.calls[c]) ==> exists i :: 0 <= i < |log| && log[i].call == c)
  }

  /** Finished calls stay finished; a call takes effect at the event that finishes it. */
  lemma FinishingIsOnce(w: World, e: Event, c: nat)
    requires c in Next(w, e).calls
    ensures var next := Next(w, e).calls[c];
            if c in w.calls && Finished(w.calls[c]) then
              && next.op == w.calls[c].op && Finished(next) && next.phase.outcome == w.calls[c].phase.outcome
              && (NewCommit(w, e) != [] ==> NewCommit(w, e)[0].call != c)
            else
              Finished(next) <==>
                |NewCommit(w, e)| == 1 && NewCommit(w, e)[0].call == c && Reports(next, NewCommit(w, e)[0])
  {
  }

  lemma {:induction false} LogAccounts(run: seq<Event>)
    ensures Accounts(Log(run), After(run))
  {
    if run != [] {
      var front, e := run[..|run| - 1], run[|run| - 1];
      var w, next, log, added := After(front), After(run), Log(front), NewCommit(After(front), e);
      LogAccounts(front);
      assert next == Next(w, e) && Log(run) == log + added && |added| <= 1;
      forall c | c in next.calls && Finished(next.calls[c])
        ensures exists i :: 0 <= i < |Log(run)| && Log(run)[i].call == c
      {
        FinishingIsOnce(w, e, c);
        if c in w.calls && Finished(w.calls[c]) {
          var i :| 0 <= i < |log| && log[i].call == c;
          assert Log(run)[i].call == c;
        } else {
          assert Log(run)[|log|].call == c;
        }
      }
      forall i | 0 <= i < |Log(run)|
        ensures Log(run)[i].call in next.calls && Reports(next.calls[Log(run)[i].call], Log(run)[i])
        ensures i < |log| && added != [] ==> Log(run)[i].call != added[0].call
      {
        CallsRemain(w, e);
        FinishingIsOnce(w, e, Log(run)[i].call);
        if i < |log| {
          assert Reports(w.calls[log[i].call], log[i]);
        }
      }
    }
  }

  lemma CallsRemain(w: World, e: Event)
    ensures w.calls.Keys <= Next(w, e).calls.Keys
    ensures forall c <- NewCommit(w, e) ::
              c.call in w.calls && !Finished(w.calls[c.call]) && Reports(Next(w, e).calls[c.call], c)
  {
  }

  /** The time the log gives to a call that wrote is the one that call read. */
  lemma {:induction false} LogUsesTheCallsOwnReading(run: seq<Event>)
    ensures forall c <- After(run).calls :: After(run).calls[c].phase.Stamped? ==>
              ReadClock(c, After(run).calls[c].phase.now) in run
    ensures forall commit <- Log(run) :: commit.outcome == Ok ==>
              ReadClock(commit.call, commit.step.now) in run || ExecuteGui(commit.call, commit.step.now) in run
  {
    if run != [] {
      var front, e := run[..|run| - 1], run[|run| - 1];
      LogUsesTheCallsOwnReading(front);
      assert run == front + [e];
    }
  }

  lemma {:induction false} LogOnlyGrows(run: seq<Event>, i: nat)
    requires i <= |run|
    ensures Log(run[..i]) <= Log(run)
  {
    if i == |run| {
      assert run[..i] == run;
    } else {
      var front := run[..|run| - 1];
      LogOnlyGrows(front, i);
      assert front[..i] == run[..i];
    }
  }

  /** A call that had returned before another was invoked comes before it in the serial run. */
  lemma RealTimeOrder(run: seq<Event>, i: nat, p: nat, q: nat)
    requires i <= |run| && p < |Log(run)| && q < |Log(run)|
    requires Log(run)[p].call in After(run[..i]).calls
             && After(run[..i]).calls[Log(run)[p].call].phase.Returned?
    requires Log(run)[q].call !in After(run[..i]).calls
    ensures p < q
  {
    LogOnlyGrows(run, i);
    LogAccounts(run[..i]);
    LogAccounts(run);
    EarlierInLog(Log(run[..i]), Log(run), After(run[..i]), After(run), p, q);
  }

  lemma EarlierInLog(early: seq<Commit>, log: seq<Commit>, before: World, now: World, p: nat, q: nat)
    requires early <= log && Accounts(early, before) && Accounts(log, now)
    requires p < |log| && q < |log|
    requires log[p].call in before.calls && Finished(before.calls[log[p].call]) && log[q].call !in before.calls
    ensures p < q
  {
    var p' :| 0 <= p' < |early| && early[p'].call == log[p].call;
    assert log[p'].call == log[p].call;
    assert early == log[..|early|];
  }

  /**
   * Reduction: if no other lifecycle write hits a session between one call's SELECT and its UPDATE, the
   * run has the same store and the same call results as a serial run of the same calls with the same
   * timestamps.
   */
  lemma UndisturbedRunsAreSerial(run: seq<Event>)
    requires Undisturbed(run)
    ensures Run(Steps(Log(run)), map[]) == After(run).store
    ensures Outcomes(Steps(Log(run)), map[]) == Results(Log(run))
    ensures Accounts(Log(run), After(run))
    ensures forall commit <- Log(run) :: commit.outcome == Ok ==>
              ReadClock(commit.call, commit.step.now) in run || ExecuteGui(commit.call, commit.step.now) in run
  {
    UndisturbedIsFresh(run);
    ReplaysIffFresh(run);
    LogAccounts(run);
    LogUsesTheCallsOwnReading(run);
  }

  // ---- Timestamps carry over --------------------------------------------------------------

  /** A cleanup has read the clock and some other call writes a session that the cleanup is about to close. */
  ghost predicate DisturbsCleanup(w: World, e: Event) {
    && Enabled(w, e) && e.Execute? && IsLifecycle(w.calls[e.call].op)
    && exists c <- w.calls, id <- w.store ::
         && c != e.call && w.calls[c].op.Cleanup? && w.calls[c].phase.Stamped?
         && Hits(Cleanup, w.calls[c].phase.now, id, w.store[id])
         && Hits(w.calls[e.call].op, StampOf(w, e), id, w.store[id])
  }

  ghost predicate CleanupsUndisturbed(run: seq<Event>) {
    forall k :: 0 <= k < |run| ==> !DisturbsCleanup(After(run[..k]), run[k])
  }

  /** No stamped call is behind a row it is about to write. */
  ghost predicate StampsLead(w: World) {
    && SerialRuns.AllTimesAgree(w.store)
    && SerialRuns.UpdatedBy(w.store, w.clock)
    && (forall c <- w.calls, id <- w.store ::
          w.calls[c].phase.Stamped? && Hits(w.calls[c].op, w.calls[c].phase.now, id, w.store[id]) ==>
            w.store[id].updatedAt <= w.calls[c].phase.now)
    && (forall c <- w.calls :: w.calls[c].phase.Stamped? ==>
          !IsGui(w.calls[c].op) && w.calls[c].phase.now <= w.clock)
    && (forall c <- w.calls :: w.calls[c].phase.Checked? ==> ReadsThenWrites(w.calls[c].op))
  }

  /** While one call's statement runs, another stamped call is a lifecycle call, and aims at other rows. */
  lemma OthersAimElsewhere(w: World, e: Event, c: nat, id: string)
    requires LockMatchesCalls(w) && Enabled(w, e) && e.Execute? && !Disturbs(w, e) && !DisturbsCleanup(w, e)
    requires c in w.calls && c != e.call && w.calls[c].phase.Stamped? && id in w.store
    requires Hits(w.calls[c].op, w.calls[c].phase.now, id, w.store[id]) && !IsGui(w.calls[c].op)
    ensures IsLifecycle(w.calls[e.call].op) && IsLifecycle(w.calls[c].op)
    ensures !Hits(w.calls[e.call].op, StampOf(w, e), id, w.store[id])
  {
    var op, now := w.calls[e.call].op, StampOf(w, e);
    assert w.lock.writer == Some(e.call) <==> !IsLifecycle(op);
    assert c in w.lock.readers <==> IsLifecycle(w.calls[c].op);
    assert w.lock.writer == Some(c) <==> !IsLifecycle(w.calls[c].op);
    assert ReadsThenWrites(w.calls[c].op) ==> id !in SerialRuns.HitSet(op, now, w.store);
  }

  /** The rows a statement leaves behind are no newer than the other stamped calls that aim at them. */
  lemma StatementLeavesStampsAhead(w: World, e: Event, c: nat, id: string)
    requires StampsLead(w) && FreshAt(w, e) && !Disturbs(w, e) && !DisturbsCleanup(w, e)
    requires LockMatchesCalls(w) && Enabled(w, e) && e.Execute?
    requires var next := Next(w, e);
             && c in next.calls && id in next.store && next.calls[c].phase.Stamped?
             && Hits(next.calls[c].op, next.calls[c].phase.now, id, next.store[id])
    ensures Next(w, e).store[id].updatedAt <= Next(w, e).calls[c].phase.now
  {
    var op, now := w.calls[e.call].op, StampOf(w, e);
    assert c != e.call && w.calls[c] == Next(w, e).calls[c];
    assert w.lock.writer == Some(e.call) <==> !IsLifecycle(op);
    assert c in w.lock.readers <==> IsLifecycle(w.calls[c].op);
    assert w.lock.writer == Some(c) <==> !IsLifecycle(w.calls[c].op);
    assert IsLifecycle(op) && id in w.store;
    if Hits(w.calls[c].op, w.calls[c].phase.now, id, w.store[id]) {
      OthersAimElsewhere(w, e, c, id);
      assert Next(w, e).store[id] == w.store[id];
    } else {
      ClosedRowsStayClosed(op, now, w.store, id);
    }
  }

  /** A row that a cleanup passes over is one that it still passes over after any fresh lifecycle write. */
  lemma ClosedRowsStayClosed(op: Op, now: Time, store: Store, id: string)
    requires IsLifecycle(op) && Guard(op, store).None? && id in store
    ensures forall t :: Hits(Cleanup, t, id, Write(op, now, store)[id]) ==> Hits(Cleanup, t, id, store[id])
  {
  }

  lemma StatementKeepsStampsLeading(w: World, e: Event)
    requires StampsLead(w) && FreshAt(w, e) && !Disturbs(w, e) && !DisturbsCleanup(w, e)
    requires LockMatchesCalls(w)
    requires Enabled(w, e) && e.Execute?
    ensures StampsLead(Next(w, e))
  {
    var next, op, now := Next(w, e), w.calls[e.call].op, StampOf(w, e);
    assert SerialRuns.AllTimesAgree(next.store) && SerialRuns.UpdatedBy(next.store, next.clock) by {
      if Guard(op, w.store).None? {
        SerialRuns.GuardedWriteKeepsTimes(op, now, w.store);
      }
    }
    forall c, id | c in next.calls && id in next.store && next.calls[c].phase.Stamped?
                   && Hits(next.calls[c].op, next.calls[c].phase.now, id, next.store[id])
      ensures next.store[id].updatedAt <= next.calls[c].phase.now
    {
      StatementLeavesStampsAhead(w, e, c, id);
    }
  }

  lemma {:induction false} QuietRunsKeepTimes(run: seq<Event>)
    requires Undisturbed(run) && CleanupsUndisturbed(run)
    ensures StampsLead(After(run))
    ensures SerialRuns.AllTimesAgree(After(run).store)
  {
    if run != [] {
      var front, e := run[..|run| - 1], run[|run| - 1];
      var w := After(front);
      UndisturbedPrefix(run);
      forall k | 0 <= k < |front|
        ensures !DisturbsCleanup(After(front[..k]), front[k])
      {
        assert front[..k] == run[..k] && front[k] == run[k];
      }
      assert run[..|front|] == front;
      QuietRunsKeepTimes(front);
      UndisturbedIsFresh(run);
      FreshSnoc(run);
      LockInvariant(front);
      if Enabled(w, e) && e.Execute? {
        StatementKeepsStampsLeading(w, e);
      } else {
        OtherStepsKeepStampsLeading(w, e);
      }
    }
  }

  lemma OtherStepsKeepStampsLeading(w: World, e: Event)
    requires StampsLead(w) && !(Enabled(w, e) && e.Execute?)
    ensures StampsLead(Next(w, e))
  {
    if !Enabled(w, e) {
    } else if e.ExecuteGui? {
      GuiWriteKeepsStampsLeading(w, e);
    } else {
      assert Next(w, e).store == w.store;
    }
  }

  lemma GuiWriteKeepsStampsLeading(w: World, e: Event)
    requires StampsLead(w) && Enabled(w, e) && e.ExecuteGui?
    ensures StampsLead(Next(w, e))
  {
    var next := Next(w, e);
    assert next.store == Write(w.calls[e.call].op, e.dbNow, w.store);
    GuiWriteShowsInGuiOnly(w.calls[e.call].op, e.dbNow, w.store);
    forall c, id | c in next.calls && id in next.store && next.calls[c].phase.Stamped?
                   && Hits(next.calls[c].op, next.calls[c].phase.now, id, next.store[id])
      ensures next.store[id].updatedAt <= next.calls[c].phase.now
    {
      assert w.calls[c] == next.calls[c];
      assert Hits(w.calls[c].op, w.calls[c].phase.now, id, w.store[id]);
    }
  }

  lemma GuiWriteShowsInGuiOnly(op: Op, now: Time, store: Store)
    requires IsGui(op)
    ensures var next := Write(op, now, store);
            && next.Keys == store.Keys
            && (forall id <- store :: next[id] == store[id].(gui := next[id].gui))
            && (SerialRuns.AllTimesAgree(store) ==> SerialRuns.AllTimesAgree(next))
  {
    var next := Write(op, now, store);
    forall id | id in store
      ensures SerialRuns.TimesAgree(store[id]) ==> SerialRuns.TimesAgree(next[id])
    {
    }
  }
}
