/**
 * When the timestamps of overlapping calls stay in order.
 *
 * A call reads the clock before its statement runs, so a MarkConnected with a later reading can write
 * first.  For fresh runs that is the only thing that goes wrong.
 */
module OverlapTimes {
  import opened Common
  import opened ReadWriteLock
  import opened Sessions
  import opened Interleaving
  import opened Reduction
  import opened SerialRuns
  import Races

  /** The statement about to run closes a session that was connected after this call read the clock. */
  ghost predicate Overtaken(w: World, e: Event) {
    && Enabled(w, e) && e.Execute? && IsLifecycle(w.calls[e.call].op)
    && exists id <- HitSet(w.calls[e.call].op, StampOf(w, e), w.store) :: ConnectedAfter(w.store[id], StampOf(w, e))
  }

  predicate ConnectedAfter(row: Session, now: Time) {
    row.connectedAt.Some? && now < row.connectedAt.value
  }

  ghost predicate NoneOvertaken(run: seq<Event>) {
    forall k :: 0 <= k < |run| ==> !Overtaken(After(run[..k]), run[k])
  }

  lemma NoneOvertakenSnoc(run: seq<Event>)
    requires run != []
    ensures NoneOvertaken(run)
            <==> NoneOvertaken(run[..|run| - 1]) && !Overtaken(After(run[..|run| - 1]), run[|run| - 1])
  {
    var front := run[..|run| - 1];
    forall k | 0 <= k < |front|
      ensures front[..k] == run[..k]
    {
    }
  }

  // ---- Nothing is stamped before its session was created ----------------------------------

  /** No lifecycle call that has read the clock read a time before some session's creation. */
  ghost predicate StampsFollowCreation(w: World) {
    && (forall id <- w.store :: w.store[id].createdAt <= w.clock)
    && (forall c <- w.calls :: w.calls[c].phase.Stamped? ==> w.calls[c].phase.now <= w.clock)
    && (forall c <- w.calls, id <- w.store :: w.calls[c].phase.Stamped? && IsLifecycle(w.calls[c].op) ==>
          w.store[id].createdAt <= w.calls[c].phase.now)
  }

  lemma CreationStep(w: World, e: Event)
    requires StampsFollowCreation(w) && LockMatchesCalls(w)
    ensures StampsFollowCreation(Next(w, e))
  {
    if Enabled(w, e) && (e.Execute? || e.ExecuteGui?) {
      StatementKeepsCreation(w, e);
    } else {
      assert Next(w, e).store == w.store;
    }
  }

  lemma StatementKeepsCreation(w: World, e: Event)
    requires StampsFollowCreation(w) && LockMatchesCalls(w) && Enabled(w, e) && (e.Execute? || e.ExecuteGui?)
    ensures StampsFollowCreation(Next(w, e))
  {
    var op, next := w.calls[e.call].op, Next(w, e);
    assert !IsLifecycle(op) ==> w.lock.writer == Some(e.call);
    forall c | c in w.calls && c != e.call && w.calls[c].phase.Stamped? && IsLifecycle(w.calls[c].op)
      ensures !op.Create?
    {
      assert c in w.lock.readers;
    }
    forall id | id in w.store
      ensures id in next.store && next.store[id].createdAt == w.store[id].createdAt
    {
    }
  }

  lemma {:induction false} NoStampBeforeCreation(run: seq<Event>)
    ensures StampsFollowCreation(After(run))
  {
    if run != [] {
      var front := run[..|run| - 1];
      NoStampBeforeCreation(front);
      LockInvariant(front);
      CreationStep(After(front), run[|run| - 1]);
    }
  }

  // ---- The exact condition ----------------------------------------------------------------

  lemma OnTimeStepKeepsTimes(w: World, e: Event)
    requires AllTimesAgree(w.store) && StampsFollowCreation(w) && FreshAt(w, e) && !Overtaken(w, e)
    ensures AllTimesAgree(Next(w, e).store)
  {
    if Enabled(w, e) && (e.Execute? || e.ExecuteGui?) {
      var op, now, next := w.calls[e.call].op, StampOf(w, e), Next(w, e).store;
      forall id | id in next
        ensures TimesAgree(next[id])
      {
        if id in w.store {
          assert TimesAgree(w.store[id]);
          if IsLifecycle(op) && Hits(op, now, id, w.store[id]) {
            assert id in HitSet(op, now, w.store);
            OnTimeWriteKeepsTimes(op, now, w.store, id);
          }
        }
      }
    }
  }

  lemma OnTimeWriteKeepsTimes(op: Op, now: Time, store: Store, id: string)
    requires IsLifecycle(op) && Guard(op, store).None? && id in HitSet(op, now, store)
    requires TimesAgree(store[id]) && store[id].createdAt <= now
    ensures TimesAgree(WriteRow(op, now, store[id])) <==> !ConnectedAfter(store[id], now)
    ensures ConnectedAfter(store[id], now) ==> WriteRow(op, now, store[id]).state == Disconnected
  {
  }

  /** The session is DISCONNECTED and was updated before it was connected. */
  predicate ClosedTooEarly(row: Session) {
    row.state == Disconnected && ConnectedAfter(row, row.updatedAt)
  }

  ghost predicate SomeClosedTooEarly(store: Store) {
    exists id <- store :: ClosedTooEarly(store[id])
  }

  lemma OvertakenClosesTooEarly(w: World, e: Event)
    requires AllTimesAgree(w.store) && StampsFollowCreation(w) && FreshAt(w, e) && Overtaken(w, e)
    ensures SomeClosedTooEarly(Next(w, e).store)
  {
    var op, now := w.calls[e.call].op, StampOf(w, e);
    var id :| id in HitSet(op, now, w.store) && ConnectedAfter(w.store[id], now);
    OnTimeWriteKeepsTimes(op, now, w.store, id);
    assert Next(w, e).store[id] == WriteRow(op, now, w.store[id]);
    assert ClosedTooEarly(Next(w, e).store[id]);
  }

  /** No fresh statement repairs such a session. */
  lemma ClosedStaysAsItIs(w: World, e: Event)
    requires FreshAt(w, e) && SomeClosedTooEarly(w.store)
    ensures SomeClosedTooEarly(Next(w, e).store)
  {
    var id :| id in w.store && ClosedTooEarly(w.store[id]);
    var next := Next(w, e).store;
    assert id in next && next[id] == w.store[id].(gui := next[id].gui);
    assert ClosedTooEarly(next[id]);
  }

  lemma {:induction false} OvertakingShows(run: seq<Event>)
    requires Fresh(run)
    ensures NoneOvertaken(run) ==> AllTimesAgree(After(run).store)
    ensures !NoneOvertaken(run) ==> SomeClosedTooEarly(After(run).store)
  {
    if run != [] {
      var front, e := run[..|run| - 1], run[|run| - 1];
      FreshSnoc(run);
      NoneOvertakenSnoc(run);
      OvertakingShows(front);
      NoStampBeforeCreation(front);
      if !NoneOvertaken(front) {
        ClosedStaysAsItIs(After(front), e);
      } else if Overtaken(After(front), e) {
        OvertakenClosesTooEarly(After(front), e);
      } else {
        OnTimeStepKeepsTimes(After(front), e);
      }
    }
  }

  /**
   * In a run whose UPDATEs are fresh, the serial timestamp relations hold at the end if and only if no call
   * closed a session that was connected after the call had read the clock; and otherwise some session shows
   * a disconnect or update time before its connect time.
   */
  lemma TimesAgreeIffNoneOvertaken(run: seq<Event>)
    requires Fresh(run)
    ensures AllTimesAgree(After(run).store) <==> NoneOvertaken(run)
    ensures SomeClosedTooEarly(After(run).store) <==> !NoneOvertaken(run)
  {
    OvertakingShows(run);
  }

  /** Undisturbed windows, those of cleanups included, are one way to meet the condition. */
  lemma QuietRunsAreNotOvertaken(run: seq<Event>)
    requires Undisturbed(run) && CleanupsUndisturbed(run)
    ensures NoneOvertaken(run)
  {
    QuietRunsKeepTimes(run);
    UndisturbedIsFresh(run);
    TimesAgreeIffNoneOvertaken(run);
  }

  // ---- Undisturbed SELECT windows are not enough ------------------------------------------

  /** A cleanup reads the clock, and a mark-connected has passed its SELECT. */
  function CleanupReads(c: nat, m: nat, id: string, t: Time): (r: seq<Event>)
    ensures |r| == 6
  {
    [Invoke(c, Cleanup), Invoke(m, MarkConnected(id)), RLock(c), RLock(m), ReadClock(c, t), Select(m)]
  }

  /** The mark-connected reads a later time and writes; then the cleanup writes. */
  function MarkFirst(c: nat, m: nat, t: Time): (r: seq<Event>)
    ensures |r| == 5
  {
    [ReadClock(m, t), Execute(m), Execute(c), Unlock(m), Unlock(c)]
  }

  lemma CleanupHasRead(w: World, c: nat, m: nat, id: string, t: Time)
    requires w.lock == UNLOCKED && c !in w.calls && m !in w.calls && c != m && w.clock <= t
    requires id in w.store && w.store[id].state == Authorized
    ensures
      var end := Races.Drive(w, CleanupReads(c, m, id, t));
      && end.store == w.store && end.clock == t
      && end.calls == w.calls[c := Call(Cleanup, Stamped(t))][m := Call(MarkConnected(id), Checked)]
  {
    var s, x := CleanupReads(c, m, id, t), MarkConnected(id);
    assert s == [s[0], s[1], s[2]] + ([s[3], s[4], s[5]] + []);
    Races.DriveThree(w, s[0], s[1], s[2], [s[3], s[4], s[5]] + []);
    Races.DriveThree(Races.Three(w, s[0], s[1], s[2]), s[3], s[4], s[5], []);
    Races.BothHold(w, c, m, Cleanup, x);
    var w4 := w.(calls := w.calls[c := Call(Cleanup, Holding)][m := Call(x, Holding)], lock := RWMutex({c, m}, None));
    var w5 := Next(w4, s[4]);
    assert w5 == w4.(calls := w.calls[c := Call(Cleanup, Stamped(t))][m := Call(x, Holding)], clock := t);
    assert Next(w5, s[5]).calls == w.calls[c := Call(Cleanup, Stamped(t))][m := Call(x, Checked)];
  }

  /** Only statements disturb. */
  lemma {:induction false} NoExecuteIsQuiet(w: World, events: seq<Event>)
    requires forall e <- events :: !e.Execute?
    ensures Races.AllQuiet(w, events)
    decreases |events|
  {
    if events != [] {
      assert events[0] in events && forall e <- events[1..] :: e in events;
      NoExecuteIsQuiet(Next(w, events[0]), events[1..]);
    }
  }

  lemma MarkReadsAndWrites(w: World, m: nat, id: string, t: Time)
    requires m in w.calls && w.calls[m] == Call(MarkConnected(id), Checked) && w.clock <= t && id in w.store
    ensures Next(w, ReadClock(m, t)).calls == w.calls[m := Call(MarkConnected(id), Stamped(t))]
    ensures
      var w2 := Next(Next(w, ReadClock(m, t)), Execute(m));
      && w2.calls == w.calls[m := Call(MarkConnected(id), Done(Ok))]
      && id in w2.store && w2.store[id] == WriteRow(MarkConnected(id), t, w.store[id])
  {
    assert Next(w, ReadClock(m, t)).calls[m].phase == Stamped(t);
  }

  lemma NoOtherWindowIsQuiet(w: World, e: Event)
    requires forall c <- w.calls :: c != e.call ==> !InWindow(w.calls[c])
    ensures !Disturbs(w, e)
  {
  }

  lemma CleanupCloses(w: World, c: nat, id: string, t: Time)
    requires c in w.calls && w.calls[c] == Call(Cleanup, Stamped(t))
    requires id in w.store && w.store[id].state != Disconnected && w.store[id].certExpiresAt < t
    ensures
      var next := Next(w, Execute(c)).store;
      id in next && next[id] == Closed(w.store[id], "cert_expired", t)
  {
  }

  /** The three events that matter: what they leave of the session, and that none disturbs a window. */
  lemma MarkWritesThenCleanup(w: World, c: nat, m: nat, id: string, t1: Time, t2: Time)
    requires c != m && c in w.calls && m in w.calls && w.clock <= t2
    requires w.calls[c] == Call(Cleanup, Stamped(t1)) && w.calls[m] == Call(MarkConnected(id), Checked)
    requires forall other <- w.calls :: other != m ==> !InWindow(w.calls[other])
    requires id in w.store && w.store[id].state == Authorized && w.store[id].certExpiresAt < t1
    ensures
      var w1 := Next(w, ReadClock(m, t2));
      var w2 := Next(w1, Execute(m));
      var end := Next(w2, Execute(c)).store;
      && !Disturbs(w, ReadClock(m, t2)) && !Disturbs(w1, Execute(m)) && !Disturbs(w2, Execute(c))
      && id in end && end[id] == Closed(WriteRow(MarkConnected(id), t2, w.store[id]), "cert_expired", t1)
  {
    MarkReadsAndWrites(w, m, id, t2);
    var w1 := Next(w, ReadClock(m, t2));
    var w2 := Next(w1, Execute(m));
    NoOtherWindowIsQuiet(w1, Execute(m));
    NoOtherWindowIsQuiet(w2, Execute(c));
    CleanupCloses(w2, c, id, t1);
  }

  lemma UnlocksChangeNoRow(w: World, a: nat, b: nat)
    ensures Races.Drive(w, [Unlock(a), Unlock(b)] + []).store == w.store
    ensures Races.AllQuiet(w, [Unlock(a), Unlock(b)] + [])
  {
    Races.DriveTwo(w, Unlock(a), Unlock(b), []);
    NoExecuteIsQuiet(w, [Unlock(a), Unlock(b)] + []);
  }

  lemma MarkThenCleanup(w: World, c: nat, m: nat, id: string, t1: Time, t2: Time)
    requires c != m && c in w.calls && m in w.calls && w.clock <= t2
    requires w.calls[c] == Call(Cleanup, Stamped(t1)) && w.calls[m] == Call(MarkConnected(id), Checked)
    requires forall other <- w.calls :: other != m ==> !InWindow(w.calls[other])
    requires id in w.store && w.store[id].state == Authorized && w.store[id].certExpiresAt < t1
    ensures
      var end := Races.Drive(w, MarkFirst(c, m, t2)).store;
      id in end && end[id] == Closed(WriteRow(MarkConnected(id), t2, w.store[id]), "cert_expired", t1)
    ensures Races.AllQuiet(w, MarkFirst(c, m, t2))
  {
    var x, y, z := ReadClock(m, t2), Execute(m), Execute(c);
    var unlocks := [Unlock(m), Unlock(c)] + [];
    MarkWritesThenCleanup(w, c, m, id, t1, t2);
    UnlocksChangeNoRow(Races.Three(w, x, y, z), m, c);
    Races.DriveThree(w, x, y, z, unlocks);
    Races.QuietThree(w, x, y, z, unlocks);
    assert MarkFirst(c, m, t2) == [x, y, z] + unlocks;
  }

  lemma DisorderMeansDisturbed(run: seq<Event>)
    requires Undisturbed(run) && !AllTimesAgree(After(run).store)
    ensures !CleanupsUndisturbed(run)
  {
    if CleanupsUndisturbed(run) {
      QuietRunsKeepTimes(run);
    }
  }

  lemma CleanupRunsLast(run: seq<Event>, c: nat, m: nat, id: string, t1: Time, t2: Time,
                        ready: seq<Event>, raced: seq<Event>)
    requires ready == run + CleanupReads(c, m, id, t1) && raced == ready + MarkFirst(c, m, t2)
    requires var w := After(run); w.lock == UNLOCKED && c !in w.calls && m !in w.calls && c != m
    requires var w := After(run); id in w.store && w.store[id].state == Authorized
    requires var w := After(run); w.store[id].certExpiresAt < t1 && w.clock <= t1 < t2
    ensures Races.AllQuiet(After(ready), MarkFirst(c, m, t2))
    ensures
      var store := After(raced).store;
      && id in store && store[id].state == Disconnected
      && store[id].disconnectedAt == Some(t1) && store[id].connectedAt == Some(t2)
  {
    Races.FreeLockNoWindows(run);
    CleanupHasRead(After(run), c, m, id, t1);
    Races.RunThenDrive(run, CleanupReads(c, m, id, t1), ready);
    MarkThenCleanup(After(ready), c, m, id, t1, t2);
    Races.RunThenDrive(ready, MarkFirst(c, m, t2), raced);
  }

  lemma CleanupRunsQuietly(run: seq<Event>, c: nat, m: nat, id: string, t1: Time, t2: Time,
                           ready: seq<Event>, raced: seq<Event>)
    requires ready == run + CleanupReads(c, m, id, t1) && raced == ready + MarkFirst(c, m, t2)
    requires Undisturbed(run) && Races.AllQuiet(After(ready), MarkFirst(c, m, t2))
    ensures Undisturbed(raced)
  {
    NoExecuteIsQuiet(After(run), CleanupReads(c, m, id, t1));
    Races.QuietThenDrive(run, CleanupReads(c, m, id, t1), ready);
    Races.QuietThenDrive(ready, MarkFirst(c, m, t2), raced);
  }

  /**
   * From any undisturbed run with the lock free and an AUTHORIZED session whose certificate has expired, a
   * cleanup that reads t1 and a mark-connected that reads a later t2 but writes first leave the session
   * DISCONNECTED at t1 and connected at t2, and no call's SELECT window was disturbed.
   */
  lemma CleanupCanBeOvertaken(run: seq<Event>, c: nat, m: nat, id: string, t1: Time, t2: Time)
    requires Undisturbed(run)
    requires var w := After(run); w.lock == UNLOCKED && c !in w.calls && m !in w.calls && c != m
    requires var w := After(run); id in w.store && w.store[id].state == Authorized
    requires var w := After(run); w.store[id].certExpiresAt < t1 && w.clock <= t1 < t2
    ensures
      var raced := run + CleanupReads(c, m, id, t1) + MarkFirst(c, m, t2);
      var store := After(raced).store;
      && Undisturbed(raced) && !CleanupsUndisturbed(raced)
      && id in store && store[id].state == Disconnected
      && store[id].disconnectedAt == Some(t1) && store[id].connectedAt == Some(t2)
  {
    var ready := run + CleanupReads(c, m, id, t1);
    var raced := ready + MarkFirst(c, m, t2);
    CleanupRunsLast(run, c, m, id, t1, t2, ready, raced);
    CleanupRunsQuietly(run, c, m, id, t1, t2, ready, raced);
    LateConnectDisagrees(After(raced).store, id);
    DisorderMeansDisturbed(raced);
  }

  lemma LateConnectDisagrees(store: Store, id: string)
    requires id in store && store[id].connectedAt.Some? && store[id].disconnectedAt.Some?
    requires store[id].disconnectedAt.value < store[id].connectedAt.value
    ensures !AllTimesAgree(store)
  {
    assert !TimesAgree(store[id]);
  }

  /** Such a run exists. */
  lemma CleanupIsOvertaken() returns (run: seq<Event>)
    ensures Undisturbed(run) && !CleanupsUndisturbed(run) && !AllTimesAgree(After(run).store)
  {
    var before := Races.OneAuthorizedSession();
    CleanupCanBeOvertaken(before, 2, 3, "s", 101, 102);
    run := before + CleanupReads(2, 3, "s", 101) + MarkFirst(2, 3, 102);
    LateConnectDisagrees(After(run).store, "s");
  }
}
