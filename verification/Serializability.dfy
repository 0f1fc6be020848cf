/**
 * Exactly which overlapping runs have a serial order at all.
 *
 * `Reduction` settles commit order.  Here any order of the calls counts, and the answer for runs without
 * the bulk cleanup is the same; a cleanup can make a stale UPDATE harmless.
 */
module Serializability {
  import opened Common
  import opened ReadWriteLock
  import opened Sessions
  import opened Interleaving
  import opened Reduction
  import opened SerialRuns
  import Races

  /** Some order of the run's calls, with their timestamps, has their results and ends in the run's store. */
  ghost predicate Serializable(run: seq<Event>) {
    exists order: seq<Commit> :: SerialOrder(run, order)
  }

  ghost predicate SerialOrder(run: seq<Event>, order: seq<Commit>) {
    && multiset(order) == multiset(Log(run))
    && Outcomes(Steps(order), map[]) == Results(order)
    && Run(Steps(order), map[]) == After(run).store
  }

  // ---- What the log says about a session --------------------------------------------------

  /** The call succeeded in taking session `id` to state `s`. */
  predicate Took(c: Commit, id: string, s: State) {
    c.outcome == Ok && ReadsThenWrites(c.step.op) && c.step.op.id == id && Target(c.step.op) == s
  }

  /** No two successful calls of the log took one session to the same state. */
  ghost predicate OnceEach(log: seq<Commit>) {
    forall i, j, id, s :: 0 <= i < j < |log| && Took(log[i], id, s) ==> !Took(log[j], id, s)
  }

  /** Every session that a successful call disconnected is DISCONNECTED. */
  ghost predicate StaysClosed(log: seq<Commit>, store: Store) {
    forall i, id :: 0 <= i < |log| && Took(log[i], id, Disconnected) ==> id in store && store[id].state == Disconnected
  }

  /** A reader of the log and the final store can check this. */
  ghost predicate Consistent(log: seq<Commit>, store: Store) {
    OnceEach(log) && StaysClosed(log, store)
  }

  // ---- Serial runs are consistent ---------------------------------------------------------

  /** From a call that took a session somewhere on, its rank is at least that state's. */
  lemma {:induction false} RankStaysUp(steps: seq<Step>, p: nat)
    requires p < |steps| && ReadsThenWrites(steps[p].op) && Outcomes(steps, map[])[p] == Ok
    ensures var id := steps[p].op.id;
            id in Run(steps, map[]) && Rank(Run(steps, map[])[id].state) >= Rank(Target(steps[p].op))
  {
    var front, last := steps[..|steps| - 1], steps[|steps| - 1];
    if p < |front| {
      RankStaysUp(front, p);
      StepKeepsRank(last, Run(front, map[]), steps[p].op.id);
    }
  }

  lemma StepKeepsRank(s: Step, store: Store, id: string)
    requires id in store
    ensures id in Apply(s.op, s.now, store).0
    ensures Rank(store[id].state) <= Rank(Apply(s.op, s.now, store).0[id].state)
  {
    if IsLifecycle(s.op) && Guard(s.op, store).None? {
      SuccessRaisesRank(s.op, s.now, store, id);
    } else {
      assert Guard(s.op, store).None? ==> Apply(s.op, s.now, store).0[id].state == store[id].state;
    }
  }

  /** In a serial run, two successful calls on one session take it to different states, the later one higher. */
  lemma {:induction false} LaterGoesHigher(steps: seq<Step>, p: nat, q: nat)
    requires p < q < |steps| && ReadsThenWrites(steps[p].op) && ReadsThenWrites(steps[q].op)
    requires steps[p].op.id == steps[q].op.id
    requires Outcomes(steps, map[])[p] == Ok && Outcomes(steps, map[])[q] == Ok
    ensures Rank(Target(steps[p].op)) < Rank(Target(steps[q].op))
  {
    var front, last := steps[..|steps| - 1], steps[|steps| - 1];
    if q < |front| {
      LaterGoesHigher(front, p, q);
    } else {
      var before := Run(front, map[]);
      RankStaysUp(front, p);
      assert last == steps[q] && Guard(last.op, before).None?;
      SuccessRaisesRank(last.op, last.now, before, last.op.id);
      assert Apply(last.op, last.now, before).0[last.op.id].state == Target(last.op);
    }
  }

  lemma SerialIsConsistent(order: seq<Commit>)
    requires Outcomes(Steps(order), map[]) == Results(order)
    ensures Consistent(order, Run(Steps(order), map[]))
  {
    var steps := Steps(order);
    forall i, j, id, s | 0 <= i < j < |order| && Took(order[i], id, s)
      ensures !Took(order[j], id, s)
    {
      if Took(order[j], id, s) {
        assert Results(order)[i] == Ok && Results(order)[j] == Ok;
        LaterGoesHigher(steps, i, j);
      }
    }
    forall i, id | 0 <= i < |order| && Took(order[i], id, Disconnected)
      ensures id in Run(steps, map[]) && Run(steps, map[])[id].state == Disconnected
    {
      assert Results(order)[i] == Ok;
      RankStaysUp(steps, i);
    }
  }

  /** Neither clause looks at the order of the log, as long as its calls are all different. */
  lemma ConsistencyIgnoresOrder(order: seq<Commit>, log: seq<Commit>, store: Store)
    requires multiset(order) == multiset(log) && Consistent(order, store)
    requires forall i, j :: 0 <= i < j < |log| ==> log[i].call != log[j].call
    ensures Consistent(log, store)
  {
    forall c | c in log
      ensures c in order
    {
      assert c in multiset(log);
    }
    forall i, j, id, s | 0 <= i < j < |log| && Took(log[i], id, s)
      ensures !Took(log[j], id, s)
    {
      assert log[i] in order && log[j] in order;
      var p :| 0 <= p < |order| && order[p] == log[i];
      var q :| 0 <= q < |order| && order[q] == log[j];
      assert p != q;
    }
    forall i, id | 0 <= i < |log| && Took(log[i], id, Disconnected)
      ensures id in store && store[id].state == Disconnected
    {
      assert log[i] in order;
      var p :| 0 <= p < |order| && order[p] == log[i];
    }
  }

  // ---- Consistent runs are fresh ----------------------------------------------------------

  ghost predicate NoCleanup(run: seq<Event>) {
    forall e <- run :: e.Invoke? ==> !e.op.Cleanup?
  }

  lemma {:induction false} NoCleanupCalls(run: seq<Event>)
    requires NoCleanup(run)
    ensures forall c <- After(run).calls :: !After(run).calls[c].op.Cleanup?
  {
    if run != [] {
      var front := run[..|run| - 1];
      assert run == front + [run[|run| - 1]];
      NoCleanupCalls(front);
    }
  }

  ghost predicate TookIn(log: seq<Commit>, id: string, s: State) {
    exists i :: 0 <= i < |log| && Took(log[i], id, s)
  }

  lemma TookExtends(log: seq<Commit>, more: seq<Commit>, id: string, s: State)
    requires log <= more && TookIn(log, id, s)
    ensures TookIn(more, id, s)
  {
    var i :| 0 <= i < |log| && Took(log[i], id, s);
    assert Took(more[i], id, s);
  }

  /** One event: what it commits, and whether that explains a new state. */
  lemma StepExplains(w: World, e: Event, id: string)
    requires forall c <- w.calls :: !w.calls[c].op.Cleanup?
    requires id in Next(w, e).store && Next(w, e).store[id].state != Requested
    requires !(id in w.store && w.store[id].state == Next(w, e).store[id].state)
    ensures |NewCommit(w, e)| == 1 && Took(NewCommit(w, e)[0], id, Next(w, e).store[id].state)
  {
    assert Enabled(w, e) && (e.Execute? || e.ExecuteGui?);
    var op := w.calls[e.call].op;
    if ReadsThenWrites(op) {
      assert op.id == id && Next(w, e).store[id] == WriteRow(op, StampOf(w, e), w.store[id]);
    }
  }

  /** Without cleanups, some successful call took a session to the state it is in, unless that is REQUESTED. */
  lemma {:induction false} StatesAreExplained(run: seq<Event>, id: string)
    requires NoCleanup(run) && id in After(run).store && After(run).store[id].state != Requested
    ensures TookIn(Log(run), id, After(run).store[id].state)
  {
    if run != [] {
      var front, e := run[..|run| - 1], run[|run| - 1];
      assert run == front + [e];
      var w, s := After(front), After(run).store[id].state;
      if id in w.store && w.store[id].state == s {
        StatesAreExplained(front, id);
        TookExtends(Log(front), Log(run), id, s);
      } else {
        NoCleanupCalls(front);
        StepExplains(w, e, id);
        assert Took(Log(run)[|Log(front)|], id, s);
      }
    }
  }

  lemma ActiveWasExplained(run: seq<Event>, id: string)
    requires NoCleanup(run) && id in After(run).store && After(run).store[id].state == Active
    ensures TookIn(Log(run), id, Authorized)
  {
    ActiveHistory(run);
    var i :| 0 <= i < |run| && id in After(run[..i]).store && After(run[..i]).store[id].state == Authorized;
    forall e | e in run[..i]
      ensures e in run
    {
    }
    StatesAreExplained(run[..i], id);
    LogOnlyGrows(run, i);
    TookExtends(Log(run[..i]), Log(run), id, Authorized);
  }

  /** When a stale UPDATE runs, its target has been reached before, or the session is DISCONNECTED. */
  lemma StaleRepeatsOrReopens(run: seq<Event>, e: Event)
    requires NoCleanup(run) && !FreshAt(After(run), e)
    ensures
      var op := After(run).calls[e.call].op;
      || TookIn(Log(run), op.id, Target(op))
      || (Target(op) != Disconnected && TookIn(Log(run), op.id, Disconnected))
  {
    EveryStateIsSound(run);
    EveryWindowIsSound(run);
    var w := After(run);
    var op := w.calls[e.call].op;
    assert InWindow(w.calls[e.call]) && PendingSound(w.calls[e.call]) && RowSound(op.id, w.store[op.id]);
    assert w.store[op.id].state != Requested;
    StatesAreExplained(run, op.id);
    if w.store[op.id].state == Active {
      ActiveWasExplained(run, op.id);
    }
  }

  lemma StaleStepBreaksConsistency(run: seq<Event>, e: Event)
    requires NoCleanup(run) && !FreshAt(After(run), e)
    ensures !Consistent(Log(run) + NewCommit(After(run), e), Next(After(run), e).store)
  {
    StaleRepeatsOrReopens(run, e);
    EveryStateIsSound(run);
    EveryWindowIsSound(run);
    var w := After(run);
    var op, log := w.calls[e.call].op, Log(run) + NewCommit(w, e);
    assert InWindow(w.calls[e.call]);
    assert Took(log[|Log(run)|], op.id, Target(op));
    if TookIn(Log(run), op.id, Target(op)) {
      var i :| 0 <= i < |Log(run)| && Took(Log(run)[i], op.id, Target(op));
      assert Took(log[i], op.id, Target(op));
    } else {
      var i :| 0 <= i < |Log(run)| && Took(Log(run)[i], op.id, Disconnected);
      assert Took(log[i], op.id, Disconnected);
      assert Next(w, e).store[op.id].state == Target(op);
    }
  }

  /** What is inconsistent stays so: a later call that closes the session again repeats its target. */
  lemma ConsistentBefore(w: World, e: Event, log: seq<Commit>)
    requires Sound(w) && (forall c <- w.calls :: !w.calls[c].op.Cleanup?)
    requires forall i, id, s :: 0 <= i < |log| && Took(log[i], id, s) ==> id in w.store
    requires Consistent(log + NewCommit(w, e), Next(w, e).store)
    ensures Consistent(log, w.store)
  {
    var all, next := log + NewCommit(w, e), Next(w, e);
    forall i, j, id, s | 0 <= i < j < |log| && Took(log[i], id, s)
      ensures !Took(log[j], id, s)
    {
      assert all[i] == log[i] && all[j] == log[j];
    }
    forall i, id | 0 <= i < |log| && Took(log[i], id, Disconnected)
      ensures id in w.store && w.store[id].state == Disconnected
    {
      assert all[i] == log[i];
      assert next.store[id].state == Disconnected;
      forall k | 0 <= k < |NewCommit(w, e)|
        ensures !Took(NewCommit(w, e)[k], id, Disconnected)
      {
        assert all[|log| + k] == NewCommit(w, e)[k];
      }
      if w.store[id].state != Disconnected {
        StepExplains(w, e, id);
      }
    }
  }

  lemma {:induction false} LoggedSessionsExist(run: seq<Event>)
    ensures forall i, id, s :: 0 <= i < |Log(run)| && Took(Log(run)[i], id, s) ==> id in After(run).store
  {
    if run != [] {
      var front, e := run[..|run| - 1], run[|run| - 1];
      LoggedSessionsExist(front);
      EveryStateIsSound(front);
      EveryWindowIsSound(front);
      StepGrows(After(front), e);
      CommittedSessionExists(After(front), e);
    }
  }

  lemma CommittedSessionExists(w: World, e: Event)
    requires WindowsSound(w)
    ensures forall c <- NewCommit(w, e), id, s :: Took(c, id, s) ==> id in w.store
  {
    if Enabled(w, e) && e.Execute? && ReadsThenWrites(w.calls[e.call].op) {
      assert InWindow(w.calls[e.call]);
    }
  }

  lemma {:induction false} ConsistentIsFresh(run: seq<Event>)
    requires NoCleanup(run) && Consistent(Log(run), After(run).store)
    ensures Fresh(run)
  {
    if run != [] {
      var front, e := run[..|run| - 1], run[|run| - 1];
      assert run == front + [e];
      EveryStateIsSound(front);
      NoCleanupCalls(front);
      LoggedSessionsExist(front);
      ConsistentBefore(After(front), e, Log(front));
      ConsistentIsFresh(front);
      if !FreshAt(After(front), e) {
        StaleStepBreaksConsistency(front, e);
      }
      FreshSnoc(run);
    }
  }

  /**
   * For runs without a cleanup call, three things are one: some order of the calls is a serial run with
   * the same timestamps, results and store; every UPDATE was fresh; and, on the log and the final store
   * alone, no session was taken twice to one state and none that was disconnected is open.
   */
  lemma SerializableIffFresh(run: seq<Event>)
    requires NoCleanup(run)
    ensures Serializable(run) <==> Fresh(run)
    ensures Fresh(run) <==> Consistent(Log(run), After(run).store)
  {
    if Serializable(run) {
      var order :| SerialOrder(run, order);
      SerialIsConsistent(order);
      LogAccounts(run);
      ConsistencyIgnoresOrder(order, Log(run), After(run).store);
    }
    if Consistent(Log(run), After(run).store) {
      ConsistentIsFresh(run);
    }
    if Fresh(run) {
      ReplaysIffFresh(run);
      assert SerialOrder(run, Log(run));
      SerialIsConsistent(Log(run));
    }
  }

  // ---- A cleanup can hide a stale UPDATE --------------------------------------------------

  /** A disconnect has passed its SELECT and read the clock; a cleanup reads it too and writes first. */
  function BothReady(d: nat, c: nat, id: string, reason: string, t: Time): (r: seq<Event>)
    ensures |r| == 6
  {
    [Invoke(d, Disconnect(id, reason)), Invoke(c, Cleanup), RLock(d), RLock(c), Select(d), ReadClock(d, t)]
  }

  function CleanupFirst(d: nat, c: nat, t: Time): (r: seq<Event>)
    ensures |r| == 5
  {
    [ReadClock(c, t), Execute(c), Execute(d), Unlock(c), Unlock(d)]
  }

  /** Both calls have their lock, and the disconnect its stamp; nothing is committed yet. */
  ghost predicate Ready(w: World, d: nat, c: nat, id: string, reason: string, t: Time) {
    && d != c && d in w.calls && w.calls[d] == Call(Disconnect(id, reason), Stamped(t))
    && c in w.calls && w.calls[c] == Call(Cleanup, Holding) && w.clock == t
    && id in w.store && w.store[id].state != Disconnected && w.store[id].certExpiresAt < t
  }

  lemma BecomesReady(w: World, d: nat, c: nat, id: string, reason: string, t: Time)
    requires w.lock == UNLOCKED && d !in w.calls && c !in w.calls && d != c && w.clock <= t
    requires id in w.store && w.store[id].state != Disconnected && w.store[id].certExpiresAt < t
    ensures var end := Races.Drive(w, BothReady(d, c, id, reason, t));
            Ready(end, d, c, id, reason, t) && end.store == w.store
    ensures Races.Commits(w, BothReady(d, c, id, reason, t)) == []
  {
    var s, x := BothReady(d, c, id, reason, t), Disconnect(id, reason);
    assert s == [s[0], s[1], s[2]] + ([s[3], s[4], s[5]] + []);
    Races.DriveThree(w, s[0], s[1], s[2], [s[3], s[4], s[5]] + []);
    Races.DriveThree(Races.Three(w, s[0], s[1], s[2]), s[3], s[4], s[5], []);
    Races.BothHold(w, d, c, x, Cleanup);
    var w4 := w.(calls := w.calls[d := Call(x, Holding)][c := Call(Cleanup, Holding)], lock := RWMutex({d, c}, None));
    assert NewCommit(w4, Select(d)) == [];
    var w5 := Next(w4, Select(d));
    assert w5 == w4.(calls := w.calls[d := Call(x, Checked)][c := Call(Cleanup, Holding)]);
    ReadsItsClock(w5, d, t);
  }

  lemma ReadsItsClock(w: World, d: nat, t: Time)
    requires d in w.calls && w.calls[d].phase == Checked && w.clock <= t
    ensures Next(w, ReadClock(d, t)) == w.(calls := w.calls[d := w.calls[d].(phase := Stamped(t))], clock := t)
    ensures NewCommit(w, ReadClock(d, t)) == []
  {
  }

  lemma CleanupWrites(w: World, c: nat, t: Time)
    requires c in w.calls && w.calls[c] == Call(Cleanup, Holding) && w.clock == t
    ensures
      var w1 := Next(w, ReadClock(c, t));
      && Next(w1, Execute(c)) == w.(calls := w.calls[c := Call(Cleanup, Done(Ok))], store := Write(Cleanup, t, w.store))
      && NewCommit(w, ReadClock(c, t)) == []
      && NewCommit(w1, Execute(c)) == [Commit(c, Step(Cleanup, t), Ok)]
  {
    assert Next(w, ReadClock(c, t)) == w.(calls := w.calls[c := Call(Cleanup, Stamped(t))]);
  }

  lemma DisconnectWrites(w: World, d: nat, x: Op, t: Time)
    requires d in w.calls && w.calls[d] == Call(x, Stamped(t)) && x.Disconnect?
    ensures Next(w, Execute(d)).store == Write(x, t, w.store)
    ensures NewCommit(w, Execute(d)) == [Commit(d, Step(x, t), Ok)]
  {
  }

  lemma UnlocksQuietly(w: World, c: nat)
    ensures Next(w, Unlock(c)).store == w.store && NewCommit(w, Unlock(c)) == []
  {
  }

  lemma CleanupThenDisconnect(w: World, d: nat, c: nat, id: string, reason: string, t: Time)
    requires Ready(w, d, c, id, reason, t)
    ensures
      var s := CleanupFirst(d, c, t);
      var x := Disconnect(id, reason);
      && Races.Drive(w, s).store == Write(x, t, Write(Cleanup, t, w.store))
      && Races.Commits(w, s) == [Commit(c, Step(Cleanup, t), Ok), Commit(d, Step(x, t), Ok)]
  {
    var s, x := CleanupFirst(d, c, t), Disconnect(id, reason);
    CleanupWrites(w, c, t);
    var w2 := Next(Next(w, s[0]), s[1]);
    DisconnectWrites(w2, d, x, t);
    var w3 := Next(w2, s[2]);
    UnlocksQuietly(w3, c);
    UnlocksQuietly(Next(w3, s[3]), d);
    assert s == [s[0], s[1], s[2]] + ([s[3], s[4]] + []);
    Races.DriveTwo(w3, s[3], s[4], []);
    Races.DriveThree(w, s[0], s[1], s[2], [s[3], s[4]] + []);
  }

  lemma SweepAndDisconnectCommute(id: string, reason: string, t: Time, store: Store)
    requires id in store && store[id].state != Disconnected
    ensures Write(Disconnect(id, reason), t, Write(Cleanup, t, store))
            == Write(Cleanup, t, Write(Disconnect(id, reason), t, store))
  {
    var x := Disconnect(id, reason);
    var a, b := Write(x, t, Write(Cleanup, t, store)), Write(Cleanup, t, Write(x, t, store));
    forall k | k in store
      ensures a[k] == b[k]
    {
    }
  }

  /** A leg that commits nothing leaves the log as it was. */
  lemma QuietLeg(run: seq<Event>, a: seq<Event>, mid: seq<Event>)
    requires mid == run + a && Races.Commits(After(run), a) == []
    ensures Log(mid) == Log(run)
  {
    Races.RunThenDrive(run, a, mid);
  }

  /** What the raced run commits, and where it ends. */
  lemma CleanupWins(run: seq<Event>, d: nat, c: nat, id: string, reason: string, t: Time,
                    ready: seq<Event>, raced: seq<Event>)
    requires ready == run + BothReady(d, c, id, reason, t) && raced == ready + CleanupFirst(d, c, t)
    requires var w := After(run); w.lock == UNLOCKED && d !in w.calls && c !in w.calls && d != c && w.clock <= t
    requires var w := After(run);
             id in w.store && w.store[id].state != Disconnected && w.store[id].certExpiresAt < t
    ensures
      var x := Disconnect(id, reason);
      && After(raced).store == Write(x, t, Write(Cleanup, t, After(run).store))
      && Log(raced) == Log(run) + [Commit(c, Step(Cleanup, t), Ok), Commit(d, Step(x, t), Ok)]
  {
    BecomesReady(After(run), d, c, id, reason, t);
    QuietLeg(run, BothReady(d, c, id, reason, t), ready);
    Races.RunThenDrive(run, BothReady(d, c, id, reason, t), ready);
    Races.RunThenDrive(ready, CleanupFirst(d, c, t), raced);
    CleanupThenDisconnect(After(ready), d, c, id, reason, t);
  }

  lemma SwapKeepsCalls(log: seq<Commit>, a: Commit, b: Commit)
    ensures multiset(log + [b] + [a]) == multiset(log + [a, b])
  {
    assert log + [b] + [a] == log + [b, a];
    assert multiset([b, a]) == multiset{a, b} == multiset([a, b]);
  }

  lemma SwapReplays(log: seq<Commit>, sweep: Commit, disconnect: Commit, store: Store)
    requires sweep.outcome == Ok && disconnect.outcome == Ok
    requires sweep.step.op == Cleanup && disconnect.step.op.Disconnect? && sweep.step.now == disconnect.step.now
    requires Run(Steps(log), map[]) == store && Outcomes(Steps(log), map[]) == Results(log)
    requires disconnect.step.op.id in store && store[disconnect.step.op.id].state != Disconnected
    ensures
      var order := log + [disconnect] + [sweep];
      && Outcomes(Steps(order), map[]) == Results(order)
      && Run(Steps(order), map[])
         == Write(disconnect.step.op, disconnect.step.now, Write(Cleanup, sweep.step.now, store))
  {
    LogSnoc(log, disconnect);
    LogSnoc(log + [disconnect], sweep);
    RunSnoc(Steps(log), disconnect.step, map[]);
    RunSnoc(Steps(log) + [disconnect.step], sweep.step, map[]);
    SweepAndDisconnectCommute(disconnect.step.op.id, disconnect.step.op.reason, sweep.step.now, store);
  }

  lemma LastIsRejected(front: seq<Commit>, last: Commit)
    requires last.outcome == Ok && Guard(last.step.op, Run(Steps(front), map[])).Some?
    ensures Outcomes(Steps(front + [last]), map[]) != Results(front + [last])
  {
    LogSnoc(front, last);
    RunSnoc(Steps(front), last.step, map[]);
    assert Outcomes(Steps(front + [last]), map[])[|front|] != Results(front + [last])[|front|];
  }

  /** In commit order the disconnect would find the session closed. */
  lemma SecondIsRejected(log: seq<Commit>, sweep: Commit, disconnect: Commit)
    requires disconnect.outcome == Ok && sweep.step.op == Cleanup && disconnect.step.op.Disconnect?
    requires var store, id := Run(Steps(log), map[]), disconnect.step.op.id;
             id in store && Hits(Cleanup, sweep.step.now, id, store[id])
    ensures Outcomes(Steps(log + [sweep, disconnect]), map[]) != Results(log + [sweep, disconnect])
  {
    LogSnoc(log, sweep);
    RunSnoc(Steps(log), sweep.step, map[]);
    LastIsRejected(log + [sweep], disconnect);
    assert log + [sweep, disconnect] == log + [sweep] + [disconnect];
  }

  lemma SwapTheLastTwo(raced: seq<Event>, log: seq<Commit>, sweep: Commit, disconnect: Commit, store: Store)
    requires Log(raced) == log + [sweep, disconnect]
    requires sweep.outcome == Ok && disconnect.outcome == Ok
    requires sweep.step.op == Cleanup && disconnect.step.op.Disconnect? && sweep.step.now == disconnect.step.now
    requires Run(Steps(log), map[]) == store && Outcomes(Steps(log), map[]) == Results(log)
    requires disconnect.step.op.id in store && store[disconnect.step.op.id].state != Disconnected
    requires After(raced).store
             == Write(disconnect.step.op, disconnect.step.now, Write(Cleanup, sweep.step.now, store))
    ensures Serializable(raced)
  {
    var order := log + [disconnect] + [sweep];
    SwapReplays(log, sweep, disconnect, store);
    SwapKeepsCalls(log, sweep, disconnect);
    assert SerialOrder(raced, order);
  }

  /**
   * With a cleanup around, a run can be serial in another order although an UPDATE was stale: the cleanup
   * closes an expired session between a disconnect's SELECT and its UPDATE, both with one reading, and the
   * result is that of the disconnect followed by the cleanup.
   */
  lemma StaleButSerial(run: seq<Event>, d: nat, c: nat, id: string, reason: string, t: Time)
    requires Fresh(run)
    requires var w := After(run); w.lock == UNLOCKED && d !in w.calls && c !in w.calls && d != c && w.clock <= t
    requires var w := After(run);
             id in w.store && w.store[id].state != Disconnected && w.store[id].certExpiresAt < t
    ensures var raced := run + BothReady(d, c, id, reason, t) + CleanupFirst(d, c, t);
            !Fresh(raced) && Serializable(raced)
  {
    var ready := run + BothReady(d, c, id, reason, t);
    var raced := ready + CleanupFirst(d, c, t);
    var sweep, disconnect := Commit(c, Step(Cleanup, t), Ok), Commit(d, Step(Disconnect(id, reason), t), Ok);
    CleanupWins(run, d, c, id, reason, t, ready, raced);
    ReplaysIffFresh(run);
    SecondIsRejected(Log(run), sweep, disconnect);
    ReplaysIffFresh(raced);
    SwapTheLastTwo(raced, Log(run), sweep, disconnect, After(run).store);
  }

  /** Such a run exists. */
  lemma StaleButSerialHappens() returns (run: seq<Event>)
    ensures !Fresh(run) && Serializable(run)
  {
    var before := Races.OneAuthorizedSession();
    UndisturbedIsFresh(before);
    StaleButSerial(before, 2, 3, "s", "bye", 101);
    run := before + BothReady(2, 3, "s", "bye", 101) + CleanupFirst(2, 3, 101);
  }
}
