/**
 * The session service under concurrent callers: lock acquisition, SELECT, clock reading, UPDATE and
 * unlock are separate steps of each call, and the steps of different calls interleave freely as far
 * as the RWMutex lets them.
 *
 * A run is any sequence of events; an event that its caller is not ready for changes nothing, so a
 * statement about every sequence is a statement about every reachable state.
 */
module Interleaving {
  import opened Common
  import opened ReadWriteLock
  import opened Sessions

  datatype Phase =
    | Waiting                  // invoked, no lock yet
    | Holding                  // has its lock
    | Checked                  // its SELECT let it go on
    | Stamped(now: Time)       // has read the clock; its statement is next
    | Done(outcome: Outcome)   // finished, lock still held
    | Returned(outcome: Outcome)

  datatype Call = Call(op: Op, phase: Phase)

  datatype World = World(store: Store, calls: map<nat, Call>, lock: RWMutex, clock: Time, dbClock: Time)

  const INITIAL := World(map[], map[], UNLOCKED, 0, 0)

  datatype Event =
    | Invoke(call: nat, op: Op)
    | RLock(call: nat)
    | Lock(call: nat)
    | Select(call: nat)                    // with the check of the requested state that comes just before it
    | ReadClock(call: nat, now: Time)
    | Execute(call: nat)
    | ExecuteGui(call: nat, dbNow: Time)   // the database reads NOW() inside the statement
    | Unlock(call: nat)

  predicate Enabled(w: World, e: Event) {
    if e.Invoke? then e.call !in w.calls
    else
      && e.call in w.calls
      && var Call(op, phase) := w.calls[e.call];
         match e
         case RLock(_) => phase == Waiting && IsLifecycle(op) && MayRLock(w.lock)
         case Lock(_) => phase == Waiting && !IsLifecycle(op) && MayLock(w.lock)
         case Select(_) => phase == Holding && ReadsThenWrites(op)
         case ReadClock(_, now) =>
           w.clock <= now && (phase == Checked || (phase == Holding && (op.Create? || op.Cleanup?)))
         case Execute(_) => phase.Stamped?
         case ExecuteGui(_, dbNow) => phase == Holding && IsGui(op) && w.dbClock <= dbNow
         case Unlock(_) => phase.Done?
         case Invoke(_, _) => true
  }

  /** The INSERT or UPDATE on its own: only the INSERT still checks anything, namely the primary key. */
  function Statement(op: Op, now: Time, store: Store): (Store, Outcome) {
    if op.Create? then Apply(op, now, store) else (Write(op, now, store), Ok)
  }

  function Become(w: World, c: nat, phase: Phase): World
    requires c in w.calls
  {
    w.(calls := w.calls[c := w.calls[c].(phase := phase)])
  }

  function Next(w: World, e: Event): World {
    if !Enabled(w, e) then w
    else
      match e
      case Invoke(c, op) => w.(calls := w.calls[c := Call(op, Waiting)])
      case RLock(c) => Become(w, c, Holding).(lock := RLocked(w.lock, c))
      case Lock(c) => Become(w, c, Holding).(lock := Locked(w.lock, c))
      case Select(c) =>
        (match Guard(w.calls[c].op, w.store)
         case Some(error) => Become(w, c, Done(Fail(error)))
         case None => Become(w, c, Checked))
      case ReadClock(c, now) => Become(w, c, Stamped(now)).(clock := now)
      case Execute(c) =>
        var (store, outcome) := Statement(w.calls[c].op, w.calls[c].phase.now, w.store);
        Become(w, c, Done(outcome)).(store := store)
      case ExecuteGui(c, dbNow) =>
        var (store, outcome) := Statement(w.calls[c].op, dbNow, w.store);
        Become(w, c, Done(outcome)).(store := store, dbClock := dbNow)
      case Unlock(c) => Become(w, c, Returned(w.calls[c].phase.outcome)).(lock := Released(w.lock, c))
  }

  function After(run: seq<Event>): World {
    if run == [] then INITIAL else Next(After(run[..|run| - 1]), run[|run| - 1])
  }

  lemma AfterSnoc(run: seq<Event>, e: Event)
    ensures After(run + [e]) == Next(After(run), e)
  {
    assert (run + [e])[..|run|] == run;
  }

  /** The time an event's statement is stamped with. */
  function StampOf(w: World, e: Event): Time
    requires Enabled(w, e) && (e.Execute? || e.ExecuteGui?)
  {
    if e.Execute? then w.calls[e.call].phase.now else e.dbNow
  }

  // ---- The lock ---------------------------------------------------------------------------

  predicate InsideLock(phase: Phase) {
    phase.Holding? || phase.Checked? || phase.Stamped? || phase.Done?
  }

  ghost predicate LockMatchesCalls(w: World) {
    && Exclusive(w.lock)
    && (forall c :: c in w.lock.readers <==> c in w.calls && InsideLock(w.calls[c].phase) && IsLifecycle(w.calls[c].op))
    && (forall c :: w.lock.writer == Some(c)
                    <==> c in w.calls && InsideLock(w.calls[c].phase) && !IsLifecycle(w.calls[c].op))
  }

  lemma {:induction false} LockInvariant(run: seq<Event>)
    ensures LockMatchesCalls(After(run))
  {
    if run != [] {
      LockInvariant(run[..|run| - 1]);
      LockStep(After(run[..|run| - 1]), run[|run| - 1]);
    }
  }

  lemma LockStep(w: World, e: Event)
    requires LockMatchesCalls(w)
    ensures LockMatchesCalls(Next(w, e))
  {
    if Enabled(w, e) && (e.Unlock? || e.RLock? || e.Lock? || e.Invoke?) {
      LockingStep(w, e);
    } else {
      assert Next(w, e).lock == w.lock;
    }
  }

  lemma LockingStep(w: World, e: Event)
    requires LockMatchesCalls(w) && Enabled(w, e) && (e.Unlock? || e.RLock? || e.Lock? || e.Invoke?)
    ensures LockMatchesCalls(Next(w, e))
  {
  }

  /**
   * The shared lock still keeps session creation and the GUI writes out of every window between a
   * call's SELECT and its UPDATE; only other lifecycle calls can get in.
   */
  lemma OnlyLifecycleWritesEnterAWindow(run: seq<Event>, c: nat, e: Event)
    requires var w := After(run);
             && c in w.calls && ReadsThenWrites(w.calls[c].op) && InsideLock(w.calls[c].phase)
             && e.call != c && Enabled(w, e) && Next(w, e).store != w.store
    ensures e.Execute? && IsLifecycle(After(run).calls[e.call].op)
  {
    LockInvariant(run);
    var w := After(run);
    assert c in w.lock.readers;
    assert e.Execute? || e.ExecuteGui?;
  }

  // ---- What survives every interleaving ---------------------------------------------------

  /** Row facts that hold after any sequence of statements, checked beforehand or not. */
  ghost predicate RowSound(id: string, row: Session) {
    && row.id == id
    && !row.state.Other?
    && (row.disconnectedAt.Some? <==> row.disconnectReason.Some?)
    && (row.connectedAt.Some? ==> row.state != Requested)
    && (row.disconnectedAt.Some? ==> row.state != Requested)
    && row.startedAt == row.createdAt
  }

  /** A call that has got past its SELECT only ever writes a state that some session may move to. */
  ghost predicate PendingSound(call: Call) {
    call.op.Update? && (call.phase.Checked? || call.phase.Stamped?) ==>
      var target := StateOf(call.op.newState);
      target == Authorized || target == Active || target == Disconnected
  }

  ghost predicate Sound(w: World) {
    && (forall id <- w.store :: RowSound(id, w.store[id]))
    && (forall c <- w.calls :: PendingSound(w.calls[c]))
  }

  lemma StatementKeepsRowsSound(op: Op, now: Time, store: Store)
    requires forall id <- store :: RowSound(id, store[id])
    requires PendingSound(Call(op, Stamped(now)))
    ensures forall id <- Statement(op, now, store).0 :: RowSound(id, Statement(op, now, store).0[id])
  {
    var next := Statement(op, now, store).0;
    forall id <- next
      ensures RowSound(id, next[id])
    {
      if id in store {
        assert RowSound(id, store[id]);
      }
    }
  }

  lemma {:induction false} EveryStateIsSound(run: seq<Event>)
    ensures Sound(After(run))
  {
    if run != [] {
      var e := run[|run| - 1];
      var w := After(run[..|run| - 1]);
      EveryStateIsSound(run[..|run| - 1]);
      if Enabled(w, e) && (e.Execute? || e.ExecuteGui?) {
        assert PendingSound(w.calls[e.call]);
        StatementKeepsRowsSound(w.calls[e.call].op, StampOf(w, e), w.store);
      }
    }
  }

  /** What a row may still become: never REQUESTED again, with the columns set at creation kept. */
  ghost predicate RowGrows(was: Session, now: Session) {
    && (was.state != Requested ==> now.state != Requested)
    && now == was.(state := now.state, connectedAt := now.connectedAt, disconnectedAt := now.disconnectedAt,
                   disconnectReason := now.disconnectReason, gui := now.gui, updatedAt := now.updatedAt)
    && (was.disconnectedAt.Some? ==> now.disconnectedAt.Some?)
    && (was.connectedAt.Some? ==> now.connectedAt.Some?)
  }

  ghost predicate Grows(was: Store, now: Store) {
    forall id <- was :: id in now && RowGrows(was[id], now[id])
  }

  lemma StepGrows(w: World, e: Event)
    requires Sound(w)
    ensures Grows(w.store, Next(w, e).store)
  {
    if Enabled(w, e) && (e.Execute? || e.ExecuteGui?) {
      var call, now := w.calls[e.call], StampOf(w, e);
      assert PendingSound(call);
      var next := Statement(call.op, now, w.store).0;
      assert Next(w, e).store == next;
      forall id <- w.store
        ensures RowGrows(w.store[id], next[id])
      {
        assert next[id] == w.store[id]
               || (!call.op.Create? && Hits(call.op, now, id, w.store[id])
                   && next[id] == WriteRow(call.op, now, w.store[id]));
      }
    }
  }

  lemma {:induction false} NothingReturnsToRequested(run: seq<Event>, i: nat)
    requires i <= |run|
    ensures Grows(After(run[..i]).store, After(run).store)
  {
    if i == |run| {
      assert run[..i] == run;
    } else {
      var front := run[..|run| - 1];
      NothingReturnsToRequested(front, i);
      assert front[..i] == run[..i];
      EveryStateIsSound(front);
      StepGrows(After(front), run[|run| - 1]);
    }
  }

  /** Some strictly earlier state of the run had the session AUTHORIZED. */
  ghost predicate WasAuthorized(run: seq<Event>, id: string) {
    exists i :: 0 <= i < |run| && id in After(run[..i]).store && After(run[..i]).store[id].state == Authorized
  }

  predicate AimsAtActive(op: Op) {
    op.MarkConnected? || (op.Update? && StateOf(op.newState) == Active)
  }

  lemma WasAuthorizedExtends(run: seq<Event>, id: string)
    requires run != [] && WasAuthorized(run[..|run| - 1], id)
    ensures WasAuthorized(run, id)
  {
    var front := run[..|run| - 1];
    var i :| 0 <= i < |front| && id in After(front[..i]).store && After(front[..i]).store[id].state == Authorized;
    assert front[..i] == run[..i];
  }

  lemma {:induction false} ActiveHistory(run: seq<Event>)
    ensures forall id <- After(run).store :: After(run).store[id].state == Active ==> WasAuthorized(run, id)
    ensures forall c <- After(run).calls ::
              var call := After(run).calls[c];
              AimsAtActive(call.op) && (call.phase.Checked? || call.phase.Stamped?) ==> WasAuthorized(run, call.op.id)
  {
    if run != [] {
      var front, e := run[..|run| - 1], run[|run| - 1];
      var was, w := After(front), After(run);
      ActiveHistory(front);
      forall id | WasAuthorized(front, id)
        ensures WasAuthorized(run, id)
      {
        WasAuthorizedExtends(run, id);
      }
      if e.Select? && Enabled(was, e) && AimsAtActive(was.calls[e.call].op)
         && Guard(was.calls[e.call].op, was.store).None? {
        assert run[..|front|] == front;
        assert WasAuthorized(run, was.calls[e.call].op.id);
      }
      forall id | id in w.store && w.store[id].state == Active
        ensures WasAuthorized(run, id)
      {
        if !(id in was.store && was.store[id].state == Active) {
          assert Enabled(was, e) && e.Execute? && AimsAtActive(was.calls[e.call].op) && was.calls[e.call].op.id == id;
          assert WasAuthorized(front, id);
        }
      }
    }
  }

  /** In every interleaving, a session that is ACTIVE was AUTHORIZED at an earlier step. */
  lemma ActiveWasAuthorized(run: seq<Event>, i: nat, id: string)
    requires i <= |run| && id in After(run[..i]).store && After(run[..i]).store[id].state == Active
    ensures exists j :: 0 <= j < i && id in After(run[..j]).store && After(run[..j]).store[id].state == Authorized
  {
    var upTo := run[..i];
    ActiveHistory(upTo);
    var j :| 0 <= j < |upTo| && id in After(upTo[..j]).store && After(upTo[..j]).store[id].state == Authorized;
    assert upTo[..j] == run[..j];
  }
}
