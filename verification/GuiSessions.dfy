/** The GUI sub-machine: daemon notifications, the columns they write and the status that is read back. */
module GuiSessions {
  import opened Common
  import opened Sessions
  import SerialRuns
  import Interleaving
  import Reduction

  // ---- Lifecycle and GUI writes do not interfere ------------------------------------------

  /** `m` is a merge of `l` and `g` that keeps the order of each. */
  ghost predicate IsMerge<T>(m: seq<T>, l: seq<T>, g: seq<T>)
    decreases |m|
  {
    if m == [] then l == [] && g == []
    else
      var front, last := m[..|m| - 1], m[|m| - 1];
      || (l != [] && l[|l| - 1] == last && IsMerge(front, l[..|l| - 1], g))
      || (g != [] && g[|g| - 1] == last && IsMerge(front, l, g[..|g| - 1]))
  }

  /** No GUI write addresses a session that the other run has yet to create. */
  ghost predicate KnownBefore(l: seq<Step>, g: seq<Step>, store: Store) {
    && (forall s <- l :: !IsGui(s.op))
    && (forall s <- g :: IsGui(s.op))
    && (forall a <- l, b <- g :: a.op.Create? && a.op.id == b.op.id ==> a.op.id in store)
  }

  lemma GuiWriteKeepsGuard(a: Op, b: Op, now: Time, store: Store)
    requires !IsGui(a) && IsGui(b)
    ensures Guard(a, Write(b, now, store)) == Guard(a, store)
  {
  }

  lemma WritesCommute(a: Op, t: Time, b: Op, u: Time, store: Store)
    requires !IsGui(a) && IsGui(b)
    requires a.Create? ==> a.id != b.id
    ensures Write(b, u, Write(a, t, store)) == Write(a, t, Write(b, u, store))
  {
    var ab, ba := Write(b, u, Write(a, t, store)), Write(a, t, Write(b, u, store));
    forall id | id in store
      ensures ab[id] == ba[id]
    {
      assert Hits(a, t, id, Write(b, u, store)[id]) == Hits(a, t, id, store[id]);
    }
  }

  lemma StepsCommute(a: Step, b: Step, store: Store)
    requires !IsGui(a.op) && IsGui(b.op)
    requires a.op.Create? && a.op.id == b.op.id ==> a.op.id in store
    ensures
      var afterA, afterB := Apply(a.op, a.now, store), Apply(b.op, b.now, store);
      && Apply(b.op, b.now, afterA.0).0 == Apply(a.op, a.now, afterB.0).0
      && afterA.1 == Apply(a.op, a.now, afterB.0).1
  {
    GuiWriteKeepsGuard(a.op, b.op, b.now, store);
    if Guard(a.op, store).None? {
      WritesCommute(a.op, a.now, b.op, b.now, store);
    }
  }

  /** A lifecycle call moves in front of a whole run of GUI writes. */
  lemma {:induction false} MovesAhead(a: Step, g: seq<Step>, store: Store)
    requires KnownBefore([a], g, store)
    ensures Apply(a.op, a.now, Run(g, store)) == (Run(g, Apply(a.op, a.now, store).0), Apply(a.op, a.now, store).1)
  {
    if g != [] {
      var front, last := g[..|g| - 1], g[|g| - 1];
      assert a in [a] && last in g;
      forall b | b in front
        ensures b in g
      {
      }
      MovesAhead(a, front, store);
      SerialRuns.RowsAreNeverDeleted(front, store);
      StepsCommute(a, last, Run(front, store));
    }
  }

  /** What the calls other than GUI writes return. */
  function LifecycleOutcomes(steps: seq<Step>, store: Store): seq<Outcome> {
    if steps == [] then []
    else
      var front, last := steps[..|steps| - 1], steps[|steps| - 1];
      LifecycleOutcomes(front, store)
      + if IsGui(last.op) then [] else [Apply(last.op, last.now, Run(front, store)).1]
  }

  /**
   * However a lifecycle run and a GUI run are merged, the store is the one the lifecycle run followed by
   * the GUI run gives, and each lifecycle call returns what it returns with no GUI write around.
   */
  lemma {:induction false} MergesAgree(m: seq<Step>, l: seq<Step>, g: seq<Step>, store: Store)
    requires IsMerge(m, l, g) && KnownBefore(l, g, store)
    ensures Run(m, store) == Run(g, Run(l, store))
    ensures LifecycleOutcomes(m, store) == Outcomes(l, store)
    decreases |m|
  {
    if m != [] {
      var front, last := m[..|m| - 1], m[|m| - 1];
      if l != [] && l[|l| - 1] == last && IsMerge(front, l[..|l| - 1], g) {
        var l' := l[..|l| - 1];
        forall s | s in l'
          ensures s in l
        {
        }
        MergesAgree(front, l', g, store);
        SerialRuns.RowsAreNeverDeleted(l', store);
        MovesAhead(last, g, Run(l', store));
      } else {
        var g' := g[..|g| - 1];
        forall s | s in g'
          ensures s in g
        {
        }
        assert last in g;
        MergesAgree(front, l, g', store);
      }
    }
  }

  /** The excluded case is real: a start that comes before the session exists is accepted and lost. */
  lemma StartBeforeCreateIsLost(create: Step, start: Step, store: Store)
    requires create.op.Create? && start.op.GuiStart? && create.op.id == start.op.id && create.op.id !in store
    ensures Run([start, create], store) != Run([create, start], store)
    ensures Outcomes([start, create], store) == Outcomes([create, start], store) == [Ok, Ok]
  {
    RunSnoc([], start, store);
    RunSnoc([], create, store);
    RunSnoc([start], create, store);
    RunSnoc([create], start, store);
    assert [] + [start] == [start] && [] + [create] == [create];
    assert [start] + [create] == [start, create] && [create] + [start] == [create, start];
    var id := create.op.id;
    assert Run([start], store) == store;
    assert Run([start, create], store)[id].gui == NO_GUI;
    assert Run([create, start], store)[id].gui.protocol.Some?;
  }

  // ---- Daemon notifications ---------------------------------------------------------------

  /** Requests as they reach the server: lifecycle calls, and the daemon's two notifications. */
  datatype Request =
    | Service(op: Op, now: Time)
    | NotifyStart(id: string, protocol: string, port: int, now: Time)
    | NotifyEnd(id: string, now: Time)

  /** Lifecycle calls go to the service directly; the GUI columns are reached through notifications only. */
  ghost predicate ThroughDaemon(requests: seq<Request>) {
    forall r <- requests :: r.Service? ==> !IsGui(r.op)
  }

  predicate Accepted(r: Request) {
    r.NotifyStart? ==> r.protocol == "vnc" || r.protocol == "x11"
  }

  /** The service call a request leads to, if any. */
  function Dispatch(r: Request): seq<Step> {
    match r
    case Service(op, now) => [Step(op, now)]
    case NotifyStart(id, protocol, port, now) =>
      if protocol == "vnc" then [Step(GuiStart(id, protocol, port, 0), now)]
      else if protocol == "x11" then [Step(GuiStart(id, protocol, 0, port), now)]
      else []
    case NotifyEnd(id, now) => [Step(GuiEnd(id), now)]
  }

  function DispatchAll(requests: seq<Request>): seq<Step> {
    if requests == [] then []
    else DispatchAll(requests[..|requests| - 1]) + Dispatch(requests[|requests| - 1])
  }

  function StoreAfter(requests: seq<Request>): Store {
    Run(DispatchAll(requests), map[])
  }

  /** The status report of one session. */
  datatype Status = Status(id: string, state: State, sshActive: bool, guiActive: bool, guiProtocol: Option<string>,
                           guiPort: Option<int>, sshPort: int, startedAt: Time, updatedAt: Time)

  function StatusOf(row: Session): Status {
    var active := row.gui.protocol.Some? && row.gui.protocol.value != "";
    var port :=
      if !active then None
      else if row.gui.protocol.value == "vnc" then row.gui.vncPort
      else if row.gui.protocol.value == "x11" then row.gui.x11Port
      else None;
    Status(row.id, row.state, true, active, row.gui.protocol, port, row.sshPort, row.startedAt, row.updatedAt)
  }

  ghost predicate CreatedIn(requests: seq<Request>, id: string) {
    exists r <- requests :: Creates(r, id)
  }

  /** The last accepted notification for the session that came after the session was created. */
  ghost function LastNotification(requests: seq<Request>, id: string): Option<Request> {
    if requests == [] then None
    else
      var front, last := requests[..|requests| - 1], requests[|requests| - 1];
      if !last.Service? && last.id == id && Accepted(last) && CreatedIn(front, id) then Some(last)
      else LastNotification(front, id)
  }

  lemma StoreAfterSnoc(requests: seq<Request>)
    requires requests != []
    ensures var front, last := requests[..|requests| - 1], requests[|requests| - 1];
            StoreAfter(requests) == if Dispatch(last) == [] then StoreAfter(front)
                                    else Apply(Dispatch(last)[0].op, Dispatch(last)[0].now, StoreAfter(front)).0
  {
    var front, last := requests[..|requests| - 1], requests[|requests| - 1];
    if Dispatch(last) == [] {
      assert DispatchAll(requests) == DispatchAll(front);
    } else {
      assert Dispatch(last) == [Dispatch(last)[0]];
      RunSnoc(DispatchAll(front), Dispatch(last)[0], map[]);
    }
  }

  predicate Creates(r: Request, id: string) {
    r.Service? && r.op.Create? && r.op.id == id
  }

  lemma CreatedSnoc(requests: seq<Request>, id: string)
    requires requests != []
    ensures CreatedIn(requests, id) <==>
              CreatedIn(requests[..|requests| - 1], id) || Creates(requests[|requests| - 1], id)
  {
    assert requests == requests[..|requests| - 1] + [requests[|requests| - 1]];
  }

  lemma {:induction false} RowExistsIffCreated(requests: seq<Request>, id: string)
    ensures id in StoreAfter(requests) <==> CreatedIn(requests, id)
  {
    if requests != [] {
      var front, last := requests[..|requests| - 1], requests[|requests| - 1];
      RowExistsIffCreated(front, id);
      StoreAfterSnoc(requests);
      CreatedSnoc(requests, id);
      assert Dispatch(last) == [] ==> !Creates(last, id);
    }
  }

  /**
   * For every trace, the status says that the GUI is active exactly when the last accepted notification
   * since the session was created is a start, and then shows that start's protocol and port.
   */
  lemma {:induction false} StatusIsLastNotification(requests: seq<Request>, id: string)
    requires ThroughDaemon(requests) && id in StoreAfter(requests)
    ensures Shows(StatusOf(StoreAfter(requests)[id]), LastNotification(requests, id))
  {
    RowExistsIffCreated(requests, id);
    if requests != [] {
      var front, last := requests[..|requests| - 1], requests[|requests| - 1];
      assert requests == front + [last];
      RowExistsIffCreated(front, id);
      StoreAfterSnoc(requests);
      CreatedSnoc(requests, id);
      if id in StoreAfter(front) {
        StatusIsLastNotification(front, id);
        RequestShows(last, StoreAfter(front), id, LastNotification(front, id));
      } else {
        NothingBeforeCreation(front, id);
      }
    }
  }

  /** GUI active exactly for a start, with that start's protocol and port. */
  ghost predicate Shows(status: Status, last: Option<Request>) {
    && (status.guiActive <==> last.Some? && last.value.NotifyStart?)
    && status.guiProtocol == (if status.guiActive then Some(last.value.protocol) else None)
    && status.guiPort == (if status.guiActive then Some(last.value.port) else None)
  }

  lemma RequestShows(r: Request, store: Store, id: string, last: Option<Request>)
    requires id in store && Shows(StatusOf(store[id]), last)
    requires r.Service? ==> !IsGui(r.op)
    ensures
      var next := if Dispatch(r) == [] then store else Apply(Dispatch(r)[0].op, Dispatch(r)[0].now, store).0;
      && id in next
      && Shows(StatusOf(next[id]), if !r.Service? && r.id == id && Accepted(r) then Some(r) else last)
  {
    var next := if Dispatch(r) == [] then store else Apply(Dispatch(r)[0].op, Dispatch(r)[0].now, store).0;
    if r.Service? {
      assert next[id].gui == store[id].gui;
    } else if r.id != id {
      assert next[id] == store[id];
    }
  }

  lemma {:induction false} NothingBeforeCreation(requests: seq<Request>, id: string)
    requires !CreatedIn(requests, id)
    ensures LastNotification(requests, id) == None
  {
    if requests != [] {
      var front := requests[..|requests| - 1];
      assert requests == front + [requests[|requests| - 1]];
      NothingBeforeCreation(front, id);
    }
  }

  /** The GUI columns are all NULL or all set with the unused port 0, and their times are in order. */
  ghost predicate GuiAgrees(gui: Gui) {
    && (gui.protocol.Some? <==> gui.vncPort.Some?)
    && (gui.protocol.Some? <==> gui.x11Port.Some?)
    && (gui.protocol.Some? ==>
          || (gui.protocol.value == "vnc" && gui.x11Port == Some(0))
          || (gui.protocol.value == "x11" && gui.vncPort == Some(0)))
    && (gui.protocol.Some? ==> gui.startedAt.Some?)
    && (gui.startedAt.Some? && gui.protocol.None? ==> gui.endedAt.Some?)
    && (gui.startedAt.Some? && gui.endedAt.Some? ==>
          if gui.protocol.Some? then gui.endedAt.value <= gui.startedAt.value
          else gui.startedAt.value <= gui.endedAt.value)
  }

  ghost predicate GuiBefore(gui: Gui, bound: Time) {
    && (gui.startedAt.Some? ==> gui.startedAt.value <= bound)
    && (gui.endedAt.Some? ==> gui.endedAt.value <= bound)
  }

  /** The database clock never goes back along the notifications. */
  ghost predicate DbClockOrdered(requests: seq<Request>) {
    forall i, j :: 0 <= i < j < |requests| && !requests[i].Service? && !requests[j].Service? ==>
      requests[i].now <= requests[j].now
  }

  ghost predicate AllGuiAgree(store: Store, bound: Time) {
    forall id <- store :: GuiAgrees(store[id].gui) && GuiBefore(store[id].gui, bound)
  }

  lemma DispatchKeepsGui(r: Request, store: Store, bound: Time)
    requires AllGuiAgree(store, if r.Service? then bound else r.now)
    requires if r.Service? then !IsGui(r.op) else r.now <= bound
    ensures Dispatch(r) == [] ==> AllGuiAgree(store, bound)
    ensures Dispatch(r) != [] ==> AllGuiAgree(Apply(Dispatch(r)[0].op, Dispatch(r)[0].now, store).0, bound)
  {
    if Dispatch(r) != [] {
      var s := Dispatch(r)[0];
      var next := Apply(s.op, s.now, store).0;
      forall id | id in next
        ensures GuiAgrees(next[id].gui) && GuiBefore(next[id].gui, bound)
      {
        if id in store {
          assert GuiAgrees(store[id].gui);
        }
      }
    }
  }

  lemma {:induction false} GuiColumnsAgree(requests: seq<Request>, bound: Time)
    requires ThroughDaemon(requests) && DbClockOrdered(requests)
    requires forall r <- requests :: !r.Service? ==> r.now <= bound
    ensures AllGuiAgree(StoreAfter(requests), bound)
  {
    if requests != [] {
      var front, last := requests[..|requests| - 1], requests[|requests| - 1];
      assert requests == front + [last];
      GuiColumnsAgree(front, if last.Service? then bound else last.now);
      StoreAfterSnoc(requests);
      DispatchKeepsGui(last, StoreAfter(front), bound);
    }
  }

  // ---- The GUI columns tell their history -------------------------------------------------

  ghost predicate CreatedBy(steps: seq<Step>, id: string) {
    exists s <- steps :: s.op.Create? && s.op.id == id
  }

  /** The last GUI write of each kind for the session since it was created. */
  datatype GuiHistory = GuiHistory(last: Option<Step>, lastStart: Option<Step>, lastEnd: Option<Step>)

  ghost function GuiHistoryOf(steps: seq<Step>, id: string): GuiHistory {
    if steps == [] then GuiHistory(None, None, None)
    else
      var front, s := steps[..|steps| - 1], steps[|steps| - 1];
      var before := GuiHistoryOf(front, id);
      if s.op.GuiStart? && s.op.id == id && CreatedBy(front, id) then GuiHistory(Some(s), Some(s), before.lastEnd)
      else if s.op.GuiEnd? && s.op.id == id && CreatedBy(front, id) then GuiHistory(Some(s), before.lastStart, Some(s))
      else before
  }

  function TimeOf(s: Option<Step>): Option<Time> {
    if s.Some? then Some(s.value.now) else None
  }

  /** Times are those of the last start and the last end; the rest is the last start's, unless an end came later. */
  ghost predicate TellsHistory(gui: Gui, h: GuiHistory) {
    && gui.startedAt == TimeOf(h.lastStart)
    && gui.endedAt == TimeOf(h.lastEnd)
    && (if h.last.Some? && h.last.value.op.GuiStart? then
          var op := h.last.value.op;
          gui.protocol == Some(op.protocol) && gui.vncPort == Some(op.vncPort) && gui.x11Port == Some(op.x11Port)
        else gui.protocol.None? && gui.vncPort.None? && gui.x11Port.None?)
  }

  lemma {:induction false} ExistsIffCreated(steps: seq<Step>, id: string)
    ensures id in Run(steps, map[]) <==> CreatedBy(steps, id)
    ensures !CreatedBy(steps, id) ==> GuiHistoryOf(steps, id) == GuiHistory(None, None, None)
  {
    if steps != [] {
      var front, s := steps[..|steps| - 1], steps[|steps| - 1];
      assert steps == front + [s];
      ExistsIffCreated(front, id);
    }
  }

  lemma StepTellsHistory(s: Step, store: Store, id: string, h: GuiHistory)
    requires id in store && TellsHistory(store[id].gui, h)
    ensures
      var next := Apply(s.op, s.now, store).0;
      && id in next
      && TellsHistory(next[id].gui,
                      if s.op.GuiStart? && s.op.id == id then GuiHistory(Some(s), Some(s), h.lastEnd)
                      else if s.op.GuiEnd? && s.op.id == id then GuiHistory(Some(s), h.lastStart, Some(s))
                      else h)
  {
  }

  /**
   * In every serial run, whoever makes the GUI calls, a session's GUI start and end times are those of the
   * last start and of the last end since it was created, and its protocol and ports are those of the last
   * start, or NULL once an end has followed it.
   */
  lemma {:induction false} GuiTellsItsHistory(steps: seq<Step>, id: string)
    requires id in Run(steps, map[])
    ensures TellsHistory(Run(steps, map[])[id].gui, GuiHistoryOf(steps, id))
  {
    var front, s := steps[..|steps| - 1], steps[|steps| - 1];
    ExistsIffCreated(front, id);
    if id in Run(front, map[]) {
      GuiTellsItsHistory(front, id);
      StepTellsHistory(s, Run(front, map[]), id, GuiHistoryOf(front, id));
    }
  }

  /** The last accepted notification of one kind since the session was created. */
  ghost function LastOfKind(requests: seq<Request>, id: string, start: bool): Option<Request> {
    if requests == [] then None
    else
      var front, r := requests[..|requests| - 1], requests[|requests| - 1];
      var ofKind := if start then r.NotifyStart? && (r.protocol == "vnc" || r.protocol == "x11") else r.NotifyEnd?;
      if ofKind && r.id == id && CreatedIn(front, id) then Some(r) else LastOfKind(front, id, start)
  }

  function RequestTime(r: Option<Request>): Option<Time> {
    if r.Some? then Some(r.value.now) else None
  }

  /** The GUI times of a session are those of its last accepted notifications. */
  ghost predicate ShowsTimes(gui: Gui, requests: seq<Request>, id: string) {
    && gui.startedAt == RequestTime(LastOfKind(requests, id, true))
    && gui.endedAt == RequestTime(LastOfKind(requests, id, false))
  }

  lemma {:induction false} NoneBeforeCreation(requests: seq<Request>, id: string, start: bool)
    requires !CreatedIn(requests, id)
    ensures LastOfKind(requests, id, start) == None
  {
    if requests != [] {
      var front := requests[..|requests| - 1];
      assert requests == front + [requests[|requests| - 1]];
      NoneBeforeCreation(front, id, start);
    }
  }

  /** One request and the two time columns of one session. */
  lemma RequestWritesTimes(r: Request, store: Store, id: string)
    requires id in store && (r.Service? ==> !IsGui(r.op))
    ensures
      var next := if Dispatch(r) == [] then store else Apply(Dispatch(r)[0].op, Dispatch(r)[0].now, store).0;
      && id in next
      && next[id].gui.startedAt == (if r.NotifyStart? && (r.protocol == "vnc" || r.protocol == "x11") && r.id == id
                                    then Some(r.now) else store[id].gui.startedAt)
      && next[id].gui.endedAt == (if r.NotifyEnd? && r.id == id then Some(r.now) else store[id].gui.endedAt)
  {
  }

  /**
   * For every trace, a session's GUI start time is the time of its last accepted start since it was created,
   * and its GUI end time that of its last end; each is NULL if there was none.
   */
  lemma {:induction false} GuiTimesAreTheNotifications(requests: seq<Request>, id: string)
    requires ThroughDaemon(requests) && id in StoreAfter(requests)
    ensures ShowsTimes(StoreAfter(requests)[id].gui, requests, id)
  {
    if requests != [] {
      var front, last := requests[..|requests| - 1], requests[|requests| - 1];
      assert requests == front + [last];
      RowExistsIffCreated(front, id);
      StoreAfterSnoc(requests);
      if id in StoreAfter(front) {
        GuiTimesAreTheNotifications(front, id);
        RequestWritesTimes(last, StoreAfter(front), id);
      } else {
        NoneBeforeCreation(front, id, true);
        NoneBeforeCreation(front, id, false);
      }
    }
  }

  // ---- Under concurrency ------------------------------------------------------------------

  ghost predicate SameGui(a: Store, b: Store) {
    a.Keys == b.Keys && forall id <- a :: a[id].gui == b[id].gui
  }

  lemma GuiIgnoresTheRest(s: Step, a: Store, b: Store)
    requires SameGui(a, b)
    ensures SameGui(Interleaving.Statement(s.op, s.now, a).0, Apply(s.op, s.now, b).0)
  {
    var a', b' := Interleaving.Statement(s.op, s.now, a).0, Apply(s.op, s.now, b).0;
    forall id | id in a'
      ensures id in b' && a'[id].gui == b'[id].gui
    {
    }
  }

  lemma OneEventKeepsSameGui(w: Interleaving.World, e: Interleaving.Event, serial: Store)
    requires SameGui(w.store, serial)
    ensures
      var commits, next := Reduction.NewCommit(w, e), Interleaving.Next(w, e).store;
      && |commits| <= 1
      && SameGui(next, if commits == [] then serial
                       else Apply(commits[0].step.op, commits[0].step.now, serial).0)
  {
    var commits := Reduction.NewCommit(w, e);
    if commits != [] && !e.Select? {
      GuiIgnoresTheRest(commits[0].step, w.store, serial);
    }
  }

  /**
   * In every interleaving, even one that loses a disconnect, the sessions and their GUI columns are those
   * of the calls run one after another in the order they took effect.
   */
  lemma {:induction false} GuiSurvivesEveryInterleaving(run: seq<Interleaving.Event>)
    ensures SameGui(Interleaving.After(run).store, Run(Reduction.Steps(Reduction.Log(run)), map[]))
  {
    if run != [] {
      var front, e := run[..|run| - 1], run[|run| - 1];
      var w, log := Interleaving.After(front), Reduction.Log(front);
      var commits := Reduction.NewCommit(w, e);
      GuiSurvivesEveryInterleaving(front);
      OneEventKeepsSameGui(w, e, Run(Reduction.Steps(log), map[]));
      LogAfterEvent(log, commits);
    }
  }

  lemma LogAfterEvent(log: seq<Reduction.Commit>, commits: seq<Reduction.Commit>)
    requires |commits| <= 1
    ensures
      var before := Run(Reduction.Steps(log), map[]);
      Run(Reduction.Steps(log + commits), map[])
      == if commits == [] then before else Apply(commits[0].step.op, commits[0].step.now, before).0
  {
    if commits == [] {
      assert log + commits == log;
    } else {
      assert commits == [commits[0]];
      Reduction.LogSnoc(log, commits[0]);
      RunSnoc(Reduction.Steps(log), commits[0].step, map[]);
    }
  }
}
