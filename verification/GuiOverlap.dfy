/** What the status endpoint shows when the daemon's notifications overlap with the other calls. */
module GuiOverlap {
  import opened Common
  import opened Sessions
  import opened Interleaving
  import opened Reduction
  import opened GuiSessions

  /** GUI writes as the daemon's two methods make them: one of two protocols, and 0 for the other's port. */
  predicate FromDaemon(op: Op) {
    op.GuiStart? ==>
      (op.protocol == "vnc" && op.x11Port == 0) || (op.protocol == "x11" && op.vncPort == 0)
  }

  ghost predicate GuiThroughDaemon(run: seq<Event>) {
    forall e <- run :: e.Invoke? ==> FromDaemon(e.op)
  }

  /** The request behind a call. */
  function RequestOf(s: Step): Request {
    match s.op
    case GuiStart(id, protocol, vncPort, x11Port) =>
      NotifyStart(id, protocol, if protocol == "vnc" then vncPort else x11Port, s.now)
    case GuiEnd(id) => NotifyEnd(id, s.now)
    case _ => Service(s.op, s.now)
  }

  /** The requests of the run, in the order in which they took effect. */
  function RequestsOf(log: seq<Commit>): (r: seq<Request>)
    ensures |r| == |log|
  {
    seq(|log|, i requires 0 <= i < |log| => RequestOf(log[i].step))
  }

  lemma {:induction false} DispatchUndoes(log: seq<Commit>)
    requires forall c <- log :: FromDaemon(c.step.op)
    ensures DispatchAll(RequestsOf(log)) == Steps(log)
    ensures ThroughDaemon(RequestsOf(log))
  {
    if log != [] {
      var front, last := log[..|log| - 1], log[|log| - 1];
      assert log == front + [last];
      DispatchUndoes(front);
      assert RequestsOf(log)[..|log| - 1] == RequestsOf(front);
      assert Dispatch(RequestOf(last.step)) == [last.step];
      LogSnoc(front, last);
    }
  }

  /** Every call of the run, and so every entry of its log, comes from an invocation in it. */
  lemma {:induction false} LogComesFromInvocations(run: seq<Event>)
    requires GuiThroughDaemon(run)
    ensures forall c <- After(run).calls :: FromDaemon(After(run).calls[c].op)
    ensures forall c <- Log(run) :: FromDaemon(c.step.op)
  {
    if run != [] {
      var front := run[..|run| - 1];
      assert run == front + [run[|run| - 1]];
      LogComesFromInvocations(front);
    }
  }

  lemma GuiIsThatOfTheRequests(run: seq<Event>)
    requires GuiThroughDaemon(run)
    ensures SameGui(After(run).store, StoreAfter(RequestsOf(Log(run))))
    ensures ThroughDaemon(RequestsOf(Log(run)))
  {
    LogComesFromInvocations(run);
    DispatchUndoes(Log(run));
    GuiSurvivesEveryInterleaving(run);
  }

  /**
   * In every interleaving the status of a session says that the GUI is active exactly when the last
   * notification to take effect since the session was created is a start, and shows its protocol and port.
   */
  lemma StatusIsLastToTakeEffect(run: seq<Event>, id: string)
    requires GuiThroughDaemon(run) && id in After(run).store
    ensures Shows(StatusOf(After(run).store[id]), LastNotification(RequestsOf(Log(run)), id))
  {
    var requests := RequestsOf(Log(run));
    GuiIsThatOfTheRequests(run);
    StatusIsLastNotification(requests, id);
    assert After(run).store[id].gui == StoreAfter(requests)[id].gui;
  }

  /** In every interleaving the GUI times are those of the last notifications of each kind to take effect. */
  lemma GuiTimesAreTheLastToTakeEffect(run: seq<Event>, id: string)
    requires GuiThroughDaemon(run) && id in After(run).store
    ensures ShowsTimes(After(run).store[id].gui, RequestsOf(Log(run)), id)
  {
    var requests := RequestsOf(Log(run));
    GuiIsThatOfTheRequests(run);
    GuiTimesAreTheNotifications(requests, id);
    assert After(run).store[id].gui == StoreAfter(requests)[id].gui;
  }

  /** And so are all GUI columns, whoever makes the GUI calls and with whatever protocol and ports. */
  lemma GuiTellsItsHistoryUnderOverlap(run: seq<Event>, id: string)
    requires id in After(run).store
    ensures TellsHistory(After(run).store[id].gui, GuiHistoryOf(Steps(Log(run)), id))
  {
    GuiSurvivesEveryInterleaving(run);
    GuiTellsItsHistory(Steps(Log(run)), id);
  }

  // ---- GUI times --------------------------------------------------------------------------

  /** GUI writes read no clock but the database's, in their own statement. */
  ghost predicate GuiReadsNoClock(w: World) {
    forall c <- w.calls :: w.calls[c].phase.Stamped? || w.calls[c].phase.Checked? ==> !IsGui(w.calls[c].op)
  }

  ghost predicate GuiStampsOrdered(log: seq<Commit>, bound: Time) {
    && (forall c <- log :: IsGui(c.step.op) ==> c.step.now <= bound)
    && (forall i, j :: 0 <= i < j < |log| && IsGui(log[i].step.op) && IsGui(log[j].step.op) ==>
          log[i].step.now <= log[j].step.now)
  }

  lemma {:induction false} DatabaseClockOrdersGuiWrites(run: seq<Event>)
    ensures GuiReadsNoClock(After(run))
    ensures GuiStampsOrdered(Log(run), After(run).dbClock)
  {
    if run != [] {
      var front, e := run[..|run| - 1], run[|run| - 1];
      DatabaseClockOrdersGuiWrites(front);
      OneEventKeepsOrder(After(front), e, Log(front));
    }
  }

  lemma OneEventKeepsOrder(w: World, e: Event, log: seq<Commit>)
    requires GuiReadsNoClock(w) && GuiStampsOrdered(log, w.dbClock)
    ensures GuiReadsNoClock(Next(w, e))
    ensures GuiStampsOrdered(log + NewCommit(w, e), Next(w, e).dbClock)
  {
    assert w.dbClock <= Next(w, e).dbClock;
    forall c | c in NewCommit(w, e) && IsGui(c.step.op)
      ensures c.step.now == Next(w, e).dbClock
    {
    }
  }

  lemma OrderedStampsAreOrderedRequests(log: seq<Commit>, bound: Time)
    requires GuiStampsOrdered(log, bound)
    ensures DbClockOrdered(RequestsOf(log))
    ensures forall r <- RequestsOf(log) :: !r.Service? ==> r.now <= bound
  {
    var requests := RequestsOf(log);
    assert forall i :: 0 <= i < |log| ==> requests[i] == RequestOf(log[i].step);
    forall i | 0 <= i < |log| && !requests[i].Service?
      ensures IsGui(log[i].step.op) && requests[i].now == log[i].step.now <= bound
    {
      assert log[i] in log;
    }
  }

  /**
   * In every interleaving the GUI columns are all NULL or all set with the unused port 0, the start and end
   * times are ordered by whether the GUI is active, and neither is ahead of the database clock.
   */
  lemma GuiColumnsAgreeUnderOverlap(run: seq<Event>)
    requires GuiThroughDaemon(run)
    ensures AllGuiAgree(After(run).store, After(run).dbClock)
  {
    var bound := After(run).dbClock;
    GuiIsThatOfTheRequests(run);
    DatabaseClockOrdersGuiWrites(run);
    OrderedStampsAreOrderedRequests(Log(run), bound);
    GuiColumnsAgree(RequestsOf(Log(run)), bound);
    SameGuiAgrees(StoreAfter(RequestsOf(Log(run))), After(run).store, bound);
  }

  lemma SameGuiAgrees(a: Store, b: Store, bound: Time)
    requires SameGui(b, a) && AllGuiAgree(a, bound)
    ensures AllGuiAgree(b, bound)
  {
    forall id | id in b
      ensures GuiAgrees(b[id].gui) && GuiBefore(b[id].gui, bound)
    {
      assert b[id].gui == a[id].gui;
    }
  }
}
