/** What holds when the calls on the session service run one after another. */
module SerialRuns {
  import opened Common
  import opened Sessions

  function Rank(s: State): nat {
    match s
    case Authorized => 1
    case Active => 2
    case Disconnected => 3
    case _ => 0
  }

  /** The rows a statement changes. */
  function HitSet(op: Op, now: Time, store: Store): set<string> {
    set id | id in store && Hits(op, now, id, store[id])
  }

  /** A lifecycle call that passes its guard moves every row it touches strictly up, and no other row at all. */
  lemma SuccessRaisesRank(op: Op, now: Time, store: Store, id: string)
    requires IsLifecycle(op) && Guard(op, store).None? && id in store
    ensures
      var next := Apply(op, now, store).0;
      if id in HitSet(op, now, store) then Rank(store[id].state) < Rank(next[id].state)
      else next[id] == store[id]
  {
    var next := Write(op, now, store);
    assert next[id] == if Hits(op, now, id, store[id]) then WriteRow(op, now, store[id]) else store[id];
  }

  lemma {:induction false} RowsAreNeverDeleted(steps: seq<Step>, store: Store)
    ensures store.Keys <= Run(steps, store).Keys
  {
    if steps != [] {
      RowsAreNeverDeleted(steps[..|steps| - 1], store);
    }
  }

  /** Once DISCONNECTED, a row changes in its GUI columns only, whatever calls follow. */
  lemma {:induction false} DisconnectedIsFinal(steps: seq<Step>, store: Store, id: string)
    requires id in store && store[id].state == Disconnected
    ensures id in Run(steps, store)
    ensures Run(steps, store)[id] == store[id].(gui := Run(steps, store)[id].gui)
  {
    if steps != [] {
      var front, last := steps[..|steps| - 1], steps[|steps| - 1];
      DisconnectedIsFinal(front, store, id);
      var before := Run(front, store);
      if Guard(last.op, before).None? {
        assert IsGui(last.op) || !Hits(last.op, last.now, id, before[id]);
      }
    }
  }

  // ---- Counting transitions ---------------------------------------------------------------

  /** Successful lifecycle transitions of one call; a cleanup counts once for each row it closes. */
  function Transitions(s: Step, store: Store): nat {
    if IsLifecycle(s.op) && Guard(s.op, store).None? then |HitSet(s.op, s.now, store)| else 0
  }

  function TotalTransitions(steps: seq<Step>, store: Store): nat {
    if steps == [] then 0
    else
      var front, last := steps[..|steps| - 1], steps[|steps| - 1];
      TotalTransitions(front, store) + Transitions(last, Run(front, store))
  }

  function SuccessfulCreates(steps: seq<Step>, store: Store): nat {
    if steps == [] then 0
    else
      var front, last := steps[..|steps| - 1], steps[|steps| - 1];
      SuccessfulCreates(front, store)
      + if last.op.Create? && Guard(last.op, Run(front, store)).None? then 1 else 0
  }

  ghost function SumRank(store: Store, ids: set<string>): nat
    requires ids <= store.Keys
  {
    if ids == {} then 0
    else var id :| id in ids; Rank(store[id].state) + SumRank(store, ids - {id})
  }

  lemma {:induction false} SumRankSplit(store: Store, ids: set<string>, id: string)
    requires id in ids && ids <= store.Keys
    ensures SumRank(store, ids) == Rank(store[id].state) + SumRank(store, ids - {id})
  {
    var pick :| pick in ids && SumRank(store, ids) == Rank(store[pick].state) + SumRank(store, ids - {pick});
    if pick != id {
      SumRankSplit(store, ids - {pick}, id);
      SumRankSplit(store, ids - {id}, pick);
      assert ids - {pick} - {id} == ids - {id} - {pick};
    }
  }

  lemma {:induction false} SumRankAtMost(store: Store, ids: set<string>)
    requires ids <= store.Keys
    ensures SumRank(store, ids) <= 3 * |ids|
  {
    if ids != {} {
      var id :| id in ids;
      SumRankSplit(store, ids, id);
      SumRankAtMost(store, ids - {id});
    }
  }

  lemma {:induction false} SumRankGrows(was: Store, next: Store, ids: set<string>, hit: set<string>)
    requires hit <= ids <= was.Keys && ids <= next.Keys
    requires forall id <- ids :: Rank(was[id].state) <= Rank(next[id].state)
    requires forall id <- hit :: Rank(was[id].state) < Rank(next[id].state)
    ensures SumRank(was, ids) + |hit| <= SumRank(next, ids)
  {
    if ids != {} {
      var id :| id in ids;
      SumRankSplit(was, ids, id);
      SumRankSplit(next, ids, id);
      SumRankGrows(was, next, ids - {id}, hit - {id});
      assert |hit - {id}| == |hit| - if id in hit then 1 else 0;
    }
  }

  lemma StepFeedsRank(s: Step, store: Store)
    ensures var next := Apply(s.op, s.now, store).0;
            SumRank(store, store.Keys) + Transitions(s, store) <= SumRank(next, next.Keys)
  {
    var next := Apply(s.op, s.now, store).0;
    if Guard(s.op, store).None? {
      if s.op.Create? {
        SumRankSplit(next, next.Keys, s.op.id);
        assert next.Keys - {s.op.id} == store.Keys;
        SumRankGrows(store, next, store.Keys, {});
      } else {
        var hit := if IsLifecycle(s.op) then HitSet(s.op, s.now, store) else {};
        forall id <- store.Keys
          ensures Rank(store[id].state) <= Rank(next[id].state)
          ensures id in hit ==> Rank(store[id].state) < Rank(next[id].state)
        {
          if IsLifecycle(s.op) {
            SuccessRaisesRank(s.op, s.now, store, id);
          } else {
            assert next[id].state == store[id].state;
          }
        }
        SumRankGrows(store, next, store.Keys, hit);
      }
    }
  }

  lemma {:induction false} RankPaysForTransitions(steps: seq<Step>)
    ensures var end := Run(steps, map[]);
            && TotalTransitions(steps, map[]) <= SumRank(end, end.Keys)
            && SuccessfulCreates(steps, map[]) == |end|
  {
    if steps != [] {
      var front, last := steps[..|steps| - 1], steps[|steps| - 1];
      RankPaysForTransitions(front);
      StepFeedsRank(last, Run(front, map[]));
      var was, end := Run(front, map[]), Run(steps, map[]);
      assert |end| == |end.Keys| && |was| == |was.Keys|;
    }
  }

  /** In every serial run, at most three transitions succeed for each session created. */
  lemma TransitionsAreBounded(steps: seq<Step>)
    ensures TotalTransitions(steps, map[]) <= 3 * SuccessfulCreates(steps, map[])
  {
    RankPaysForTransitions(steps);
    var end := Run(steps, map[]);
    SumRankAtMost(end, end.Keys);
    assert |end| == |end.Keys|;
  }

  // ---- Timestamps -------------------------------------------------------------------------

  /** How a row's application-clock columns relate to its state and to one another. */
  ghost predicate TimesAgree(row: Session) {
    && row.startedAt == row.createdAt <= row.updatedAt
    && (row.state == Requested ==> row.updatedAt == row.createdAt)
    && (row.connectedAt.Some? ==>
          && row.createdAt <= row.connectedAt.value <= row.updatedAt
          && (row.state == Active || row.state == Disconnected)
          && (row.state == Active ==> row.updatedAt == row.connectedAt.value))
    && (row.disconnectedAt.Some? ==>
          && row.state == Disconnected
          && row.updatedAt == row.disconnectedAt.value
          && row.createdAt <= row.disconnectedAt.value
          && (row.connectedAt.Some? ==> row.connectedAt.value <= row.disconnectedAt.value))
  }

  ghost predicate AllTimesAgree(store: Store) {
    forall id <- store :: TimesAgree(store[id])
  }

  ghost predicate UpdatedBy(store: Store, bound: Time) {
    forall id <- store :: store[id].updatedAt <= bound
  }

  /** A guarded write keeps the row's times in order whenever its own reading is not behind that row. */
  lemma GuardedWriteKeepsTimes(op: Op, now: Time, store: Store)
    requires Guard(op, store).None? && AllTimesAgree(store)
    requires forall id <- store :: Hits(op, now, id, store[id]) && !IsGui(op) ==> store[id].updatedAt <= now
    ensures AllTimesAgree(Write(op, now, store))
  {
    var next := Write(op, now, store);
    forall id <- next
      ensures TimesAgree(next[id])
    {
      if id in store && !op.Create? {
        assert TimesAgree(store[id]);
      }
    }
  }

  /** The readings of the application clock never go back along the run. */
  ghost predicate ClockOrdered(steps: seq<Step>) {
    forall i, j :: 0 <= i < j < |steps| && !IsGui(steps[i].op) && !IsGui(steps[j].op) ==> steps[i].now <= steps[j].now
  }

  lemma CallKeepsTimes(s: Step, store: Store, bound: Time)
    requires AllTimesAgree(store) && UpdatedBy(store, if IsGui(s.op) then bound else s.now)
    requires !IsGui(s.op) ==> s.now <= bound
    ensures AllTimesAgree(Apply(s.op, s.now, store).0)
    ensures UpdatedBy(Apply(s.op, s.now, store).0, bound)
  {
    if Guard(s.op, store).None? {
      GuardedWriteKeepsTimes(s.op, s.now, store);
    }
  }

  lemma {:induction false} SerialTimes(steps: seq<Step>, bound: Time)
    requires ClockOrdered(steps)
    requires forall i :: 0 <= i < |steps| && !IsGui(steps[i].op) ==> steps[i].now <= bound
    ensures AllTimesAgree(Run(steps, map[]))
    ensures UpdatedBy(Run(steps, map[]), bound)
  {
    if steps != [] {
      var front, last := steps[..|steps| - 1], steps[|steps| - 1];
      SerialTimes(front, if IsGui(last.op) then bound else last.now);
      CallKeepsTimes(last, Run(front, map[]), bound);
    }
  }

  /** Without any assumption on the clock: only a DISCONNECTED row carries a disconnect time. */
  lemma {:induction false} DisconnectTimeMeansDisconnected(steps: seq<Step>, id: string)
    requires id in Run(steps, map[]) && Run(steps, map[])[id].disconnectedAt.Some?
    ensures Run(steps, map[])[id].state == Disconnected
  {
    var front, last := steps[..|steps| - 1], steps[|steps| - 1];
    var before := Run(front, map[]);
    if id in before && before[id].disconnectedAt.Some? {
      DisconnectTimeMeansDisconnected(front, id);
      DisconnectedIsFinal([last], before, id);
      assert [last][..0] == [];
      assert Run([last], before) == Run(steps, map[]);
    }
  }

  // ---- A row tells its history ------------------------------------------------------------

  /** The step succeeded and wrote the lifecycle columns of session `id`. */
  predicate WroteLifecycle(s: Step, before: Store, id: string) {
    && Guard(s.op, before).None?
    && if s.op.Create? then s.op.id == id else IsLifecycle(s.op) && id in HitSet(s.op, s.now, before)
  }

  /** The last step of the run that wrote the lifecycle columns of session `id`. */
  function LastWrite(steps: seq<Step>, id: string): Option<Step> {
    if steps == [] then None
    else
      var front, last := steps[..|steps| - 1], steps[|steps| - 1];
      if WroteLifecycle(last, Run(front, map[]), id) then Some(last) else LastWrite(front, id)
  }

  /** The time of the last successful MarkConnected of session `id`. */
  function MarkedAt(steps: seq<Step>, id: string): Option<Time> {
    if steps == [] then None
    else
      var front, last := steps[..|steps| - 1], steps[|steps| - 1];
      if last.op.MarkConnected? && WroteLifecycle(last, Run(front, map[]), id) then Some(last.now)
      else MarkedAt(front, id)
  }

  /** Where a call takes the sessions it writes. */
  function Target(op: Op): State {
    match op
    case Update(_, newState) => StateOf(newState)
    case MarkConnected(_) => Active
    case Disconnect(_, _) => Disconnected
    case Cleanup => Disconnected
    case _ => Requested
  }

  /** The reason a call gives for disconnecting, if it records one. */
  function ReasonOf(op: Op): Option<string> {
    match op
    case Disconnect(_, reason) => Some(reason)
    case Cleanup => Some("cert_expired")
    case _ => None
  }

  /**
   * In every serial run a row's lifecycle columns are read off the run: its state, its update time and its
   * disconnect columns come from the last call that wrote it, its connect time from the last successful
   * MarkConnected.
   */
  lemma {:induction false} RowTellsItsHistory(steps: seq<Step>, id: string)
    requires id in Run(steps, map[])
    ensures
      var row, last := Run(steps, map[])[id], LastWrite(steps, id);
      && last.Some?
      && row.state == Target(last.value.op) && row.updatedAt == last.value.now
      && row.disconnectReason == ReasonOf(last.value.op)
      && row.disconnectedAt == (if ReasonOf(last.value.op).Some? then Some(last.value.now) else None)
      && row.connectedAt == MarkedAt(steps, id)
  {
    var front, last := steps[..|steps| - 1], steps[|steps| - 1];
    var before := Run(front, map[]);
    if id in before {
      RowTellsItsHistory(front, id);
      WriteShowsOnRow(last, before, id);
    } else {
      NotMarkedBeforeCreation(front, id);
    }
  }

  lemma WriteShowsOnRow(s: Step, before: Store, id: string)
    requires id in before
    ensures var row, was := Apply(s.op, s.now, before).0[id], before[id];
            if WroteLifecycle(s, before, id) then row == WriteRow(s.op, s.now, was) && was.state != Disconnected
            else row == was.(gui := row.gui)
  {
  }

  lemma {:induction false} NotMarkedBeforeCreation(steps: seq<Step>, id: string)
    requires id !in Run(steps, map[])
    ensures MarkedAt(steps, id).None?
  {
    if steps != [] {
      NotMarkedBeforeCreation(steps[..|steps| - 1], id);
    }
  }

  /** The first step of the run that creates session `id`. */
  function CreationOf(steps: seq<Step>, id: string): Option<Step> {
    if steps == [] then None
    else
      var earlier, last := CreationOf(steps[..|steps| - 1], id), steps[|steps| - 1];
      if earlier.Some? then earlier
      else if last.op.Create? && last.op.id == id then Some(last)
      else None
  }

  /** A session exists iff some step created it, and keeps what the first such step gave it. */
  lemma {:induction false} RowKeepsItsCreation(steps: seq<Step>, id: string)
    ensures id in Run(steps, map[]) <==> CreationOf(steps, id).Some?
    ensures id in Run(steps, map[]) ==>
              var row, s := Run(steps, map[])[id], CreationOf(steps, id).value;
              && s.op.Create? && row.id == s.op.id == id
              && row.userId == s.op.userId && row.deviceId == s.op.deviceId
              && row.certSerial == s.op.certSerial && row.certExpiresAt == s.op.certExpiresAt
              && row.createdAt == row.startedAt == s.now
              && row.sshPort == 2222 && row.recordingId == None
  {
    if steps != [] {
      var front, last := steps[..|steps| - 1], steps[|steps| - 1];
      RowKeepsItsCreation(front, id);
      if id in Run(front, map[]) {
        WriteShowsOnRow(last, Run(front, map[]), id);
      }
    }
  }

  // ---- Cleanup ----------------------------------------------------------------------------

  /** One DisconnectSession call with the cleanup's reason for each listed session. */
  function Sweep(ids: seq<string>, now: Time): seq<Step> {
    seq(|ids|, i requires 0 <= i < |ids| => Step(Disconnect(ids[i], "cert_expired"), now))
  }

  lemma {:induction false} SweepResult(ids: seq<string>, now: Time, store: Store)
    ensures Run(Sweep(ids, now), store).Keys == store.Keys
    ensures forall id <- store ::
              Run(Sweep(ids, now), store)[id]
              == if id in ids && store[id].state != Disconnected then Closed(store[id], "cert_expired", now)
                 else store[id]
  {
    if ids != [] {
      var front := ids[..|ids| - 1];
      SweepResult(front, now, store);
      assert Sweep(ids, now)[..|ids| - 1] == Sweep(front, now);
      assert ids == front + [ids[|ids| - 1]];
    }
  }

  /**
   * Cleanup is DisconnectSession with reason "cert_expired" over the open sessions whose certificate
   * expired strictly before `now`, taken in any order.
   */
  lemma CleanupIsASweep(ids: seq<string>, now: Time, store: Store)
    requires forall id :: id in ids <==> id in store && store[id].state != Disconnected && store[id].certExpiresAt < now
    ensures Run(Sweep(ids, now), store) == Apply(Cleanup, now, store).0
  {
    SweepResult(ids, now, store);
    forall id <- store
      ensures Run(Sweep(ids, now), store)[id] == Write(Cleanup, now, store)[id]
    {
    }
  }

  /** Listed once each, none of those calls fails. */
  lemma {:induction false} SweepSucceeds(ids: seq<string>, now: Time, store: Store)
    requires forall id <- ids :: id in store && store[id].state != Disconnected
    requires forall i, j :: 0 <= i < j < |ids| ==> ids[i] != ids[j]
    ensures forall o <- Outcomes(Sweep(ids, now), store) :: o == Ok
  {
    if ids != [] {
      var front, last := ids[..|ids| - 1], ids[|ids| - 1];
      SweepSucceeds(front, now, store);
      SweepResult(front, now, store);
      assert Sweep(ids, now)[..|ids| - 1] == Sweep(front, now);
      assert last !in front;
    }
  }

  function ClosedIds(store: Store): set<string> {
    set id | id in store && store[id].state == Disconnected
  }

  /** An earlier cleanup only decides which reading a row is stamped with, never which rows end up closed. */
  lemma CleanupTwice(t1: Time, t2: Time, store: Store)
    requires t1 <= t2
    ensures
      var once := Write(Cleanup, t2, store);
      var twice := Write(Cleanup, t2, Write(Cleanup, t1, store));
      && ClosedIds(twice) == ClosedIds(once)
      && (forall id <- store :: twice[id] == if Hits(Cleanup, t1, id, store[id])
                                             then Closed(store[id], "cert_expired", t1) else once[id])
      && (t1 == t2 ==> twice == once)
  {
    var first := Write(Cleanup, t1, store);
    var once, twice := Write(Cleanup, t2, store), Write(Cleanup, t2, first);
    forall id <- store
      ensures twice[id] == if Hits(Cleanup, t1, id, store[id]) then Closed(store[id], "cert_expired", t1) else once[id]
    {
      assert first[id] == if Hits(Cleanup, t1, id, store[id]) then Closed(store[id], "cert_expired", t1) else store[id];
    }
  }
}
