/** How many transitions can succeed when calls overlap. */
module OverlapBound {
  import opened Sessions
  import opened Interleaving
  import opened Reduction
  import opened SerialRuns

  /** In every reachable state, the UPDATE of a call raises its session's rank exactly when it is fresh. */
  lemma RaisesRankIffFresh(run: seq<Event>, e: Event)
    requires var w := After(run); Enabled(w, e) && e.Execute? && ReadsThenWrites(w.calls[e.call].op)
    ensures
      var w, next := After(run), Next(After(run), e);
      var id := w.calls[e.call].op.id;
      && id in w.store && id in next.store
      && (Rank(w.store[id].state) < Rank(next.store[id].state) <==> FreshAt(w, e))
  {
    EveryStateIsSound(run);
    EveryWindowIsSound(run);
    StepRaisesRankIffFresh(After(run), e);
  }

  lemma StepRaisesRankIffFresh(w: World, e: Event)
    requires Sound(w) && WindowsSound(w)
    requires Enabled(w, e) && e.Execute? && ReadsThenWrites(w.calls[e.call].op)
    ensures
      var next, id := Next(w, e), w.calls[e.call].op.id;
      && id in w.store && id in next.store
      && (Rank(w.store[id].state) < Rank(next.store[id].state) <==> FreshAt(w, e))
  {
    var op := w.calls[e.call].op;
    assert InWindow(w.calls[e.call]);
    assert PendingSound(w.calls[e.call]) && RowSound(op.id, w.store[op.id]);
    assert Next(w, e).store[op.id] == WriteRow(op, StampOf(w, e), w.store[op.id]);
  }

  /** The sessions a lifecycle statement moves; a cleanup counts once for each row it closes. */
  function TransitionsAt(w: World, e: Event): nat {
    if Enabled(w, e) && e.Execute? && IsLifecycle(w.calls[e.call].op)
    then |HitSet(w.calls[e.call].op, StampOf(w, e), w.store)|
    else 0
  }

  /** All transitions of the run. */
  function TransitionsIn(run: seq<Event>): nat {
    if run == [] then 0
    else TransitionsIn(run[..|run| - 1]) + TransitionsAt(After(run[..|run| - 1]), run[|run| - 1])
  }

  /** The UPDATEs of the run whose check would by then have failed. */
  function StaleWrites(run: seq<Event>): nat {
    if run == [] then 0
    else StaleWrites(run[..|run| - 1]) + if FreshAt(After(run[..|run| - 1]), run[|run| - 1]) then 0 else 1
  }

  lemma {:induction false} FreshIffNoneStale(run: seq<Event>)
    ensures Fresh(run) <==> StaleWrites(run) == 0
  {
    if run != [] {
      FreshIffNoneStale(run[..|run| - 1]);
      FreshSnoc(run);
    }
  }

  /** A stale UPDATE is one transition, and takes its session down by two ranks at most. */
  lemma StaleStepCosts(w: World, e: Event)
    requires Sound(w) && WindowsSound(w) && !FreshAt(w, e)
    ensures TransitionsAt(w, e) == 1
    ensures var next := Next(w, e);
            SumRank(w.store, w.store.Keys) + 1 <= SumRank(next.store, next.store.Keys) + 3
  {
    var next, op, id := Next(w, e), w.calls[e.call].op, w.calls[e.call].op.id;
    assert InWindow(w.calls[e.call]) && PendingSound(w.calls[e.call]);
    assert HitSet(op, StampOf(w, e), w.store) == {id};
    assert next.store.Keys == w.store.Keys;
    OneRowMoves(w.store, next.store, id);
  }

  /** A row that ends at rank 1 or more has lost at most two ranks. */
  lemma OneRowMoves(was: Store, next: Store, id: string)
    requires next.Keys == was.Keys && id in was && Rank(next[id].state) >= 1
    requires forall other <- was :: other != id ==> next[other] == was[other]
    ensures SumRank(was, was.Keys) + 1 <= SumRank(next, next.Keys) + 3
  {
    SumRankSplit(was, was.Keys, id);
    SumRankSplit(next, was.Keys, id);
    SumRankGrows(was, next, was.Keys - {id}, {});
  }

  lemma OtherStepsFeedRank(w: World, e: Event)
    requires FreshAt(w, e)
    ensures var next := Next(w, e);
            SumRank(w.store, w.store.Keys) + TransitionsAt(w, e) <= SumRank(next.store, next.store.Keys)
  {
    if Enabled(w, e) && (e.Execute? || e.ExecuteGui?) {
      var op, now := w.calls[e.call].op, StampOf(w, e);
      assert Next(w, e).store == Apply(op, now, w.store).0;
      StepFeedsRank(Step(op, now), w.store);
    }
  }

  lemma {:induction false} RankPaysUnderOverlap(run: seq<Event>)
    ensures var store := After(run).store;
            TransitionsIn(run) <= SumRank(store, store.Keys) + 3 * StaleWrites(run)
  {
    if run != [] {
      var front, e := run[..|run| - 1], run[|run| - 1];
      RankPaysUnderOverlap(front);
      if FreshAt(After(front), e) {
        OtherStepsFeedRank(After(front), e);
      } else {
        EveryStateIsSound(front);
        EveryWindowIsSound(front);
        StaleStepCosts(After(front), e);
      }
    }
  }

  /** In every interleaving, three transitions for each session and three more for each stale UPDATE suffice. */
  lemma TransitionsUnderOverlap(run: seq<Event>)
    ensures TransitionsIn(run) <= 3 * (|After(run).store| + StaleWrites(run))
  {
    var store := After(run).store;
    RankPaysUnderOverlap(run);
    SumRankAtMost(store, store.Keys);
    assert |store| == |store.Keys|;
  }

  /** So the serial bound holds in every run whose UPDATEs are fresh. */
  lemma FreshRunsMeetTheBound(run: seq<Event>)
    requires Fresh(run)
    ensures TransitionsIn(run) <= 3 * |After(run).store|
  {
    FreshIffNoneStale(run);
    TransitionsUnderOverlap(run);
  }
}
