/**
 * Undisturbed runs have a serial order in which the clock never goes back.
 *
 * A call reads the clock before its statement runs, so in the order in which calls take effect their
 * timestamps can go back.  When a statement runs, its call is moved in front of the calls with later
 * readings, which commute with it; rejected calls that depend on what it writes move along.
 */
module ClockOrder {
  import opened Common
  import opened Sessions
  import opened Interleaving
  import opened Reduction
  import opened SerialRuns
  import opened Serializability
  import GuiSessions
  import OverlapTimes

  /** The call read the application clock: it wrote, or it is a creation refused by the primary key. */
  predicate ReadsClock(c: Commit) {
    !IsGui(c.step.op) && (c.outcome == Ok || c.step.op.Create?)
  }

  ghost predicate InClockOrder(order: seq<Commit>) {
    forall i, j :: 0 <= i < j < |order| && ReadsClock(order[i]) && ReadsClock(order[j]) ==>
      order[i].step.now <= order[j].step.now
  }

  // ---- Replaying calls together with the rows they write ----------------------------------

  datatype Entry = Entry(commit: Commit, hits: set<string>) {
    function Op(): Op { commit.step.op }
    function Now(): Time { commit.step.now }
  }

  function CommitsOf(entries: seq<Entry>): (r: seq<Commit>)
    ensures |r| == |entries|
  {
    seq(|entries|, i requires 0 <= i < |entries| => entries[i].commit)
  }

  function EndOf(entries: seq<Entry>): Store {
    if entries == [] then map[]
    else
      var last := entries[|entries| - 1];
      Apply(last.Op(), last.Now(), EndOf(entries[..|entries| - 1])).0
  }

  /** From this store the call has its result and writes its rows. */
  predicate Fits(e: Entry, store: Store) {
    && Apply(e.Op(), e.Now(), store).1 == e.commit.outcome
    && (e.commit.outcome == Ok ==> e.hits == HitSet(e.Op(), e.Now(), store))
  }

  predicate Replays(entries: seq<Entry>) {
    entries == []
    || var front := entries[..|entries| - 1];
       Replays(front) && Fits(entries[|entries| - 1], EndOf(front))
  }

  lemma ReplaysSnoc(entries: seq<Entry>, e: Entry)
    ensures EndOf(entries + [e]) == Apply(e.Op(), e.Now(), EndOf(entries)).0
    ensures Replays(entries + [e]) <==> Replays(entries) && Fits(e, EndOf(entries))
    ensures CommitsOf(entries + [e]) == CommitsOf(entries) + [e.commit]
  {
    assert (entries + [e])[..|entries|] == entries;
  }

  lemma {:induction false} ReplaysMeansSerial(entries: seq<Entry>)
    requires Replays(entries)
    ensures Outcomes(Steps(CommitsOf(entries)), map[]) == Results(CommitsOf(entries))
    ensures Run(Steps(CommitsOf(entries)), map[]) == EndOf(entries)
  {
    if entries != [] {
      var front, last := entries[..|entries| - 1], entries[|entries| - 1];
      assert entries == front + [last];
      ReplaysMeansSerial(front);
      ReplaysSnoc(front, last);
      LogSnoc(CommitsOf(front), last.commit);
      RunSnoc(Steps(CommitsOf(front)), last.commit.step, map[]);
    }
  }

  // ---- Moving a call to an earlier place --------------------------------------------------

  /** The rows a call may write, whatever their state: its own session, or all that have expired. */
  function AimOf(op: Op, now: Time, store: Store): set<string> {
    if ReadsThenWrites(op) then {op.id} else set id | id in store && store[id].certExpiresAt < now
  }

  /** A rejected call that looked at one of the rows. */
  predicate RejectedOn(e: Entry, aim: set<string>) {
    ReadsThenWrites(e.Op()) && e.commit.outcome != Ok && e.Op().id in aim
  }

  ghost predicate AllRejected(entries: seq<Entry>, aim: set<string>, store: Store) {
    forall e <- entries :: RejectedOn(e, aim) && Fits(e, store)
  }

  predicate Movable(x: Entry, aim: set<string>, store: Store) {
    IsLifecycle(x.Op()) && x.commit.outcome == Ok && Fits(x, store) && AimOf(x.Op(), x.Now(), store) == aim
  }

  /** Nothing that a call aiming at these rows looks at is different. */
  ghost predicate LooksTheSame(a: Store, b: Store, aim: set<string>) {
    && a.Keys == b.Keys
    && (forall id <- a :: a[id].certExpiresAt == b[id].certExpiresAt)
    && (forall id <- a :: id in aim ==> a[id].state == b[id].state)
  }

  lemma MovableLooksAtItsRows(x: Entry, aim: set<string>, a: Store, b: Store)
    requires LooksTheSame(a, b, aim) && Movable(x, aim, b)
    ensures Movable(x, aim, a)
  {
    assert AimOf(x.Op(), x.Now(), a) == AimOf(x.Op(), x.Now(), b);
    assert HitSet(x.Op(), x.Now(), a) == HitSet(x.Op(), x.Now(), b);
  }

  lemma RejectedLooksAtItsRow(zs: seq<Entry>, aim: set<string>, a: Store, b: Store)
    requires LooksTheSame(a, b, aim) && AllRejected(zs, aim, b)
    ensures AllRejected(zs, aim, a)
  {
    forall z | z in zs
      ensures Fits(z, a)
    {
      assert RejectedOn(z, aim) && Fits(z, b);
      assert Guard(z.Op(), a) == Guard(z.Op(), b);
    }
  }

  /** What `b` does, and that it does the same right after `x`. */
  ghost predicate Swaps(b: Entry, x: Entry, aim: set<string>, store: Store) {
    var afterB, afterX := Apply(b.Op(), b.Now(), store).0, Apply(x.Op(), x.Now(), store).0;
    && LooksTheSame(store, afterB, aim)
    && Fits(b, afterX)
    && Apply(b.Op(), b.Now(), afterX).0 == Apply(x.Op(), x.Now(), afterB).0
  }

  lemma RejectedSwaps(b: Entry, x: Entry, aim: set<string>, store: Store)
    requires Fits(b, store) && Movable(x, aim, store)
    requires ReadsThenWrites(b.Op()) && b.commit.outcome != Ok && b.Op().id !in aim
    ensures Swaps(b, x, aim, store)
  {
    var afterX := Apply(x.Op(), x.Now(), store).0;
    assert b.Op().id in store ==> afterX[b.Op().id] == store[b.Op().id];
    assert Guard(b.Op(), afterX) == Guard(b.Op(), store);
  }

  lemma GuiSwaps(b: Entry, x: Entry, aim: set<string>, store: Store)
    requires Fits(b, store) && Movable(x, aim, store) && IsGui(b.Op())
    ensures Swaps(b, x, aim, store)
  {
    var afterX := Apply(x.Op(), x.Now(), store).0;
    GuiSessions.StepsCommute(x.commit.step, b.commit.step, store);
    assert HitSet(b.Op(), b.Now(), afterX) == HitSet(b.Op(), b.Now(), store);
  }

  lemma LifecycleLooksTheSame(b: Entry, aim: set<string>, store: Store)
    requires Fits(b, store) && b.commit.outcome == Ok && IsLifecycle(b.Op()) && b.hits !! aim
    ensures LooksTheSame(store, Write(b.Op(), b.Now(), store), aim)
  {
    forall id | id in store && id in aim
      ensures !Hits(b.Op(), b.Now(), id, store[id])
    {
      assert id !in b.hits;
    }
  }

  /** A movable call puts no row in reach of a write of other rows, and takes none out of it. */
  lemma HitsStay(b: Entry, x: Entry, aim: set<string>, store: Store)
    requires Fits(b, store) && b.commit.outcome == Ok && IsLifecycle(b.Op()) && b.hits !! aim
    requires Movable(x, aim, store)
    ensures Fits(b, Write(x.Op(), x.Now(), store))
  {
    var afterX := Write(x.Op(), x.Now(), store);
    forall id | id in store
      ensures Hits(b.Op(), b.Now(), id, afterX[id]) <==> Hits(b.Op(), b.Now(), id, store[id])
    {
      assert id in b.hits <==> Hits(b.Op(), b.Now(), id, store[id]);
      assert Hits(x.Op(), x.Now(), id, store[id]) ==> id in aim && store[id].state != Disconnected;
    }
    assert HitSet(b.Op(), b.Now(), afterX) == b.hits;
    if ReadsThenWrites(b.Op()) {
      assert b.Op().id in b.hits;
      assert afterX[b.Op().id] == store[b.Op().id];
    }
  }

  lemma OneRowOfEach(p: Op, t: Time, q: Op, u: Time, store: Store, id: string)
    requires !p.Create? && !q.Create? && id in store && HitSet(p, t, store) !! HitSet(q, u, store)
    requires HitSet(p, t, Write(q, u, store)) == HitSet(p, t, store)
    requires HitSet(q, u, Write(p, t, store)) == HitSet(q, u, store)
    ensures Write(p, t, Write(q, u, store))[id] == Write(q, u, Write(p, t, store))[id]
  {
    var afterP, afterQ := Write(p, t, store), Write(q, u, store);
    assert id in HitSet(p, t, store) <==> Hits(p, t, id, store[id]);
    assert id in HitSet(q, u, store) <==> Hits(q, u, id, store[id]);
    assert id in HitSet(p, t, afterQ) <==> Hits(p, t, id, afterQ[id]);
    assert id in HitSet(q, u, afterP) <==> Hits(q, u, id, afterP[id]);
  }

  lemma DisjointWritesCommute(p: Op, t: Time, q: Op, u: Time, store: Store)
    requires !p.Create? && !q.Create? && HitSet(p, t, store) !! HitSet(q, u, store)
    requires HitSet(p, t, Write(q, u, store)) == HitSet(p, t, store)
    requires HitSet(q, u, Write(p, t, store)) == HitSet(q, u, store)
    ensures Write(p, t, Write(q, u, store)) == Write(q, u, Write(p, t, store))
  {
    forall id | id in store
      ensures Write(p, t, Write(q, u, store))[id] == Write(q, u, Write(p, t, store))[id]
    {
      OneRowOfEach(p, t, q, u, store, id);
    }
  }

  lemma HitsWithinAim(x: Entry, aim: set<string>, store: Store)
    requires Movable(x, aim, store)
    ensures x.hits <= aim
  {
  }

  lemma LifecycleSwaps(b: Entry, x: Entry, aim: set<string>, store: Store)
    requires Fits(b, store) && b.commit.outcome == Ok && IsLifecycle(b.Op()) && b.hits !! aim
    requires Movable(x, aim, store)
    ensures Swaps(b, x, aim, store)
  {
    var afterB := Write(b.Op(), b.Now(), store);
    LifecycleLooksTheSame(b, aim, store);
    SameBackwards(store, afterB, aim);
    MovableLooksAtItsRows(x, aim, afterB, store);
    HitsStay(b, x, aim, store);
    HitsWithinAim(x, aim, store);
    DisjointWritesCommute(b.Op(), b.Now(), x.Op(), x.Now(), store);
    AppliesAreWrites(b, x, aim, store);
  }

  lemma SameBackwards(a: Store, b: Store, aim: set<string>)
    requires LooksTheSame(a, b, aim)
    ensures LooksTheSame(b, a, aim)
  {
  }

  /** Both succeed in either order, so their statements are all there is to compare. */
  lemma AppliesAreWrites(b: Entry, x: Entry, aim: set<string>, store: Store)
    requires b.commit.outcome == Ok && Fits(b, store) && Fits(b, Write(x.Op(), x.Now(), store))
    requires Movable(x, aim, store) && Movable(x, aim, Write(b.Op(), b.Now(), store))
    ensures Apply(b.Op(), b.Now(), store).0 == Write(b.Op(), b.Now(), store)
    ensures Apply(x.Op(), x.Now(), store).0 == Write(x.Op(), x.Now(), store)
    ensures var afterB, afterX := Write(b.Op(), b.Now(), store), Write(x.Op(), x.Now(), store);
            && Apply(b.Op(), b.Now(), afterX).0 == Write(b.Op(), b.Now(), afterX)
            && Apply(x.Op(), x.Now(), afterB).0 == Write(x.Op(), x.Now(), afterB)
  {
  }

  ghost predicate Sorted(entries: seq<Entry>) {
    forall i, j :: 0 <= i < j < |entries| && ReadsClock(entries[i].commit) && ReadsClock(entries[j].commit) ==>
      entries[i].Now() <= entries[j].Now()
  }

  /** The entry does not stand in the way of a call with this reading and these rows. */
  predicate Yields(b: Entry, now: Time, aim: set<string>) {
    ReadsClock(b.commit) && now < b.Now() ==> IsLifecycle(b.Op()) && b.hits !! aim
  }

  /** One place to the left: rejected calls `zs` and then `x` go before `b` instead of after it. */
  lemma OnePlace(b: Entry, zs: seq<Entry>, x: Entry, aim: set<string>, store: Store)
    requires Fits(b, store) && Yields(b, x.Now(), aim)
    requires !RejectedOn(b, aim) && (ReadsClock(b.commit) ==> x.Now() < b.Now())
    requires var afterB := Apply(b.Op(), b.Now(), store).0; AllRejected(zs, aim, afterB) && Movable(x, aim, afterB)
    ensures AllRejected(zs, aim, store) && Movable(x, aim, store) && Swaps(b, x, aim, store)
  {
    var afterB := Apply(b.Op(), b.Now(), store).0;
    BeforeLooksTheSame(b, aim, store);
    RejectedLooksAtItsRow(zs, aim, store, afterB);
    MovableLooksAtItsRows(x, aim, store, afterB);
    if IsGui(b.Op()) {
      GuiSwaps(b, x, aim, store);
    } else if ReadsClock(b.commit) {
      LifecycleSwaps(b, x, aim, store);
    } else {
      RejectedSwaps(b, x, aim, store);
    }
  }

  lemma BeforeLooksTheSame(b: Entry, aim: set<string>, store: Store)
    requires Fits(b, store) && (ReadsClock(b.commit) ==> IsLifecycle(b.Op()) && b.hits !! aim)
    ensures LooksTheSame(store, Apply(b.Op(), b.Now(), store).0, aim)
  {
    if b.commit.outcome == Ok && !IsGui(b.Op()) {
      LifecycleLooksTheSame(b, aim, store);
    }
  }

  lemma SortedSnoc(entries: seq<Entry>, e: Entry)
    requires Sorted(entries)
    requires ReadsClock(e.commit) ==> forall other <- entries :: ReadsClock(other.commit) ==> other.Now() <= e.Now()
    ensures Sorted(entries + [e])
  {
  }

  lemma AppendOneRejected(entries: seq<Entry>, z: Entry, aim: set<string>)
    requires Replays(entries) && Sorted(entries) && RejectedOn(z, aim) && Fits(z, EndOf(entries))
    ensures Replays(entries + [z]) && Sorted(entries + [z]) && EndOf(entries + [z]) == EndOf(entries)
  {
    ReplaysSnoc(entries, z);
    SortedSnoc(entries, z);
  }

  lemma {:induction false} AppendRejected(entries: seq<Entry>, zs: seq<Entry>, aim: set<string>, all: seq<Entry>)
    requires all == entries + zs
    requires Replays(entries) && AllRejected(zs, aim, EndOf(entries)) && Sorted(entries)
    ensures Replays(all) && EndOf(all) == EndOf(entries) && Sorted(all)
    decreases |zs|
  {
    if zs == [] {
      assert all == entries;
    } else {
      var z, rest := zs[0], zs[1..];
      assert z in zs && forall other <- rest :: other in zs;
      AppendOneRejected(entries, z, aim);
      assert all == (entries + [z]) + rest;
      AppendRejected(entries + [z], rest, aim, all);
    }
  }

  /** The entries are those given, in some order. */
  ghost predicate Rearranges(r: seq<Entry>, entries: seq<Entry>, zs: seq<Entry>, x: Entry) {
    && multiset(CommitsOf(r)) == multiset(CommitsOf(entries)) + multiset(CommitsOf(zs)) + multiset{x.commit}
    && forall e <- r :: e in entries || e in zs || e == x
  }

  lemma CommitsOfConcat(a: seq<Entry>, b: seq<Entry>)
    ensures CommitsOf(a + b) == CommitsOf(a) + CommitsOf(b)
  {
  }

  lemma CommitsOfOne(e: Entry)
    ensures CommitsOf([e]) == [e.commit]
  {
  }

  lemma RearrangesAtTheEnd(entries: seq<Entry>, zs: seq<Entry>, x: Entry)
    ensures Rearranges(entries + zs + [x], entries, zs, x)
  {
    CommitsOfConcat(entries + zs, [x]);
    CommitsOfConcat(entries, zs);
    CommitsOfOne(x);
  }

  lemma RearrangesTakingAlong(r: seq<Entry>, front: seq<Entry>, b: Entry, zs: seq<Entry>, x: Entry)
    requires Rearranges(r, front, [b] + zs, x)
    ensures Rearranges(r, front + [b], zs, x)
  {
    CommitsOfConcat([b], zs);
    CommitsOfConcat(front, [b]);
    CommitsOfOne(b);
  }

  lemma RearrangesPassing(before: seq<Entry>, front: seq<Entry>, b: Entry, zs: seq<Entry>, x: Entry)
    requires Rearranges(before, front, zs, x)
    ensures Rearranges(before + [b], front + [b], zs, x)
  {
    CommitsOfConcat(before, [b]);
    CommitsOfConcat(front, [b]);
    CommitsOfOne(b);
  }

  predicate EndsBy(entries: seq<Entry>, now: Time) {
    entries == [] || (ReadsClock(entries[|entries| - 1].commit) && entries[|entries| - 1].Now() <= now)
  }

  lemma LastIsLatest(entries: seq<Entry>, now: Time)
    requires Sorted(entries) && EndsBy(entries, now)
    ensures forall e <- entries :: ReadsClock(e.commit) ==> e.Now() <= now
  {
  }

  /** Where `x` stops: behind a call that read the clock no later. */
  lemma Settle(entries: seq<Entry>, zs: seq<Entry>, x: Entry, aim: set<string>, all: seq<Entry>)
    requires Replays(entries) && Sorted(entries) && EndsBy(entries, x.Now()) && all == entries + zs
    requires AllRejected(zs, aim, EndOf(entries)) && Movable(x, aim, EndOf(entries))
    ensures Replays(all + [x]) && Sorted(all + [x]) && EndOf(all + [x]) == Apply(x.Op(), x.Now(), EndOf(entries)).0
  {
    LastIsLatest(entries, x.Now());
    AppendRejected(entries, zs, aim, all);
    ReplaysSnoc(all, x);
    forall e | e in all && ReadsClock(e.commit)
      ensures e.Now() <= x.Now()
    {
      assert e in entries || RejectedOn(e, aim);
    }
    SortedSnoc(all, x);
  }

  lemma TakeAlong(front: seq<Entry>, b: Entry, zs: seq<Entry>, x: Entry, aim: set<string>)
    requires Replays(front + [b]) && RejectedOn(b, aim)
    requires AllRejected(zs, aim, EndOf(front + [b])) && Movable(x, aim, EndOf(front + [b]))
    ensures EndOf(front + [b]) == EndOf(front) && AllRejected([b] + zs, aim, EndOf(front))
  {
    ReplaysSnoc(front, b);
  }

  lemma PassOne(front: seq<Entry>, b: Entry, x: Entry, aim: set<string>, before: seq<Entry>)
    requires Replays(before) && Sorted(before) && EndOf(before) == Apply(x.Op(), x.Now(), EndOf(front)).0
    requires Swaps(b, x, aim, EndOf(front)) && Sorted(front + [b]) && (ReadsClock(b.commit) ==> x.Now() < b.Now())
    requires forall e <- before :: e in front || RejectedOn(e, aim) || e == x
    ensures
      var r := before + [b];
      Replays(r) && Sorted(r) && EndOf(r) == Apply(x.Op(), x.Now(), EndOf(front + [b])).0
  {
    ReplaysSnoc(before, b);
    ReplaysSnoc(front, b);
    forall e | e in before && ReadsClock(e.commit) && ReadsClock(b.commit)
      ensures e.Now() <= b.Now()
    {
      if e in front {
        var i :| 0 <= i < |front| && front[i] == e;
        assert (front + [b])[i] == e && (front + [b])[|front|] == b;
      }
    }
    SortedSnoc(before, b);
  }

  /** Puts `x`, and the rejected calls `zs` that go with it, in front of every call with a later reading. */
  lemma {:induction false} MoveLeft(entries: seq<Entry>, zs: seq<Entry>, x: Entry, aim: set<string>)
    returns (r: seq<Entry>)
    requires Replays(entries) && Sorted(entries)
    requires AllRejected(zs, aim, EndOf(entries)) && Movable(x, aim, EndOf(entries))
    requires forall b <- entries :: Yields(b, x.Now(), aim)
    ensures Replays(r) && Sorted(r) && EndOf(r) == Apply(x.Op(), x.Now(), EndOf(entries)).0
    ensures Rearranges(r, entries, zs, x)
    decreases |entries|
  {
    if EndsBy(entries, x.Now()) {
      r := entries + zs + [x];
      Settle(entries, zs, x, aim, entries + zs);
      RearrangesAtTheEnd(entries, zs, x);
    } else {
      var front, b := entries[..|entries| - 1], entries[|entries| - 1];
      assert entries == front + [b];
      if RejectedOn(b, aim) {
        TakeAlong(front, b, zs, x, aim);
        r := MoveLeft(front, [b] + zs, x, aim);
        RearrangesTakingAlong(r, front, b, zs, x);
      } else {
        OnePlace(b, zs, x, aim, EndOf(front));
        var before := MoveLeft(front, zs, x, aim);
        r := before + [b];
        PassOne(front, b, x, aim, before);
        RearrangesPassing(before, front, b, zs, x);
      }
    }
  }

  // ---- Along a run ------------------------------------------------------------------------

  /** Calls with readings later than that of a call whose statement is still to come leave its rows alone. */
  ghost predicate Ahead(w: World, entries: seq<Entry>) {
    && (forall e <- entries :: ReadsClock(e.commit) ==> e.Now() <= w.clock)
    && (forall c <- w.calls, e <- entries ::
          w.calls[c].phase.Stamped? && ReadsClock(e.commit) && w.calls[c].phase.now < e.Now() ==>
            && IsLifecycle(w.calls[c].op)
            && Yields(e, w.calls[c].phase.now, AimOf(w.calls[c].op, w.calls[c].phase.now, w.store)))
  }

  ghost predicate Orders(w: World, entries: seq<Entry>) {
    Replays(entries) && Sorted(entries) && EndOf(entries) == w.store && Ahead(w, entries)
  }

  lemma QuietStepKeepsOrder(w: World, e: Event, entries: seq<Entry>)
    requires StampsLead(w) && Orders(w, entries) && NewCommit(w, e) == []
    ensures Orders(Next(w, e), entries)
  {
    assert Next(w, e).store == w.store;
  }

  /** An undisturbed statement writes no row that another call has read the clock for. */
  lemma OthersAreLeftAlone(w: World, e: Event, c: nat)
    requires Enabled(w, e) && e.Execute? && IsLifecycle(w.calls[e.call].op) && FreshAt(w, e)
    requires !Disturbs(w, e) && !DisturbsCleanup(w, e)
    requires c in w.calls && c != e.call && w.calls[c].phase.Stamped? && IsLifecycle(w.calls[c].op)
    ensures HitSet(w.calls[e.call].op, StampOf(w, e), w.store)
            !! AimOf(w.calls[c].op, w.calls[c].phase.now, w.store)
  {
    var op, now := w.calls[e.call].op, StampOf(w, e);
    if ReadsThenWrites(w.calls[c].op) {
      assert InWindow(w.calls[c]);
    } else {
      forall id | id in HitSet(op, now, w.store)
        ensures id !in AimOf(w.calls[c].op, w.calls[c].phase.now, w.store)
      {
        assert Hits(op, now, id, w.store[id]) && w.store[id].state != Disconnected;
        assert !Hits(Cleanup, w.calls[c].phase.now, id, w.store[id]);
      }
    }
  }

  /** The commit of an event with the rows it writes. */
  function NewEntry(w: World, e: Event): Entry
    requires NewCommit(w, e) != []
  {
    var c := NewCommit(w, e)[0];
    Entry(c, HitSet(c.step.op, c.step.now, w.store))
  }

  lemma NewEntryFits(w: World, e: Event)
    requires FreshAt(w, e) && NewCommit(w, e) != []
    ensures Fits(NewEntry(w, e), w.store)
    ensures Apply(NewEntry(w, e).Op(), NewEntry(w, e).Now(), w.store).0 == Next(w, e).store
    ensures NewCommit(w, e) == [NewEntry(w, e).commit]
  {
    OneStepReplays(w, e);
  }

  /** Rows stay, and keep their expiry, as long as a lifecycle call holds the lock. */
  lemma AimStays(w: World, e: Event, c: nat)
    requires LockMatchesCalls(w) && c in w.calls && w.calls[c].phase.Stamped? && IsLifecycle(w.calls[c].op)
    ensures AimOf(w.calls[c].op, w.calls[c].phase.now, Next(w, e).store)
            == AimOf(w.calls[c].op, w.calls[c].phase.now, w.store)
  {
    assert c in w.lock.readers;
    if Enabled(w, e) && (e.Execute? || e.ExecuteGui?) {
      assert IsLifecycle(w.calls[e.call].op) || w.lock.writer == Some(e.call);
      forall id | id in w.store
        ensures id in Next(w, e).store && Next(w, e).store[id].certExpiresAt == w.store[id].certExpiresAt
      {
      }
      assert Next(w, e).store.Keys == w.store.Keys;
    }
  }

  lemma StillStamped(w: World, e: Event, c: nat)
    requires NewCommit(w, e) != [] && c in Next(w, e).calls && Next(w, e).calls[c].phase.Stamped?
    ensures c != e.call && c in w.calls && w.calls[c] == Next(w, e).calls[c] && Next(w, e).clock == w.clock
  {
  }

  /** After a commit, the entries there were and the new one are ahead of nobody. */
  lemma CommitStaysAhead(w: World, e: Event, entries: seq<Entry>, r: seq<Entry>)
    requires LockMatchesCalls(w) && StampsLead(w) && Ahead(w, entries) && FreshAt(w, e)
    requires !Disturbs(w, e) && !DisturbsCleanup(w, e) && NewCommit(w, e) != []
    requires forall b <- r :: b in entries || b == NewEntry(w, e)
    ensures Ahead(Next(w, e), r)
  {
    var next, x := Next(w, e), NewEntry(w, e);
    forall c, b | c in next.calls && next.calls[c].phase.Stamped? && b in r && ReadsClock(b.commit)
                  && next.calls[c].phase.now < b.Now()
      ensures IsLifecycle(next.calls[c].op)
      ensures Yields(b, next.calls[c].phase.now, AimOf(next.calls[c].op, next.calls[c].phase.now, next.store))
    {
      StillStamped(w, e, c);
      if b !in entries {
        NewEntryYields(w, e, c);
      }
      AimStays(w, e, c);
    }
  }

  lemma NewEntryYields(w: World, e: Event, c: nat)
    requires LockMatchesCalls(w) && StampsLead(w) && FreshAt(w, e) && NewCommit(w, e) != []
    requires !Disturbs(w, e) && !DisturbsCleanup(w, e) && ReadsClock(NewEntry(w, e).commit)
    requires c in w.calls && c != e.call && w.calls[c].phase.Stamped?
    ensures IsLifecycle(w.calls[c].op) && IsLifecycle(NewEntry(w, e).Op())
    ensures NewEntry(w, e).hits !! AimOf(w.calls[c].op, w.calls[c].phase.now, w.store)
  {
    assert e.Execute? && Enabled(w, e);
    assert !IsGui(w.calls[c].op);
    assert w.lock.writer == Some(c) <==> !IsLifecycle(w.calls[c].op);
    assert w.lock.writer == Some(e.call) <==> !IsLifecycle(w.calls[e.call].op);
    assert c in w.lock.readers <==> IsLifecycle(w.calls[c].op);
    assert e.call in w.lock.readers <==> IsLifecycle(w.calls[e.call].op);
    OthersAreLeftAlone(w, e, c);
  }

  lemma StepOrders(w: World, e: Event, entries: seq<Entry>) returns (r: seq<Entry>)
    requires LockMatchesCalls(w) && StampsLead(w) && Orders(w, entries) && FreshAt(w, e)
    requires !Disturbs(w, e) && !DisturbsCleanup(w, e)
    ensures Orders(Next(w, e), r)
    ensures multiset(CommitsOf(r)) == multiset(CommitsOf(entries) + NewCommit(w, e))
  {
    if NewCommit(w, e) == [] {
      r := entries;
      QuietStepKeepsOrder(w, e, entries);
      assert CommitsOf(entries) + [] == CommitsOf(entries);
    } else {
      var x := NewEntry(w, e);
      NewEntryFits(w, e);
      if e.Execute? && IsLifecycle(x.Op()) {
        r := MoveLeft(entries, [], x, AimOf(x.Op(), x.Now(), w.store));
        assert CommitsOf([]) == [];
      } else {
        AppendsInOrder(w, e, entries);
        r := entries + [x];
        ReplaysSnoc(entries, x);
      }
      CommitStaysAhead(w, e, entries, r);
    }
  }

  /** Creations, GUI writes and rejected calls go to the end. */
  lemma AppendsInOrder(w: World, e: Event, entries: seq<Entry>)
    requires Orders(w, entries) && NewCommit(w, e) != [] && !(e.Execute? && IsLifecycle(NewEntry(w, e).Op()))
    requires StampsLead(w)
    ensures Sorted(entries + [NewEntry(w, e)])
  {
    var x := NewEntry(w, e);
    if ReadsClock(x.commit) {
      assert e.Execute? && Enabled(w, e) && x.Op().Create?;
      forall b | b in entries && ReadsClock(b.commit)
        ensures b.Now() <= x.Now()
      {
        assert w.calls[e.call].phase == Stamped(x.Now());
      }
    }
    SortedSnoc(entries, x);
  }

  lemma {:induction false} EntriesOf(run: seq<Event>) returns (entries: seq<Entry>)
    requires Undisturbed(run) && CleanupsUndisturbed(run)
    ensures Orders(After(run), entries) && multiset(CommitsOf(entries)) == multiset(Log(run))
  {
    if run == [] {
      entries := [];
    } else {
      var front, e := run[..|run| - 1], run[|run| - 1];
      QuietPrefix(run);
      entries := EntriesOf(front);
      var before := entries;
      LockInvariant(front);
      QuietRunsKeepTimes(front);
      entries := StepOrders(After(front), e, entries);
      assert multiset(CommitsOf(before) + NewCommit(After(front), e))
             == multiset(Log(front) + NewCommit(After(front), e));
    }
  }

  lemma QuietPrefix(run: seq<Event>)
    requires run != [] && Undisturbed(run) && CleanupsUndisturbed(run)
    ensures
      var front, e := run[..|run| - 1], run[|run| - 1];
      && Undisturbed(front) && CleanupsUndisturbed(front)
      && !Disturbs(After(front), e) && !DisturbsCleanup(After(front), e) && FreshAt(After(front), e)
  {
    var front := run[..|run| - 1];
    UndisturbedPrefix(run);
    UndisturbedIsFresh(run);
    FreshSnoc(run);
    forall k | 0 <= k < |front|
      ensures !DisturbsCleanup(After(front[..k]), front[k])
    {
      assert front[..k] == run[..k] && front[k] == run[k];
    }
    assert run[..|front|] == front;
  }

  /**
   * A run in which no other lifecycle write hits a session between a call's SELECT and its UPDATE, nor a row
   * that a cleanup which has read the clock is about to close, has a serial order of the same calls, with
   * the same timestamps, results and store, in which the readings of the clock never go back.
   */
  lemma QuietRunsHaveAClockOrder(run: seq<Event>) returns (order: seq<Commit>)
    requires Undisturbed(run) && CleanupsUndisturbed(run)
    ensures SerialOrder(run, order) && InClockOrder(order)
  {
    var entries := EntriesOf(run);
    ReplaysMeansSerial(entries);
    order := CommitsOf(entries);
    assert forall i :: 0 <= i < |order| ==> order[i] == entries[i].commit;
  }

  // ---- What a clock order means for the rows ----------------------------------------------

  /** The timestamp relations of serial runs hold for every serial order that is in clock order. */
  lemma {:induction false} ClockOrderKeepsTimes(order: seq<Commit>, bound: Time)
    requires Outcomes(Steps(order), map[]) == Results(order) && InClockOrder(order)
    requires forall c <- order :: ReadsClock(c) ==> c.step.now <= bound
    ensures AllTimesAgree(Run(Steps(order), map[])) && UpdatedBy(Run(Steps(order), map[]), bound)
  {
    if order != [] {
      var front, last := order[..|order| - 1], order[|order| - 1];
      assert order == front + [last];
      ResultsOfFront(front, last);
      var earlier := if ReadsClock(last) then last.step.now else bound;
      forall c | c in front && ReadsClock(c)
        ensures c.step.now <= earlier
      {
        var i :| 0 <= i < |front| && front[i] == c;
        assert order[i] == c && order[|front|] == last;
      }
      ClockOrderKeepsTimes(front, earlier);
      LastKeepsTimes(last, Run(Steps(front), map[]), bound);
    }
  }

  lemma ResultsOfFront(front: seq<Commit>, last: Commit)
    requires Outcomes(Steps(front + [last]), map[]) == Results(front + [last])
    ensures Outcomes(Steps(front), map[]) == Results(front)
    ensures Apply(last.step.op, last.step.now, Run(Steps(front), map[])).1 == last.outcome
    ensures Run(Steps(front + [last]), map[])
            == Apply(last.step.op, last.step.now, Run(Steps(front), map[])).0
  {
    LogSnoc(front, last);
    RunSnoc(Steps(front), last.step, map[]);
    var was, all := Outcomes(Steps(front), map[]), Outcomes(Steps(front + [last]), map[]);
    assert all[..|front|] == was && Results(front + [last])[..|front|] == Results(front);
    assert all[|front|] == last.outcome;
  }

  lemma LastKeepsTimes(last: Commit, store: Store, bound: Time)
    requires Apply(last.step.op, last.step.now, store).1 == last.outcome
    requires AllTimesAgree(store) && UpdatedBy(store, if ReadsClock(last) then last.step.now else bound)
    requires ReadsClock(last) ==> last.step.now <= bound
    ensures var next := Apply(last.step.op, last.step.now, store).0; AllTimesAgree(next) && UpdatedBy(next, bound)
  {
    if ReadsClock(last) || IsGui(last.step.op) {
      CallKeepsTimes(last.step, store, bound);
    }
  }

  function Latest(order: seq<Commit>): (r: Time)
    ensures forall c <- order :: c.step.now <= r
  {
    if order == [] then 0
    else
      var r := Latest(order[..|order| - 1]);
      assert order == order[..|order| - 1] + [order[|order| - 1]];
      if r < order[|order| - 1].step.now then order[|order| - 1].step.now else r
  }

  /** So a run whose timestamps are out of order has no such serial order. */
  lemma DisorderHasNoClockOrder(run: seq<Event>, order: seq<Commit>)
    requires !AllTimesAgree(After(run).store)
    ensures !(SerialOrder(run, order) && InClockOrder(order))
  {
    if SerialOrder(run, order) && InClockOrder(order) {
      ClockOrderKeepsTimes(order, Latest(order));
    }
  }

  /** There is such a run with every SELECT window undisturbed; a cleanup's window matters too. */
  lemma UndisturbedIsNotEnough() returns (run: seq<Event>)
    ensures Undisturbed(run) && Serializable(run)
    ensures forall order: seq<Commit> :: SerialOrder(run, order) ==> !InClockOrder(order)
  {
    run := OverlapTimes.CleanupIsOvertaken();
    UndisturbedRunsAreSerial(run);
    assert SerialOrder(run, Log(run));
    forall order: seq<Commit> | SerialOrder(run, order)
      ensures !InClockOrder(order)
    {
      DisorderHasNoClockOrder(run, order);
    }
  }
}
