/**
 * The policy service under concurrent callers.  Each iteration of a batch's loop is a step of its own,
 * taken under the write lock; a reader looks the key up under the read lock.
 */
module PolicyConcurrency {
  import opened Common
  import opened ReadWriteLock
  import opened Policies

  datatype Request =
    | Check(user: string, device: string)
    | Set(user: string, device: string, permissions: seq<string>)
    | SyncAll(policies: seq<AccessPolicy>)

  datatype Phase =
    | Waiting
    | Looking                   // a reader with its lock
    | Writing(done: nat)        // a writer with its lock, `done` entries applied
    | Answered(allowed: bool)   // a reader that has its answer, lock still held
    | Finished(allowed: bool)   // returned; the flag is meaningful for readers only

  datatype Call = Call(request: Request, phase: Phase)

  datatype World = World(cache: Cache, calls: map<nat, Call>, lock: RWMutex)

  const INITIAL := World(map[], map[], UNLOCKED)

  datatype Event =
    | Invoke(call: nat, request: Request)
    | RLock(call: nat)
    | Lock(call: nat)
    | Look(call: nat)
    | WriteOne(call: nat)
    | Unlock(call: nat)

  /** A SetPolicy is a batch of one that is always for a user and a device. */
  function Entries(r: Request): seq<AccessPolicy> {
    match r
    case Check(_, _) => []
    case Set(user, device, permissions) => [AccessPolicy("user", user, "device", device, permissions)]
    case SyncAll(policies) => policies
  }

  predicate Enabled(w: World, e: Event) {
    if e.Invoke? then e.call !in w.calls
    else
      && e.call in w.calls
      && var Call(request, phase) := w.calls[e.call];
         match e
         case RLock(_) => phase.Waiting? && request.Check? && MayRLock(w.lock)
         case Lock(_) => phase.Waiting? && !request.Check? && MayLock(w.lock)
         case Look(_) => phase.Looking? && request.Check?
         case WriteOne(_) => phase.Writing? && phase.done < |Entries(request)|
         case Unlock(_) => phase.Answered? || (phase.Writing? && phase.done == |Entries(request)|)
         case Invoke(_, _) => true
  }

  function Become(w: World, c: nat, phase: Phase): World
    requires c in w.calls
  {
    w.(calls := w.calls[c := w.calls[c].(phase := phase)])
  }

  /** As in the session model, an event whose caller is not ready for it changes nothing. */
  function Next(w: World, e: Event): World {
    if !Enabled(w, e) then w
    else
      match e
      case Invoke(c, request) => w.(calls := w.calls[c := Call(request, Waiting)])
      case RLock(c) => Become(w, c, Looking).(lock := RLocked(w.lock, c))
      case Lock(c) => Become(w, c, Writing(0)).(lock := Locked(w.lock, c))
      case Look(c) =>
        var r := w.calls[c].request;
        Become(w, c, Answered(Answer(w.cache, r.user, r.device)))
      case WriteOne(c) =>
        var Call(r, phase) := w.calls[c];
        Become(w, c, Writing(phase.done + 1)).(cache := SyncOne(Entries(r)[phase.done], w.cache))
      case Unlock(c) =>
        var phase := w.calls[c].phase;
        Become(w, c, Finished(phase.Answered? && phase.allowed)).(lock := Released(w.lock, c))
  }

  function After(run: seq<Event>): World {
    if run == [] then INITIAL else Next(After(run[..|run| - 1]), run[|run| - 1])
  }

  /** The completed writing calls, in the order they held the lock. */
  function Completed(run: seq<Event>): seq<nat> {
    if run == [] then []
    else
      var front, e := run[..|run| - 1], run[|run| - 1];
      Completed(front)
      + if e.Unlock? && Enabled(After(front), e) && After(front).calls[e.call].phase.Writing? then [e.call] else []
  }

  /** Runs whole calls one after another. */
  function Replay(calls: seq<nat>, requests: map<nat, Call>): Cache
    requires forall c <- calls :: c in requests
  {
    if calls == [] then map[]
    else Sync(Entries(requests[calls[|calls| - 1]].request), Replay(calls[..|calls| - 1], requests))
  }

  /** What the service does for one call on its own. */
  function Serve(r: Request, cache: Cache): Cache {
    match r
    case Check(_, _) => cache
    case Set(user, device, permissions) => cache[user + ":" + device := permissions]
    case SyncAll(policies) => Sync(policies, cache)
  }

  function ServeAll(calls: seq<nat>, requests: map<nat, Call>): Cache
    requires forall c <- calls :: c in requests
  {
    if calls == [] then map[]
    else Serve(requests[calls[|calls| - 1]].request, ServeAll(calls[..|calls| - 1], requests))
  }

  lemma EntriesServe(r: Request, cache: Cache)
    ensures Sync(Entries(r), cache) == Serve(r, cache)
    ensures r.SyncAll? ==> Entries(r) == r.policies
  {
    if r.Set? {
      assert Entries(r)[..0] == [];
      assert Sync(Entries(r), cache) == SyncOne(Entries(r)[0], Sync([], cache));
    }
  }

  /** Whole calls, replayed entry by entry, do what SetPolicy and SyncPolicies do one call at a time. */
  lemma {:induction false} ReplayServesTheCalls(calls: seq<nat>, requests: map<nat, Call>)
    requires forall c <- calls :: c in requests
    ensures Replay(calls, requests) == ServeAll(calls, requests)
  {
    if calls != [] {
      ReplayServesTheCalls(calls[..|calls| - 1], requests);
      EntriesServe(requests[calls[|calls| - 1]].request, Replay(calls[..|calls| - 1], requests));
    }
  }

  ghost predicate LockMatchesCalls(w: World) {
    && Exclusive(w.lock)
    && (forall c :: c in w.lock.readers <==> c in w.calls && (w.calls[c].phase.Looking? || w.calls[c].phase.Answered?))
    && (forall c :: w.lock.writer == Some(c) <==> c in w.calls && w.calls[c].phase.Writing?)
    && (forall c <- w.calls :: w.calls[c].phase.Writing? ==>
          !w.calls[c].request.Check? && w.calls[c].phase.done <= |Entries(w.calls[c].request)|)
    && (forall c <- w.calls :: w.calls[c].phase.Looking? || w.calls[c].phase.Answered? ==> w.calls[c].request.Check?)
  }

  /** The cache is the completed calls replayed, plus the entries the current writer has got through. */
  ghost predicate CacheMatches(w: World, completed: seq<nat>) {
    && (forall c <- completed :: c in w.calls && w.calls[c].phase.Finished? && !w.calls[c].request.Check?)
    && w.cache == (match w.lock.writer
                   case None => Replay(completed, w.calls)
                   case Some(c) =>
                     if c in w.calls && w.calls[c].phase.Writing?
                        && w.calls[c].phase.done <= |Entries(w.calls[c].request)|
                     then Sync(Entries(w.calls[c].request)[..w.calls[c].phase.done], Replay(completed, w.calls))
                     else w.cache)
  }

  lemma {:induction false} ReplaySeesRequestsOnly(calls: seq<nat>, a: map<nat, Call>, b: map<nat, Call>)
    requires forall c <- calls :: c in a && c in b && a[c].request == b[c].request
    ensures Replay(calls, a) == Replay(calls, b)
  {
    if calls != [] {
      ReplaySeesRequestsOnly(calls[..|calls| - 1], a, b);
    }
  }

  lemma LockStep(w: World, e: Event)
    requires LockMatchesCalls(w)
    ensures LockMatchesCalls(Next(w, e))
  {
  }

  function NewlyCompleted(w: World, e: Event): seq<nat> {
    if e.Unlock? && Enabled(w, e) && w.calls[e.call].phase.Writing? then [e.call] else []
  }

  lemma CacheStep(w: World, e: Event, completed: seq<nat>)
    requires LockMatchesCalls(w) && CacheMatches(w, completed)
    ensures CacheMatches(Next(w, e), completed + NewlyCompleted(w, e))
  {
    var next := Next(w, e);
    ReplaySeesRequestsOnly(completed, w.calls, next.calls);
    if !Enabled(w, e) {
      assert completed + [] == completed;
    } else if e.WriteOne? {
      assert w.lock.writer == Some(e.call);
      assert completed + [] == completed;
      var entries, done := Entries(w.calls[e.call].request), w.calls[e.call].phase.done;
      assert entries[..done + 1][..done] == entries[..done];
    } else if e.Unlock? && w.calls[e.call].phase.Writing? {
      assert w.lock.writer == Some(e.call);
      var entries := Entries(w.calls[e.call].request);
      assert entries[..|entries|] == entries;
      assert (completed + [e.call])[..|completed|] == completed;
    } else {
      assert completed + [] == completed;
      if e.Lock? {
        assert Entries(w.calls[e.call].request)[..0] == [];
      }
    }
  }

  lemma {:induction false} CacheInvariant(run: seq<Event>)
    ensures LockMatchesCalls(After(run)) && CacheMatches(After(run), Completed(run))
  {
    if run != [] {
      var front, e := run[..|run| - 1], run[|run| - 1];
      CacheInvariant(front);
      LockStep(After(front), e);
      CacheStep(After(front), e, Completed(front));
      assert Completed(run) == Completed(front) + NewlyCompleted(After(front), e);
    }
  }

  /** The replayed calls are exactly the writing calls that have returned, each once. */
  lemma {:induction false} CompletedIsExact(run: seq<Event>)
    ensures forall c :: c in Completed(run) <==>
                        c in After(run).calls && After(run).calls[c].phase.Finished?
                        && !After(run).calls[c].request.Check?
    ensures forall i, j :: 0 <= i < j < |Completed(run)| ==> Completed(run)[i] != Completed(run)[j]
  {
    if run != [] {
      var front, e := run[..|run| - 1], run[|run| - 1];
      CompletedIsExact(front);
      CacheInvariant(front);
      FinishedStep(After(front), e);
      assert Completed(run) == Completed(front) + NewlyCompleted(After(front), e);
    }
  }

  lemma FinishedStep(w: World, e: Event)
    requires LockMatchesCalls(w)
    ensures forall c <- Next(w, e).calls ::
              (Next(w, e).calls[c].phase.Finished? && !Next(w, e).calls[c].request.Check?)
              <==> c in NewlyCompleted(w, e)
                   || (c in w.calls && w.calls[c].phase.Finished? && !w.calls[c].request.Check?)
    ensures forall c <- NewlyCompleted(w, e) :: c in w.calls && !w.calls[c].phase.Finished?
    ensures w.calls.Keys <= Next(w, e).calls.Keys
  {
  }

  predicate HasAnswer(phase: Phase) {
    phase.Answered? || phase.Finished?
  }

  /** The reader `c` holds its lock and would be answered `allowed` by the completed calls, replayed whole. */
  ghost predicate WouldAnswer(w: World, completed: seq<nat>, c: nat, allowed: bool) {
    && (forall x <- completed :: x in w.calls)
    && c in w.calls && w.calls[c].phase.Looking? && w.calls[c].request.Check?
    && allowed == Answer(Replay(completed, w.calls), w.calls[c].request.user, w.calls[c].request.device)
  }

  ghost predicate AnsweredAt(run: seq<Event>, k: int, c: nat, allowed: bool) {
    0 <= k <= |run| && WouldAnswer(After(run[..k]), Completed(run[..k]), c, allowed)
  }

  /** A reader's answer comes from its look and is never revised. */
  lemma AnswerStep(w: World, e: Event, completed: seq<nat>, c: nat)
    requires LockMatchesCalls(w) && CacheMatches(w, completed)
    requires c in Next(w, e).calls && Next(w, e).calls[c].request.Check? && HasAnswer(Next(w, e).calls[c].phase)
    ensures
      var allowed := Next(w, e).calls[c].phase.allowed;
      if c in w.calls && w.calls[c].request.Check? && HasAnswer(w.calls[c].phase)
      then w.calls[c].phase.allowed == allowed
      else WouldAnswer(w, completed, c, allowed)
  {
    if !(c in w.calls && HasAnswer(w.calls[c].phase)) {
      assert e == Look(c) && Enabled(w, e);
      assert c in w.lock.readers;
    }
  }

  lemma AnsweredAtInLonger(run: seq<Event>, front: seq<Event>, k: int, c: nat, allowed: bool)
    requires |front| <= |run| && front == run[..|front|] && AnsweredAt(front, k, c, allowed)
    ensures AnsweredAt(run, k, c, allowed)
  {
    assert front[..k] == run[..k];
  }

  /**
   * Linearizability: in every interleaving, what a CanAccessGUI call answers is what replaying the calls
   * completed by some moment of its own execution gives, each SetPolicy and SyncPolicies taken whole and in
   * lock order.  No reader sees part of a batch.
   */
  lemma {:induction false} ReadersSeeWholeCalls(run: seq<Event>, c: nat)
    requires c in After(run).calls && After(run).calls[c].request.Check? && HasAnswer(After(run).calls[c].phase)
    ensures exists k :: AnsweredAt(run, k, c, After(run).calls[c].phase.allowed)
  {
    var front, e := run[..|run| - 1], run[|run| - 1];
    var w, allowed := After(front), After(run).calls[c].phase.allowed;
    CacheInvariant(front);
    AnswerStep(w, e, Completed(front), c);
    if c in w.calls && w.calls[c].request.Check? && HasAnswer(w.calls[c].phase) {
      ReadersSeeWholeCalls(front, c);
      var k :| AnsweredAt(front, k, c, allowed);
      AnsweredAtInLonger(run, front, k, c, allowed);
    } else {
      assert run[..|front|] == front;
      assert AnsweredAt(run, |front|, c, allowed);
    }
  }

  lemma {:induction false} CompletedOnlyGrows(run: seq<Event>, i: nat)
    requires i <= |run|
    ensures Completed(run[..i]) <= Completed(run)
  {
    if i == |run| {
      assert run[..i] == run;
    } else {
      var front := run[..|run| - 1];
      CompletedOnlyGrows(front, i);
      assert front[..i] == run[..i];
    }
  }

  lemma {:induction false} CallsStay(run: seq<Event>, i: nat, c: nat)
    requires i <= |run| && c in After(run[..i]).calls
    ensures c in After(run).calls
  {
    if i == |run| {
      assert run[..i] == run;
    } else {
      var front := run[..|run| - 1];
      assert front[..i] == run[..i];
      CallsStay(front, i, c);
    }
  }

  lemma InvokedLater(run: seq<Event>, i: nat, k: nat, c: nat)
    requires i <= |run| && k <= |run|
    requires c !in After(run[..i]).calls && c in After(run[..k]).calls
    ensures i < k
  {
    if k <= i {
      assert run[..i][..k] == run[..k];
      CallsStay(run[..i], k, c);
    }
  }

  /** A call completed before the reader was invoked is among those the reader's answer reflects. */
  lemma AnswersAreNotStale(run: seq<Event>, i: nat, k: nat, c: nat, allowed: bool)
    requires i <= |run| && c !in After(run[..i]).calls && AnsweredAt(run, k, c, allowed)
    ensures i < k && Completed(run[..i]) <= Completed(run[..k]) <= Completed(run)
  {
    InvokedLater(run, i, k, c);
    CompletedOnlyGrows(run, k);
    CompletedOnlyGrows(run[..k], i);
    assert run[..k][..i] == run[..i];
  }
}
