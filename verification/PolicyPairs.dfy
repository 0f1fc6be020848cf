/** What concurrent callers of the policy service see, in terms of (user, device) pairs. */
module PolicyPairs {
  import opened Common
  import opened ReadWriteLock
  import opened Policies
  import opened PolicyConcurrency

  /** The writes of whole calls, one after another. */
  function WritesIn(calls: seq<nat>, requests: map<nat, Call>): seq<PolicyWrite>
    requires forall c <- calls :: c in requests
  {
    if calls == [] then []
    else
      WritesIn(calls[..|calls| - 1], requests) + WritesOf(Entries(requests[calls[|calls| - 1]].request))
  }

  lemma {:induction false} ReplayIsItsWrites(calls: seq<nat>, requests: map<nat, Call>)
    requires forall c <- calls :: c in requests
    ensures Replay(calls, requests) == CacheAfter(WritesIn(calls, requests))
  {
    if calls != [] {
      var front := calls[..|calls| - 1];
      ReplayIsItsWrites(front, requests);
      SyncIsItsWrites(Entries(requests[calls[|calls| - 1]].request), WritesIn(front, requests));
    }
  }

  // ---- Whose policies are written and read ------------------------------------------------

  ghost predicate WritesOnly(r: Request, users: set<string>) {
    forall p <- Entries(r) :: Relevant(p) ==> p.principalId in users
  }

  /** The run's calls ask about users of the one set, and write policies of users of the other. */
  ghost predicate AboutUsers(run: seq<Event>, asked: set<string>, written: set<string>) {
    forall e <- run :: e.Invoke? ==> WritesOnly(e.request, written) && (e.request.Check? ==> e.request.user in asked)
  }

  lemma {:induction false} CallsAreAboutUsers(run: seq<Event>, asked: set<string>, written: set<string>)
    requires AboutUsers(run, asked, written)
    ensures forall c <- After(run).calls ::
              var r := After(run).calls[c].request;
              WritesOnly(r, written) && (r.Check? ==> r.user in asked)
  {
    if run != [] {
      var front := run[..|run| - 1];
      assert run == front + [run[|run| - 1]];
      CallsAreAboutUsers(front, asked, written);
    }
  }

  lemma {:induction false} WritesOfAreFrom(policies: seq<AccessPolicy>, users: set<string>)
    requires forall p <- policies :: Relevant(p) ==> p.principalId in users
    ensures From(WritesOf(policies), users)
  {
    if policies != [] {
      var front := policies[..|policies| - 1];
      assert policies == front + [policies[|policies| - 1]];
      WritesOfAreFrom(front, users);
    }
  }

  lemma {:induction false} WritesInAreFrom(calls: seq<nat>, requests: map<nat, Call>, users: set<string>)
    requires forall c <- calls :: c in requests && WritesOnly(requests[c].request, users)
    ensures From(WritesIn(calls, requests), users)
  {
    if calls != [] {
      var front, last := calls[..|calls| - 1], calls[|calls| - 1];
      assert calls == front + [last];
      WritesInAreFrom(front, requests, users);
      WritesOfAreFrom(Entries(requests[last].request), users);
    }
  }

  // ---- Linearizability over pairs ---------------------------------------------------------

  /** At this moment the reader has its lock, and the completed calls' writes to a map over pairs say `allowed`. */
  ghost predicate PairsSay(w: World, completed: seq<nat>, c: nat, allowed: bool) {
    && (forall x <- completed :: x in w.calls)
    && c in w.calls && w.calls[c].phase.Looking? && w.calls[c].request.Check?
    && var r := w.calls[c].request;
       allowed == PairAnswer(PairsAfter(WritesIn(completed, w.calls)), r.user, r.device)
  }

  ghost predicate PairsSayAt(run: seq<Event>, k: int, c: nat, allowed: bool) {
    0 <= k <= |run| && PairsSay(After(run[..k]), Completed(run[..k]), c, allowed)
  }

  ghost predicate HasReaderAnswer(run: seq<Event>, c: nat) {
    c in After(run).calls && After(run).calls[c].request.Check? && HasAnswer(After(run).calls[c].phase)
  }

  /**
   * In every interleaving of calls about these users, every reader's answer is the one that a map over pairs
   * gives after the calls completed by some moment of the reader's own execution, each taken whole.
   */
  ghost predicate LinearizableOverPairs(users: set<string>) {
    forall run: seq<Event>, c: nat :: AboutUsers(run, users, users) && HasReaderAnswer(run, c) ==>
      exists k :: PairsSayAt(run, k, c, After(run).calls[c].phase.allowed)
  }

  lemma AnswersAreThePairs(w: World, completed: seq<nat>, c: nat, allowed: bool, users: set<string>)
    requires Separated(users) && WouldAnswer(w, completed, c, allowed)
    requires forall x <- w.calls :: WritesOnly(w.calls[x].request, users)
    requires w.calls[c].request.user in users
    ensures PairsSay(w, completed, c, allowed)
  {
    var r := w.calls[c].request;
    ReplayIsItsWrites(completed, w.calls);
    WritesInAreFrom(completed, w.calls, users);
    CacheMirrorsPairs(WritesIn(completed, w.calls), users, r.user, r.device);
  }

  lemma ReadersSeePairs(run: seq<Event>, c: nat, users: set<string>)
    requires Separated(users) && AboutUsers(run, users, users) && HasReaderAnswer(run, c)
    ensures exists k :: PairsSayAt(run, k, c, After(run).calls[c].phase.allowed)
  {
    var allowed := After(run).calls[c].phase.allowed;
    ReadersSeeWholeCalls(run, c);
    var k :| AnsweredAt(run, k, c, allowed);
    forall e | e in run[..k]
      ensures e in run
    {
    }
    CallsAreAboutUsers(run[..k], users, users);
    AnswersAreThePairs(After(run[..k]), Completed(run[..k]), c, allowed, users);
    assert PairsSayAt(run, k, c, allowed);
  }

  // ---- Why the users have to be separated -------------------------------------------------

  /** One user is given GUI access to one device, and then access is checked for another pair. */
  function GrantThenCheck(v: string, u: string, d: string): (r: seq<Event>)
    ensures |r| == 7
  {
    [Invoke(0, Set(v, "", [GUI_ACCESS])), Lock(0), WriteOne(0), Unlock(0), Invoke(1, Check(u, d)), RLock(1), Look(1)]
  }

  lemma AfterOneMore(run: seq<Event>, i: nat)
    requires i < |run|
    ensures After(run[..i + 1]) == Next(After(run[..i]), run[i])
  {
    assert run[..i + 1][..i] == run[..i];
  }

  lemma GrantIsWritten(v: string, u: string, d: string)
    ensures
      var w := After(GrantThenCheck(v, u, d)[..4]);
      w == World(map[Key(v, "") := [GUI_ACCESS]], map[0 := Call(Set(v, "", [GUI_ACCESS]), Finished(false))], UNLOCKED)
  {
    var run := GrantThenCheck(v, u, d);
    assert run[..0] == [];
    AfterOneMore(run, 0);
    AfterOneMore(run, 1);
    AfterOneMore(run, 2);
    AfterOneMore(run, 3);
    assert After(run[..2]) == World(map[], map[0 := Call(Set(v, "", [GUI_ACCESS]), Writing(0))],
                                    RWMutex({}, Some(0)));
  }

  lemma CheckIsAnswered(v: string, u: string, d: string)
    requires Key(u, d) == Key(v, "")
    ensures
      var calls := After(GrantThenCheck(v, u, d)).calls;
      1 in calls && calls[1] == Call(Check(u, d), Answered(true))
  {
    var run := GrantThenCheck(v, u, d);
    GrantIsWritten(v, u, d);
    AfterOneMore(run, 4);
    AfterOneMore(run, 5);
    AfterOneMore(run, 6);
    assert run[..7] == run;
  }

  lemma {:induction false} NobodyElseHasPairs(history: seq<PolicyWrite>, v: string, u: string, d: string)
    requires From(history, {v}) && u != v
    ensures (u, d) !in PairsAfter(history)
  {
    if history != [] {
      var front, w := history[..|history| - 1], history[|history| - 1];
      assert history == front + [w];
      NobodyElseHasPairs(front, v, u, d);
    }
  }

  /** The check is answered "yes", and the pairs say "no" at every moment. */
  lemma GrantLeaks(v: string, u: string, d: string, k: int)
    requires u != v && Key(u, d) == Key(v, "")
    ensures !PairsSayAt(GrantThenCheck(v, u, d), k, 1, true)
  {
    var run := GrantThenCheck(v, u, d);
    if 0 <= k <= |run| {
      var w, completed := After(run[..k]), Completed(run[..k]);
      if PairsSay(w, completed, 1, true) {
        CallsAreAboutUsers(run[..k], {u}, {v});
        WritesInAreFrom(completed, w.calls, {v});
        NobodyElseHasPairs(WritesIn(completed, w.calls), v, u, w.calls[1].request.device);
      }
    }
  }

  /** Concurrent readers see a map over pairs for a population of users if and only if it is separated. */
  lemma LinearizableIffSeparated(users: set<string>)
    ensures LinearizableOverPairs(users) <==> Separated(users)
  {
    if Separated(users) {
      forall run: seq<Event>, c: nat | AboutUsers(run, users, users) && HasReaderAnswer(run, c)
        ensures exists k :: PairsSayAt(run, k, c, After(run).calls[c].phase.allowed)
      {
        ReadersSeePairs(run, c, users);
      }
    } else {
      var u, v :| u in users && v in users && u != v && u + ":" <= v;
      var d := v[|u| + 1..] + ":";
      assert Key(u, d) == Key(v, "");
      var run := GrantThenCheck(v, u, d);
      CheckIsAnswered(v, u, d);
      assert AboutUsers(run, users, users) && HasReaderAnswer(run, 1);
      forall k
        ensures !PairsSayAt(run, k, 1, true)
      {
        GrantLeaks(v, u, d, k);
      }
    }
  }
}
