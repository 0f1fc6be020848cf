/** The policy cache: one string key stands for a (user, device) pair. */
module Policies {
  import opened Common

  type Cache = map<string, seq<string>>

  const GUI_ACCESS := "gate.gui.access"

  datatype AccessPolicy = AccessPolicy(principalType: string, principalId: string, targetType: string,
                                       targetId: string, permissions: seq<string>)

  function Key(user: string, device: string): string {
    user + ":" + device
  }

  predicate Relevant(p: AccessPolicy) {
    p.principalType == "user" && p.targetType == "device"
  }

  function KeyOf(p: AccessPolicy): string {
    Key(p.principalId, p.targetId)
  }

  function SyncOne(p: AccessPolicy, cache: Cache): Cache {
    if Relevant(p) then cache[KeyOf(p) := p.permissions] else cache
  }

  function Sync(policies: seq<AccessPolicy>, cache: Cache): Cache {
    if policies == [] then cache
    else SyncOne(policies[|policies| - 1], Sync(policies[..|policies| - 1], cache))
  }

  function CountRelevant(policies: seq<AccessPolicy>): nat {
    if policies == [] then 0
    else CountRelevant(policies[..|policies| - 1]) + if Relevant(policies[|policies| - 1]) then 1 else 0
  }

  predicate Answer(cache: Cache, user: string, device: string) {
    Key(user, device) in cache && GUI_ACCESS in cache[Key(user, device)]
  }

  class PolicyService {
    var cache: Cache

    constructor ()
      ensures cache == map[]
    {
      cache := map[];
    }

    method CanAccessGUI(user: string, device: string) returns (allowed: bool)
      ensures allowed == Answer(cache, user, device)
      ensures allowed <==>
                user + ":" + device in cache && "gate.gui.access" in cache[user + ":" + device]
    {
      var key := user + ":" + device;
      if key !in cache {
        return false;
      }
      var permissions := cache[key];
      for i := 0 to |permissions|
        invariant GUI_ACCESS !in permissions[..i]
      {
        if permissions[i] == GUI_ACCESS {
          return true;
        }
      }
      return false;
    }

    method SetPolicy(user: string, device: string, permissions: seq<string>)
      modifies this
      ensures cache == old(cache)[user + ":" + device := permissions]
    {
      var key := user + ":" + device;
      cache := cache[key := permissions];
    }

    method SyncPolicies(policies: seq<AccessPolicy>) returns (count: nat)
      modifies this
      ensures cache == Sync(policies, old(cache))
      ensures count == CountRelevant(policies)
    {
      count := 0;
      for i := 0 to |policies|
        invariant cache == Sync(policies[..i], old(cache))
        invariant count == CountRelevant(policies[..i])
      {
        var policy := policies[i];
        if policy.principalType == "user" && policy.targetType == "device" {
          cache := cache[policy.principalId + ":" + policy.targetId := policy.permissions];
          count := count + 1;
        }
        assert policies[..i + 1][..i] == policies[..i];
      }
      assert policies[..|policies|] == policies;
    }
  }

  /** One entry of the body of a sync request. */
  datatype PolicyRequest = PolicyRequest(principalType: string, principalId: string, targetType: string,
                                         targetId: string, permissions: seq<string>)

  function Converted(p: PolicyRequest): AccessPolicy {
    AccessPolicy(p.principalType, p.principalId, p.targetType, p.targetId, p.permissions)
  }

  function ConvertedAll(entries: seq<PolicyRequest>): seq<AccessPolicy> {
    seq(|entries|, i requires 0 <= i < |entries| => Converted(entries[i]))
  }

  /** The sync handler: copies the request's entries in order and hands them to the service. */
  method SyncAccessPolicies(service: PolicyService, entries: seq<PolicyRequest>) returns (syncedCount: nat)
    modifies service
    ensures service.cache == Sync(ConvertedAll(entries), old(service.cache))
    ensures syncedCount == CountRelevant(ConvertedAll(entries))
    ensures |ConvertedAll(entries)| == |entries|
    ensures forall i :: 0 <= i < |entries| ==>
              var p := ConvertedAll(entries)[i];
              && p.principalType == entries[i].principalType && p.principalId == entries[i].principalId
              && p.targetType == entries[i].targetType && p.targetId == entries[i].targetId
              && p.permissions == entries[i].permissions
  {
    var policies := new AccessPolicy[|entries|];
    for i := 0 to |entries|
      invariant forall j :: 0 <= j < i ==> policies[j] == Converted(entries[j])
      invariant service.cache == old(service.cache)
    {
      var p := entries[i];
      policies[i] := AccessPolicy(p.principalType, p.principalId, p.targetType, p.targetId, p.permissions);
    }
    assert policies[..] == ConvertedAll(entries);
    syncedCount := service.SyncPolicies(policies[..]);
  }

  // ---- Batch laws -------------------------------------------------------------------------

  /** Two batches one after the other are their concatenation, and their counts add up. */
  lemma {:induction false} SyncConcat(a: seq<AccessPolicy>, b: seq<AccessPolicy>, cache: Cache)
    ensures Sync(a + b, cache) == Sync(b, Sync(a, cache))
    ensures CountRelevant(a + b) == CountRelevant(a) + CountRelevant(b)
  {
    if b == [] {
      assert a + b == a;
    } else {
      var front := b[..|b| - 1];
      SyncConcat(a, front, cache);
      assert (a + b)[..|a + b| - 1] == a + front;
    }
  }

  /** Position `i` is the last entry of the batch that writes `key`. */
  ghost predicate LastWriter(policies: seq<AccessPolicy>, i: int, key: string) {
    && 0 <= i < |policies| && Relevant(policies[i]) && KeyOf(policies[i]) == key
    && forall j :: i < j < |policies| && Relevant(policies[j]) ==> KeyOf(policies[j]) != key
  }

  ghost predicate Writes(policies: seq<AccessPolicy>, key: string) {
    exists p <- policies :: Relevant(p) && KeyOf(p) == key
  }

  /** What a batch leaves behind, key by key: its last user/device entry, or what was there before. */
  lemma {:induction false} LastEntryWins(policies: seq<AccessPolicy>, cache: Cache, key: string)
    ensures !Writes(policies, key) ==>
              (key in Sync(policies, cache) <==> key in cache)
              && (key in cache ==> Sync(policies, cache)[key] == cache[key])
    ensures Writes(policies, key) ==>
              exists i :: LastWriter(policies, i, key) && key in Sync(policies, cache)
                          && Sync(policies, cache)[key] == policies[i].permissions
  {
    if policies != [] {
      var n := |policies| - 1;
      var front := policies[..n];
      assert policies == front + [policies[n]];
      LastEntryWins(front, cache, key);
      if Relevant(policies[n]) && KeyOf(policies[n]) == key {
        assert LastWriter(policies, n, key);
      } else if Writes(front, key) {
        var i :| LastWriter(front, i, key) && key in Sync(front, cache)
                 && Sync(front, cache)[key] == front[i].permissions;
        assert LastWriter(policies, i, key);
      }
    }
  }

  // ---- Which entries count ----------------------------------------------------------------

  /** The positions of the entries for a user and a device. */
  function UserDevicePositions(policies: seq<AccessPolicy>): set<nat> {
    set i: nat | i < |policies| && policies[i].principalType == "user" && policies[i].targetType == "device"
  }

  /** The count of a batch is the number of its entries for a user and a device. */
  lemma {:induction false} CountIsUserDeviceEntries(policies: seq<AccessPolicy>)
    ensures CountRelevant(policies) == |UserDevicePositions(policies)|
  {
    if policies == [] {
      assert UserDevicePositions(policies) == {};
    } else {
      var n := |policies| - 1;
      var front, last := policies[..n], policies[n];
      CountIsUserDeviceEntries(front);
      var counts := last.principalType == "user" && last.targetType == "device";
      assert UserDevicePositions(policies) == UserDevicePositions(front) + if counts then {n} else {};
      assert n !in UserDevicePositions(front);
    }
  }

  /** The last entry for a user and a device with this key, if the batch has one. */
  ghost predicate IsLastFor(policies: seq<AccessPolicy>, i: nat, key: string) {
    && i in UserDevicePositions(policies) && policies[i].principalId + ":" + policies[i].targetId == key
    && forall j <- UserDevicePositions(policies) :: j > i ==>
         policies[j].principalId + ":" + policies[j].targetId != key
  }

  lemma LastEntryIsHeld(policies: seq<AccessPolicy>, cache: Cache, key: string, i: nat)
    requires IsLastFor(policies, i, key)
    ensures key in Sync(policies, cache) && Sync(policies, cache)[key] == policies[i].permissions
  {
    LastEntryWins(policies, cache, key);
    assert policies[i] in policies && Relevant(policies[i]);
    var last :| LastWriter(policies, last, key) && key in Sync(policies, cache)
                && Sync(policies, cache)[key] == policies[last].permissions;
    assert last in UserDevicePositions(policies);
  }

  lemma OtherKeysStay(policies: seq<AccessPolicy>, cache: Cache, key: string)
    requires forall i <- UserDevicePositions(policies) :: policies[i].principalId + ":" + policies[i].targetId != key
    ensures key in Sync(policies, cache) <==> key in cache
    ensures key in cache ==> Sync(policies, cache)[key] == cache[key]
  {
    LastEntryWins(policies, cache, key);
    forall p | p in policies && Relevant(p)
      ensures KeyOf(p) != key
    {
      var i :| 0 <= i < |policies| && policies[i] == p;
      assert i in UserDevicePositions(policies);
    }
  }

  /** A key holds the permissions of its last such entry, and otherwise what it held before. */
  lemma KeyHoldsItsLastEntry(policies: seq<AccessPolicy>, cache: Cache, key: string)
    ensures forall i: nat | IsLastFor(policies, i, key) ::
              key in Sync(policies, cache) && Sync(policies, cache)[key] == policies[i].permissions
    ensures (forall i <- UserDevicePositions(policies) ::
               policies[i].principalId + ":" + policies[i].targetId != key) ==>
              && (key in Sync(policies, cache) <==> key in cache)
              && (key in cache ==> Sync(policies, cache)[key] == cache[key])
  {
    forall i: nat | IsLastFor(policies, i, key)
      ensures key in Sync(policies, cache) && Sync(policies, cache)[key] == policies[i].permissions
    {
      LastEntryIsHeld(policies, cache, key, i);
    }
    if forall i <- UserDevicePositions(policies) :: policies[i].principalId + ":" + policies[i].targetId != key {
      OtherKeysStay(policies, cache, key);
    }
  }

  /** No key is ever removed. */
  lemma SyncKeepsKeys(policies: seq<AccessPolicy>, cache: Cache)
    ensures cache.Keys <= Sync(policies, cache).Keys
  {
    forall key <- cache
      ensures key in Sync(policies, cache)
    {
      LastEntryWins(policies, cache, key);
    }
  }

  /** Syncing the same batch again changes nothing. */
  lemma SyncTwice(policies: seq<AccessPolicy>, cache: Cache)
    ensures Sync(policies, Sync(policies, cache)) == Sync(policies, cache)
  {
    var once := Sync(policies, cache);
    var twice := Sync(policies, once);
    forall key: string
      ensures key in twice <==> key in once
      ensures key in once ==> twice[key] == once[key]
    {
      LastEntryWins(policies, cache, key);
      LastEntryWins(policies, once, key);
    }
  }

  /** No two user/device entries of the batch share a key. */
  ghost predicate DistinctKeys(policies: seq<AccessPolicy>) {
    forall i, j :: 0 <= i < j < |policies| && Relevant(policies[i]) && Relevant(policies[j]) ==>
      KeyOf(policies[i]) != KeyOf(policies[j])
  }

  /** When the keys of a batch are pairwise distinct, any reordering of it has the same effect. */
  lemma SyncOrderIsIrrelevant(a: seq<AccessPolicy>, b: seq<AccessPolicy>, cache: Cache)
    requires multiset(a) == multiset(b) && DistinctKeys(a)
    ensures Sync(a, cache) == Sync(b, cache)
  {
    var x, y := Sync(a, cache), Sync(b, cache);
    forall key: string
      ensures key in x <==> key in y
      ensures key in x ==> x[key] == y[key]
    {
      LastEntryWins(a, cache, key);
      LastEntryWins(b, cache, key);
      forall p: AccessPolicy
        ensures p in a <==> p in b
      {
        assert p in a <==> p in multiset(a);
        assert p in b <==> p in multiset(b);
      }
      if Writes(a, key) {
        var i :| LastWriter(a, i, key) && x[key] == a[i].permissions;
        var j :| LastWriter(b, j, key) && y[key] == b[j].permissions;
        assert b[j] in a;
      }
    }
  }

  // ---- Pairs and keys ---------------------------------------------------------------------

  /** The text before and after the first colon. */
  function Decode(key: string): Option<(string, string)> {
    if key == "" then None
    else if key[0] == ':' then Some(("", key[1..]))
    else
      match Decode(key[1..])
      case None => None
      case Some((user, device)) => Some(([key[0]] + user, device))
  }

  /** A key is uniquely decodable at its first colon when the user id has none. */
  lemma {:induction false} DecodeKey(user: string, device: string)
    requires ':' !in user
    ensures Decode(Key(user, device)) == Some((user, device))
  {
    if user == "" {
      assert Key(user, device) == [':'] + device;
    } else {
      DecodeKey(user[1..], device);
      assert Key(user, device) == [user[0]] + Key(user[1..], device);
      assert [user[0]] + user[1..] == user;
    }
  }

  /** Two users can meet in one key exactly when one user id is the other, a colon and any text, even none. */
  lemma KeysCollideIff(u: string, v: string)
    requires u != v
    ensures (exists d, e :: Key(u, d) == Key(v, e)) <==> (u + ":" <= v || v + ":" <= u)
  {
    forall d, e | Key(u, d) == Key(v, e)
      ensures u + ":" <= v || v + ":" <= u
    {
      SharedKey(u, d, v, e);
    }
    if u + ":" <= v {
      assert Key(u, v[|u| + 1..] + ":") == Key(v, "");
    } else if v + ":" <= u {
      assert Key(u, "") == Key(v, u[|v| + 1..] + ":");
    }
  }

  lemma SharedKey(u: string, d: string, v: string, e: string)
    requires Key(u, d) == Key(v, e)
    ensures u == v ==> d == e
    ensures u != v ==> u + ":" <= v || v + ":" <= u
  {
    var k := Key(u, d);
    assert u == k[..|u|] && v == k[..|v|] && d == k[|u| + 1..] && e == k[|v| + 1..];
    if |u| < |v| {
      assert u + ":" == k[..|u| + 1] == v[..|u| + 1];
    } else if |v| < |u| {
      assert v + ":" == k[..|v| + 1] == u[..|v| + 1];
    }
  }

  // ---- The cache refines a map over pairs --------------------------------------------------

  /** One policy write, by SetPolicy or by an entry of a batch. */
  datatype PolicyWrite = PolicyWrite(user: string, device: string, permissions: seq<string>)

  type PairMap = map<(string, string), seq<string>>

  function CacheAfter(history: seq<PolicyWrite>): Cache {
    if history == [] then map[]
    else
      var w := history[|history| - 1];
      CacheAfter(history[..|history| - 1])[Key(w.user, w.device) := w.permissions]
  }

  function PairsAfter(history: seq<PolicyWrite>): PairMap {
    if history == [] then map[]
    else
      var w := history[|history| - 1];
      PairsAfter(history[..|history| - 1])[(w.user, w.device) := w.permissions]
  }

  predicate PairAnswer(pairs: PairMap, user: string, device: string) {
    (user, device) in pairs && GUI_ACCESS in pairs[(user, device)]
  }

  /** The writes of a batch, in order. */
  function WritesOf(policies: seq<AccessPolicy>): seq<PolicyWrite> {
    if policies == [] then []
    else
      var p := policies[|policies| - 1];
      WritesOf(policies[..|policies| - 1])
      + if Relevant(p) then [PolicyWrite(p.principalId, p.targetId, p.permissions)] else []
  }

  /** A batch has the effect of its writes one at a time. */
  lemma {:induction false} SyncIsItsWrites(policies: seq<AccessPolicy>, history: seq<PolicyWrite>)
    ensures Sync(policies, CacheAfter(history)) == CacheAfter(history + WritesOf(policies))
    ensures |WritesOf(policies)| == CountRelevant(policies)
  {
    if policies == [] {
      assert history + [] == history;
    } else {
      var front, p := policies[..|policies| - 1], policies[|policies| - 1];
      SyncIsItsWrites(front, history);
      if Relevant(p) {
        var w := PolicyWrite(p.principalId, p.targetId, p.permissions);
        assert history + WritesOf(policies) == (history + WritesOf(front)) + [w];
        assert (history + WritesOf(policies))[..|history + WritesOf(front)|] == history + WritesOf(front);
      } else {
        assert WritesOf(policies) == WritesOf(front);
      }
    }
  }

  ghost predicate From(history: seq<PolicyWrite>, users: set<string>) {
    forall w <- history :: w.user in users
  }

  /** No user id of the set is another one followed by a colon and any text, even none. */
  ghost predicate Separated(users: set<string>) {
    forall u <- users, v <- users :: u != v ==> !(u + ":" <= v)
  }

  /** The cache answers every question about these users as the map over pairs would. */
  ghost predicate Faithful(users: set<string>) {
    forall history: seq<PolicyWrite>, u: string, d: string :: From(history, users) && u in users ==>
      Answer(CacheAfter(history), u, d) == PairAnswer(PairsAfter(history), u, d)
  }

  lemma HasColon(u: string, v: string)
    requires u + ":" <= v
    ensures ':' in v
  {
    assert v[|u|] == (u + ":")[|u|];
  }

  lemma NoColonIsSeparated(users: set<string>)
    requires forall u <- users :: ':' !in u
    ensures Separated(users)
  {
    forall u, v | u + ":" <= v
      ensures ':' in v
    {
      HasColon(u, v);
    }
  }

  lemma {:induction false} CacheMirrorsPairs(history: seq<PolicyWrite>, users: set<string>, u: string, d: string)
    requires Separated(users) && From(history, users) && u in users
    ensures Key(u, d) in CacheAfter(history) <==> (u, d) in PairsAfter(history)
    ensures (u, d) in PairsAfter(history) ==> CacheAfter(history)[Key(u, d)] == PairsAfter(history)[(u, d)]
  {
    if history != [] {
      var front, w := history[..|history| - 1], history[|history| - 1];
      assert history == front + [w];
      CacheMirrorsPairs(front, users, u, d);
      if Key(u, d) == Key(w.user, w.device) {
        SharedKey(u, d, w.user, w.device);
      }
    }
  }

  /**
   * The string-keyed cache refines the last-write-wins map over (user, device) pairs for a population of
   * users if and only if that population is separated; user ids without a colon always are.
   */
  lemma FaithfulIffSeparated(users: set<string>)
    ensures Faithful(users) <==> Separated(users)
  {
    if Separated(users) {
      forall history: seq<PolicyWrite>, u: string, d: string | From(history, users) && u in users
        ensures Answer(CacheAfter(history), u, d) == PairAnswer(PairsAfter(history), u, d)
      {
        CacheMirrorsPairs(history, users, u, d);
      }
    } else {
      var u, v :| u in users && v in users && u != v && u + ":" <= v;
      var history := [PolicyWrite(v, "", [GUI_ACCESS])];
      var d := v[|u| + 1..] + ":";
      assert Key(u, d) == Key(v, "");
      assert history[..0] == [];
      assert Answer(CacheAfter(history), u, d) && !PairAnswer(PairsAfter(history), u, d);
    }
  }

  /** Writing one pair never changes what is answered for another. */
  lemma PairsAreIndependent(history: seq<PolicyWrite>, w: PolicyWrite, users: set<string>, u: string, d: string)
    requires Separated(users) && From(history + [w], users) && u in users && (w.user, w.device) != (u, d)
    ensures Answer(CacheAfter(history + [w]), u, d) == Answer(CacheAfter(history), u, d)
  {
    assert w in history + [w];
    assert (history + [w])[..|history|] == history;
    if Key(u, d) == Key(w.user, w.device) {
      SharedKey(u, d, w.user, w.device);
    }
  }
}
