/** The three session lists: which rows they hold and in which order. */
module Listings {
  import opened Common
  import opened Sessions

  datatype Filter = ByDevice(deviceId: string) | ActiveOn(deviceId: string) | ByUser(userId: string)

  predicate Matches(f: Filter, row: Session) {
    match f
    case ByDevice(device) => row.deviceId == device
    case ActiveOn(device) => row.deviceId == device && row.state == Active
    case ByUser(user) => row.userId == user
  }

  /** Rows are stored under their own id, as in every reachable store. */
  ghost predicate Keyed(store: Store) {
    forall id <- store :: store[id].id == id
  }

  lemma {:induction false} ReachableIsKeyed(steps: seq<Step>)
    ensures Keyed(Run(steps, map[]))
  {
    if steps != [] {
      var front, last := steps[..|steps| - 1], steps[|steps| - 1];
      ReachableIsKeyed(front);
      CallKeepsKeyed(last.op, last.now, Run(front, map[]));
    }
  }

  lemma CallKeepsKeyed(op: Op, now: Time, store: Store)
    requires Keyed(store)
    ensures Keyed(Apply(op, now, store).0)
  {
    var next := Apply(op, now, store).0;
    forall id | id in next
      ensures next[id].id == id
    {
    }
  }

  ghost predicate Newest(rows: seq<Session>) {
    forall i, j :: 0 <= i < j < |rows| ==> rows[i].createdAt >= rows[j].createdAt
  }

  ghost predicate DistinctIds(rows: seq<Session>) {
    forall i, j :: 0 <= i < j < |rows| ==> rows[i].id != rows[j].id
  }

  /** The matching rows of the table, each once, newest first; rows of the same age in any order. */
  ghost predicate IsListing(f: Filter, store: Store, rows: seq<Session>) {
    && (forall r <- rows :: r.id in store && store[r.id] == r && Matches(f, r))
    && (forall id <- store :: Matches(f, store[id]) ==> store[id] in rows)
    && DistinctIds(rows)
    && Newest(rows)
  }

  lemma {:induction false} NewestExists(store: Store, left: set<string>)
    requires left <= store.Keys && left != {}
    ensures exists id <- left :: forall o <- left :: store[o].createdAt <= store[id].createdAt
  {
    var pick :| pick in left;
    var rest := left - {pick};
    if rest != {} {
      NewestExists(store, rest);
      var id :| id in rest && forall o <- rest :: store[o].createdAt <= store[id].createdAt;
      var best := if store[pick].createdAt <= store[id].createdAt then id else pick;
      assert forall o <- left :: o == pick || o in rest;
      assert best in left && forall o <- left :: store[o].createdAt <= store[best].createdAt;
    } else {
      assert left == {pick};
    }
  }

  /** Stands for the database's `SELECT ... WHERE ... ORDER BY created_at DESC`. */
  method Query(f: Filter, store: Store) returns (rows: seq<Session>)
    requires Keyed(store)
    ensures IsListing(f, store, rows)
  {
    rows := [];
    var left := set id | id in store && Matches(f, store[id]);
    while left != {}
      invariant forall id <- left :: id in store && Matches(f, store[id])
      invariant forall r <- rows :: r.id in store && store[r.id] == r && Matches(f, r) && r.id !in left
      invariant forall id <- store :: Matches(f, store[id]) ==> id in left || store[id] in rows
      invariant DistinctIds(rows) && Newest(rows)
      invariant forall r <- rows, id <- left :: store[id].createdAt <= r.createdAt
      decreases left
    {
      NewestExists(store, left);
      var id :| id in left && forall o <- left :: store[o].createdAt <= store[id].createdAt;
      rows := rows + [store[id]];
      left := left - {id};
    }
  }

  /** A session is in a user's list exactly when it is that user's, and likewise for devices. */
  lemma InExactlyOneListEach(store: Store, id: string, f: Filter, rows: seq<Session>)
    requires Keyed(store) && id in store && IsListing(f, store, rows)
    ensures (exists i :: 0 <= i < |rows| && rows[i].id == id) <==> Matches(f, store[id])
    ensures f.ByUser? ==> (Matches(f, store[id]) <==> f == ByUser(store[id].userId))
    ensures f.ByDevice? ==> (Matches(f, store[id]) <==> f == ByDevice(store[id].deviceId))
    ensures forall i, j :: 0 <= i < |rows| && 0 <= j < |rows| && rows[i].id == id && rows[j].id == id ==> i == j
  {
    if Matches(f, store[id]) {
      assert store[id] in rows;
    }
    forall i | 0 <= i < |rows| && rows[i].id == id
      ensures Matches(f, store[id])
    {
      assert rows[i] in rows;
    }
  }

  function OnlyActive(rows: seq<Session>): seq<Session> {
    if rows == [] then []
    else (if rows[0].state == Active then [rows[0]] else []) + OnlyActive(rows[1..])
  }

  lemma {:induction false} OnlyActiveKeeps(rows: seq<Session>)
    requires DistinctIds(rows) && Newest(rows)
    ensures forall r :: r in OnlyActive(rows) <==> r in rows && r.state == Active
    ensures DistinctIds(OnlyActive(rows)) && Newest(OnlyActive(rows))
  {
    if rows != [] {
      var tail := rows[1..];
      OnlyActiveKeeps(tail);
      assert rows == [rows[0]] + tail;
      var kept := OnlyActive(tail);
      forall i | 0 <= i < |kept|
        ensures kept[i].id != rows[0].id && kept[i].createdAt <= rows[0].createdAt
      {
        assert kept[i] in tail;
      }
    }
  }

  /** The rows of a device that are ACTIVE, taken from the device's full list, are a list of its active sessions. */
  lemma ActiveIsFilteredDevice(store: Store, device: string, rows: seq<Session>)
    requires IsListing(ByDevice(device), store, rows)
    ensures IsListing(ActiveOn(device), store, OnlyActive(rows))
  {
    OnlyActiveKeeps(rows);
  }

  // ---- Two listings differ in ties only ---------------------------------------------------

  function Ids(rows: seq<Session>): set<string> {
    set i | 0 <= i < |rows| :: rows[i].id
  }

  lemma IdsSnoc(rows: seq<Session>, last: Session)
    ensures Ids(rows + [last]) == Ids(rows) + {last.id}
  {
    var all := rows + [last];
    forall id | id in Ids(rows)
      ensures id in Ids(all)
    {
      var i :| 0 <= i < |rows| && rows[i].id == id;
      assert all[i].id == id;
    }
    assert all[|rows|].id == last.id;
  }

  lemma {:induction false} IdsCount(rows: seq<Session>)
    requires DistinctIds(rows)
    ensures |Ids(rows)| == |rows|
  {
    if rows != [] {
      var front, last := rows[..|rows| - 1], rows[|rows| - 1];
      IdsCount(front);
      IdsSnoc(front, last);
      assert rows == front + [last];
      assert last.id !in Ids(front);
    }
  }

  lemma SameIds(f: Filter, store: Store, a: seq<Session>, b: seq<Session>)
    requires Keyed(store) && IsListing(f, store, a) && IsListing(f, store, b)
    ensures Ids(a) <= Ids(b) && forall r <- a :: r in b
  {
    forall r | r in a
      ensures r in b
    {
      assert store[r.id] == r;
    }
    forall id | id in Ids(a)
      ensures id in Ids(b)
    {
      var i :| 0 <= i < |a| && a[i].id == id;
      assert a[i] in b;
    }
  }

  /** Rows newer than place `i` of a list stand before that place. */
  lemma NewerStandBefore(rows: seq<Session>, i: nat, r: Session)
    requires Newest(rows) && i < |rows| && r in rows && r.createdAt > rows[i].createdAt
    ensures r.id in Ids(rows[..i])
  {
    var k :| 0 <= k < |rows| && rows[k] == r;
    assert k < i && rows[..i][k] == r;
  }

  lemma NotNewer(f: Filter, store: Store, a: seq<Session>, b: seq<Session>, i: nat)
    requires Keyed(store) && IsListing(f, store, a) && IsListing(f, store, b)
    requires i < |a| && i < |b|
    ensures a[i].createdAt <= b[i].createdAt
  {
    if a[i].createdAt > b[i].createdAt {
      var first, before := a[..i + 1], b[..i];
      SameIds(f, store, a, b);
      forall id | id in Ids(first)
        ensures id in Ids(before)
      {
        var j :| 0 <= j < |first| && first[j].id == id;
        assert a[j] in b && a[j].createdAt >= a[i].createdAt;
        NewerStandBefore(b, i, a[j]);
      }
      IdsCount(first);
      IdsCount(before);
      Smaller(Ids(first), Ids(before));
    }
  }

  lemma Smaller(a: set<string>, b: set<string>)
    requires a <= b
    ensures |a| <= |b|
  {
    var rest := b - a;
    assert a + rest == b && |a + rest| == |a| + |rest|;
  }

  /** No two rows were created at the same time. */
  ghost predicate NoTies(rows: seq<Session>) {
    forall i, j :: 0 <= i < j < |rows| ==> rows[i].createdAt != rows[j].createdAt
  }

  lemma SameTimesSameRows(a: seq<Session>, b: seq<Session>)
    requires |a| == |b| && NoTies(a)
    requires forall i :: 0 <= i < |a| ==> a[i].createdAt == b[i].createdAt
    requires forall r <- a :: r in b
    ensures a == b
  {
    forall i | 0 <= i < |a|
      ensures a[i] == b[i]
    {
      assert a[i] in b;
      var k :| 0 <= k < |b| && b[k] == a[i];
      assert a[k].createdAt == a[i].createdAt;
    }
  }

  /** Any two answers to one query have the same sessions and the same creation times, place by place. */
  lemma ListingsAgreeUpToTies(f: Filter, store: Store, a: seq<Session>, b: seq<Session>)
    requires Keyed(store) && IsListing(f, store, a) && IsListing(f, store, b)
    ensures |a| == |b| && (forall r :: r in a <==> r in b)
    ensures forall i :: 0 <= i < |a| ==> a[i].createdAt == b[i].createdAt
    ensures NoTies(a) ==> a == b
  {
    SameIds(f, store, a, b);
    SameIds(f, store, b, a);
    assert |a| == |b| by {
      assert Ids(a) == Ids(b);
      IdsCount(a);
      IdsCount(b);
    }
    forall i | 0 <= i < |a|
      ensures a[i].createdAt == b[i].createdAt
    {
      NotNewer(f, store, a, b, i);
      NotNewer(f, store, b, a, i);
    }
    if NoTies(a) {
      SameTimesSameRows(a, b);
    }
  }

  /** ListActiveSessions of a device is its ListSessionsByDevice filtered to ACTIVE, up to ties in age. */
  lemma ActiveListIsFilteredDeviceList(store: Store, device: string, all: seq<Session>, active: seq<Session>)
    requires Keyed(store) && IsListing(ByDevice(device), store, all) && IsListing(ActiveOn(device), store, active)
    ensures var filtered := OnlyActive(all);
            && |active| == |filtered| && (forall r :: r in active <==> r in filtered)
            && (forall i :: 0 <= i < |active| ==> active[i].createdAt == filtered[i].createdAt)
  {
    ActiveIsFilteredDevice(store, device, all);
    ListingsAgreeUpToTies(ActiveOn(device), store, active, OnlyActive(all));
  }
}
