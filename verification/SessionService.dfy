/** The session service as a class over its table, one call at a time. */
module SessionServices {
  import opened Common
  import opened Sessions
  import opened Listings

  datatype Lookup = Found(session: Session) | Missing(error: Error)

  /** Nothing but the GUI columns of this one session may differ. */
  ghost predicate GuiChangesOnly(id: string, was: Store, now: Store) {
    && now.Keys == was.Keys
    && (forall other <- was :: other != id ==> now[other] == was[other])
    && (id in was ==> now[id] == was[id].(gui := now[id].gui))
  }

  class SessionService {
    var sessions: Store

    constructor ()
      ensures sessions == map[]
    {
      sessions := map[];
    }

    method CreateSession(id: string, userId: string, deviceId: string, certSerial: string,
                         certExpiresAt: Time, now: Time)
      returns (r: Lookup)
      modifies this
      ensures id in old(sessions) ==> r == Missing(DuplicateKey(id)) && sessions == old(sessions)
      ensures id !in old(sessions) ==>
                && r.Found? && sessions == old(sessions)[id := r.session]
                && r.session.state == Requested && r.session.sshPort == 2222
                && r.session.createdAt == r.session.startedAt == r.session.updatedAt == now
      ensures sessions == Apply(Create(id, userId, deviceId, certSerial, certExpiresAt), now, old(sessions)).0
    {
      if id in sessions {
        return Missing(DuplicateKey(id));
      }
      var session := Session(id, userId, deviceId, Requested, certSerial, certExpiresAt, now,
                             None, None, 2222, None, None, NO_GUI, now, now);
      sessions := sessions[id := session];
      return Found(session);
    }

    method GetSession(id: string) returns (r: Lookup)
      ensures r == if id in sessions then Found(sessions[id]) else Missing(NotFound(id))
    {
      if id !in sessions {
        return Missing(NotFound(id));
      }
      return Found(sessions[id]);
    }

    method UpdateSessionState(id: string, newState: string, now: Time) returns (o: Outcome)
      modifies this
      ensures sessions == Apply(Update(id, newState), now, old(sessions)).0
      ensures o == Apply(Update(id, newState), now, old(sessions)).1
      ensures o == Fail(InvalidState(newState)) <==> newState !in {"REQUESTED", "AUTHORIZED", "ACTIVE", "DISCONNECTED"}
      ensures o == Fail(NotFound(id)) <==>
                newState in {"REQUESTED", "AUTHORIZED", "ACTIVE", "DISCONNECTED"} && id !in old(sessions)
      ensures o == Ok <==>
                && id in old(sessions)
                && (old(sessions)[id].state, newState)
                   in {(Requested, "AUTHORIZED"), (Requested, "DISCONNECTED"), (Authorized, "ACTIVE"),
                       (Authorized, "DISCONNECTED"), (Active, "DISCONNECTED")}
      ensures o != Ok ==> sessions == old(sessions)
      ensures o.Fail? && o.error != InvalidState(newState) && o.error != NotFound(id) ==>
                o.error == InvalidTransition(old(sessions)[id].state, StateOf(newState))
    {
      var validStates := {Requested, Authorized, Active, Disconnected};
      var target := StateOf(newState);
      if target !in validStates {
        return Fail(InvalidState(newState));
      }
      if id !in sessions {
        return Fail(NotFound(id));
      }
      var current := sessions[id].state;
      var validTransitions: map<State, set<State>> :=
        map[Requested := {Authorized, Disconnected},
            Authorized := {Active, Disconnected},
            Active := {Disconnected},
            Disconnected := {}];
      if current !in validTransitions || target !in validTransitions[current] {
        return Fail(InvalidTransition(current, target));
      }
      sessions := sessions[id := sessions[id].(state := target, updatedAt := now)];
      return Ok;
    }

    method MarkConnected(id: string, now: Time) returns (o: Outcome)
      modifies this
      ensures sessions == Apply(Op.MarkConnected(id), now, old(sessions)).0
      ensures o == Apply(Op.MarkConnected(id), now, old(sessions)).1
      ensures o == Fail(NotFound(id)) <==> id !in old(sessions)
      ensures o == Ok <==> id in old(sessions) && old(sessions)[id].state == Authorized
      ensures o.Fail? && id in old(sessions) ==> o.error == NotAuthorized(old(sessions)[id].state)
      ensures o != Ok ==> sessions == old(sessions)
    {
      if id !in sessions {
        return Fail(NotFound(id));
      }
      var current := sessions[id].state;
      if current != Authorized {
        return Fail(NotAuthorized(current));
      }
      sessions := sessions[id := sessions[id].(connectedAt := Some(now), state := Active, updatedAt := now)];
      return Ok;
    }

    method DisconnectSession(id: string, reason: string, now: Time) returns (o: Outcome)
      modifies this
      ensures sessions == Apply(Disconnect(id, reason), now, old(sessions)).0
      ensures o == Apply(Disconnect(id, reason), now, old(sessions)).1
      ensures o == Fail(NotFound(id)) <==> id !in old(sessions)
      ensures o == Fail(AlreadyDisconnected) <==> id in old(sessions) && old(sessions)[id].state == Disconnected
      ensures o == Ok <==> id in old(sessions) && old(sessions)[id].state != Disconnected
      ensures o != Ok ==> sessions == old(sessions)
    {
      if id !in sessions {
        return Fail(NotFound(id));
      }
      if sessions[id].state == Disconnected {
        return Fail(AlreadyDisconnected);
      }
      sessions := sessions[id := sessions[id].(state := Disconnected, disconnectedAt := Some(now),
                                               disconnectReason := Some(reason), updatedAt := now)];
      return Ok;
    }

    /** One UPDATE over the whole table. */
    method CleanupExpiredSessions(now: Time) returns (o: Outcome)
      modifies this
      ensures sessions == Apply(Cleanup, now, old(sessions)).0
      ensures o == Ok
    {
      sessions := map id | id in sessions ::
        if sessions[id].state != Disconnected && sessions[id].certExpiresAt < now
        then sessions[id].(state := Disconnected, disconnectedAt := Some(now),
                           disconnectReason := Some("cert_expired"), updatedAt := now)
        else sessions[id];
      return Ok;
    }

    method UpdateSessionGUIStatus(id: string, protocol: string, vncPort: int, x11Port: int, dbNow: Time)
      modifies this
      ensures sessions == Apply(GuiStart(id, protocol, vncPort, x11Port), dbNow, old(sessions)).0
      ensures GuiChangesOnly(id, old(sessions), sessions)
      ensures id in sessions ==>
                sessions[id].gui == Gui(Some(protocol), Some(vncPort), Some(x11Port), Some(dbNow),
                                        old(sessions)[id].gui.endedAt)
    {
      if id in sessions {
        var gui := sessions[id].gui.(protocol := Some(protocol), vncPort := Some(vncPort),
                                     x11Port := Some(x11Port), startedAt := Some(dbNow));
        sessions := sessions[id := sessions[id].(gui := gui)];
      }
    }

    method EndGUISession(id: string, dbNow: Time)
      modifies this
      ensures sessions == Apply(GuiEnd(id), dbNow, old(sessions)).0
      ensures GuiChangesOnly(id, old(sessions), sessions)
      ensures id in sessions ==>
                sessions[id].gui == Gui(None, None, None, old(sessions)[id].gui.startedAt, Some(dbNow))
    {
      if id in sessions {
        var gui := sessions[id].gui.(protocol := None, vncPort := None, x11Port := None, endedAt := Some(dbNow));
        sessions := sessions[id := sessions[id].(gui := gui)];
      }
    }

    method ListSessionsByDevice(deviceId: string) returns (list: seq<Session>)
      requires Keyed(sessions)
      ensures IsListing(ByDevice(deviceId), sessions, list)
      ensures forall r <- list :: r.deviceId == deviceId
      ensures forall id <- sessions :: var r := sessions[id]; r in list <==> r.deviceId == deviceId
      ensures forall i, j :: 0 <= i < j < |list| ==> list[i].createdAt >= list[j].createdAt && list[i].id != list[j].id
    {
      var rows := Query(ByDevice(deviceId), sessions);
      list := [];
      for i := 0 to |rows|
        invariant list == rows[..i]
      {
        list := list + [rows[i]];
      }
      assert rows[..|rows|] == rows;
    }

    method ListActiveSessions(deviceId: string) returns (list: seq<Session>)
      requires Keyed(sessions)
      ensures IsListing(ActiveOn(deviceId), sessions, list)
      ensures forall r <- list :: r.deviceId == deviceId && r.state == Active
      ensures forall id <- sessions :: var r := sessions[id]; r in list <==> r.deviceId == deviceId && r.state == Active
      ensures forall i, j :: 0 <= i < j < |list| ==> list[i].createdAt >= list[j].createdAt && list[i].id != list[j].id
    {
      var rows := Query(ActiveOn(deviceId), sessions);
      list := [];
      for i := 0 to |rows|
        invariant list == rows[..i]
      {
        list := list + [rows[i]];
      }
      assert rows[..|rows|] == rows;
    }

    method ListSessionsByUser(userId: string) returns (list: seq<Session>)
      requires Keyed(sessions)
      ensures IsListing(ByUser(userId), sessions, list)
      ensures forall r <- list :: r.userId == userId
      ensures forall id <- sessions :: var r := sessions[id]; r in list <==> r.userId == userId
      ensures forall i, j :: 0 <= i < j < |list| ==> list[i].createdAt >= list[j].createdAt && list[i].id != list[j].id
    {
      var rows := Query(ByUser(userId), sessions);
      list := [];
      for i := 0 to |rows|
        invariant list == rows[..i]
      {
        list := list + [rows[i]];
      }
      assert rows[..|rows|] == rows;
    }
  }
}
