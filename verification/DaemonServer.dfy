/** The daemon's notification methods and the status handler, over a shared session service. */
module DaemonServers {
  import opened Common
  import opened Sessions
  import opened SessionServices
  import opened GuiSessions

  datatype Reply = Accept | Reject(message: string)

  class DaemonServer {
    const sessionService: SessionService

    constructor (sessionService: SessionService)
      ensures this.sessionService == sessionService
    {
      this.sessionService := sessionService;
    }

    /** The unused port is stored as 0, although the comment beside the assignment speaks of NULL. */
    method NotifyGUISessionStart(id: string, protocol: string, port: int, dbNow: Time) returns (r: Reply)
      modifies sessionService
      ensures var request := NotifyStart(id, protocol, port, dbNow);
              && (r.Accept? <==> Accepted(request))
              && sessionService.sessions == Run(Dispatch(request), old(sessionService.sessions))
      ensures r == if protocol == "vnc" || protocol == "x11" then Accept
                   else Reject("unsupported GUI protocol: " + protocol)
      ensures r.Reject? ==> sessionService.sessions == old(sessionService.sessions)
      ensures r.Accept? ==> GuiChangesOnly(id, old(sessionService.sessions), sessionService.sessions)
      ensures r.Accept? && id in sessionService.sessions ==>
                var vncPort, x11Port := if protocol == "vnc" then port else 0, if protocol == "x11" then port else 0;
                sessionService.sessions[id].gui
                == Gui(Some(protocol), Some(vncPort), Some(x11Port), Some(dbNow),
                       old(sessionService.sessions)[id].gui.endedAt)
    {
      var vncPort, x11DisplayPort := 0, 0;
      if protocol == "vnc" {
        vncPort := port;
        x11DisplayPort := 0;
      } else if protocol == "x11" {
        vncPort := 0;
        x11DisplayPort := port;
      } else {
        return Reject("unsupported GUI protocol: " + protocol);
      }
      RunSnoc([], Step(GuiStart(id, protocol, vncPort, x11DisplayPort), dbNow), sessionService.sessions);
      sessionService.UpdateSessionGUIStatus(id, protocol, vncPort, x11DisplayPort, dbNow);
      return Accept;
    }

    method NotifyGUISessionEnd(id: string, dbNow: Time) returns (r: Reply)
      modifies sessionService
      ensures r.Accept?
      ensures sessionService.sessions == Run(Dispatch(NotifyEnd(id, dbNow)), old(sessionService.sessions))
      ensures GuiChangesOnly(id, old(sessionService.sessions), sessionService.sessions)
      ensures id in sessionService.sessions ==>
                sessionService.sessions[id].gui
                == Gui(None, None, None, old(sessionService.sessions)[id].gui.startedAt, Some(dbNow))
    {
      RunSnoc([], Step(GuiEnd(id), dbNow), sessionService.sessions);
      sessionService.EndGUISession(id, dbNow);
      return Accept;
    }
  }

  datatype Response = StatusOk(status: Status) | HttpError(code: int)

  /**
   * The status endpoint.  It compares the lookup error with the driver's "no rows" value, but the service
   * returns an error of its own for a missing row, so an unknown session is answered with 500 and never 404.
   */
  method SessionStatus(service: SessionService, id: string) returns (r: Response)
    ensures r == if id in service.sessions then StatusOk(StatusOf(service.sessions[id])) else HttpError(500)
    ensures id in service.sessions ==>
              var row, status := service.sessions[id], r.status;
              && status.id == row.id && status.state == row.state && status.sshActive && status.sshPort == row.sshPort
              && status.startedAt == row.startedAt && status.updatedAt == row.updatedAt
  {
    var lookup := service.GetSession(id);
    if lookup.Missing? {
      return HttpError(500);
    }
    var session := lookup.session;
    var guiActive := session.gui.protocol.Some? && session.gui.protocol.value != "";
    var guiPort: Option<int> := None;
    if guiActive {
      if session.gui.protocol.value == "vnc" {
        guiPort := session.gui.vncPort;
      } else if session.gui.protocol.value == "x11" {
        guiPort := session.gui.x11Port;
      }
    }
    return StatusOk(Status(session.id, session.state, true, guiActive, session.gui.protocol, guiPort,
                           session.sshPort, session.startedAt, session.updatedAt));
  }
}
