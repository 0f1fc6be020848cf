/**
 * The rows of `gate_sessions` and what each statement of the session service does to them.
 *
 * Every service call is split the way the program splits it: `Guard` is what the call decides
 * from its SELECT, `Write` is its INSERT or UPDATE.  `Apply` runs both without a gap.
 */
module Sessions {
  import opened Common

  /** The `state` column is free text, so a value outside the four names is representable. */
  datatype State = Requested | Authorized | Active | Disconnected | Other(text: string)

  function StateOf(text: string): State {
    if text == "REQUESTED" then Requested
    else if text == "AUTHORIZED" then Authorized
    else if text == "ACTIVE" then Active
    else if text == "DISCONNECTED" then Disconnected
    else Other(text)
  }

  function NameOf(s: State): string {
    match s
    case Requested => "REQUESTED"
    case Authorized => "AUTHORIZED"
    case Active => "ACTIVE"
    case Disconnected => "DISCONNECTED"
    case Other(text) => text
  }

  /** The GUI columns of a row; NULL is `None`. */
  datatype Gui = Gui(protocol: Option<string>,
                     vncPort: Option<int>,
                     x11Port: Option<int>,
                     startedAt: Option<Time>,
                     endedAt: Option<Time>)

  const NO_GUI := Gui(None, None, None, None, None)

  datatype Session = Session(id: string,
                             userId: string,
                             deviceId: string,
                             state: State,
                             certSerial: string,
                             certExpiresAt: Time,
                             startedAt: Time,
                             connectedAt: Option<Time>,
                             disconnectedAt: Option<Time>,
                             sshPort: int,
                             recordingId: Option<string>,
                             disconnectReason: Option<string>,
                             gui: Gui,
                             createdAt: Time,
                             updatedAt: Time)

  type Store = map<string, Session>

  /** One call on the session service. */
  datatype Op =
    | Create(id: string, userId: string, deviceId: string, certSerial: string, certExpiresAt: Time)
    | Update(id: string, newState: string)
    | MarkConnected(id: string)
    | Disconnect(id: string, reason: string)
    | Cleanup
    | GuiStart(id: string, protocol: string, vncPort: int, x11Port: int)
    | GuiEnd(id: string)

  datatype Error =
    | DuplicateKey(id: string)
    | InvalidState(name: string)
    | NotFound(id: string)
    | InvalidTransition(from: State, to: State)
    | NotAuthorized(current: State)
    | AlreadyDisconnected

  datatype Outcome = Ok | Fail(error: Error)

  /** GUI writes take their time from the database's NOW(); all other calls read the application clock. */
  predicate IsGui(op: Op) {
    op.GuiStart? || op.GuiEnd?
  }

  /** Calls that SELECT the state of one session and then UPDATE it. */
  predicate ReadsThenWrites(op: Op) {
    op.Update? || op.MarkConnected? || op.Disconnect?
  }

  /** Calls that change the lifecycle of sessions that already exist; all run under the shared lock. */
  predicate IsLifecycle(op: Op) {
    ReadsThenWrites(op) || op.Cleanup?
  }

  predicate Allowed(from: State, to: State) {
    match from
    case Requested => to == Authorized || to == Disconnected
    case Authorized => to == Active || to == Disconnected
    case Active => to == Disconnected
    case _ => false
  }

  /** What the call decides before it writes; None means that it goes on to write. */
  function Guard(op: Op, store: Store): Option<Error> {
    match op
    case Create(id, _, _, _, _) =>
      if id in store then Some(DuplicateKey(id)) else None
    case Update(id, newState) =>
      if StateOf(newState).Other? then Some(InvalidState(newState))
      else if id !in store then Some(NotFound(id))
      else if Allowed(store[id].state, StateOf(newState)) then None
      else Some(InvalidTransition(store[id].state, StateOf(newState)))
    case MarkConnected(id) =>
      if id !in store then Some(NotFound(id))
      else if store[id].state == Authorized then None
      else Some(NotAuthorized(store[id].state))
    case Disconnect(id, _) =>
      if id !in store then Some(NotFound(id))
      else if store[id].state == Disconnected then Some(AlreadyDisconnected)
      else None
    case _ => None
  }

  function NewSession(op: Op, now: Time): Session
    requires op.Create?
  {
    Session(op.id, op.userId, op.deviceId, Requested, op.certSerial, op.certExpiresAt, now,
            None, None, 2222, None, None, NO_GUI, now, now)
  }

  function Closed(row: Session, reason: string, now: Time): Session {
    row.(state := Disconnected, disconnectedAt := Some(now), disconnectReason := Some(reason), updatedAt := now)
  }

  /** The SET list of the call's UPDATE, applied to one row. */
  function WriteRow(op: Op, now: Time, row: Session): Session {
    match op
    case Create(_, _, _, _, _) => row
    case Update(_, newState) => row.(state := StateOf(newState), updatedAt := now)
    case MarkConnected(_) => row.(connectedAt := Some(now), state := Active, updatedAt := now)
    case Disconnect(_, reason) => Closed(row, reason, now)
    case Cleanup => Closed(row, "cert_expired", now)
    case GuiStart(_, protocol, vncPort, x11Port) =>
      row.(gui := row.gui.(protocol := Some(protocol), vncPort := Some(vncPort), x11Port := Some(x11Port),
                           startedAt := Some(now)))
    case GuiEnd(_) =>
      row.(gui := row.gui.(protocol := None, vncPort := None, x11Port := None, endedAt := Some(now)))
  }

  /** The WHERE clause of the call's UPDATE. */
  predicate Hits(op: Op, now: Time, id: string, row: Session) {
    match op
    case Create(_, _, _, _, _) => false
    case Cleanup => row.state != Disconnected && row.certExpiresAt < now
    case _ => id == op.id
  }

  /** The statement alone, with no check before it.  An UPDATE on an unknown id changes nothing. */
  function Write(op: Op, now: Time, store: Store): (r: Store)
    ensures r.Keys == store.Keys + (if op.Create? then {op.id} else {})
  {
    if op.Create? then store[op.id := NewSession(op, now)]
    else map id | id in store :: if Hits(op, now, id, store[id]) then WriteRow(op, now, store[id]) else store[id]
  }

  /** The whole call with nothing in between. */
  function Apply(op: Op, now: Time, store: Store): (Store, Outcome) {
    match Guard(op, store)
    case Some(e) => (store, Fail(e))
    case None => (Write(op, now, store), Ok)
  }

  datatype Step = Step(op: Op, now: Time)

  /** The store after a serial run. */
  function Run(steps: seq<Step>, store: Store): Store {
    if steps == [] then store
    else
      var last := steps[|steps| - 1];
      Apply(last.op, last.now, Run(steps[..|steps| - 1], store)).0
  }

  /** What the calls of a serial run return. */
  function Outcomes(steps: seq<Step>, store: Store): (r: seq<Outcome>)
    ensures |r| == |steps|
  {
    if steps == [] then []
    else
      var front, last := steps[..|steps| - 1], steps[|steps| - 1];
      Outcomes(front, store) + [Apply(last.op, last.now, Run(front, store)).1]
  }

  lemma RunSnoc(steps: seq<Step>, s: Step, store: Store)
    ensures Run(steps + [s], store) == Apply(s.op, s.now, Run(steps, store)).0
    ensures Outcomes(steps + [s], store) == Outcomes(steps, store) + [Apply(s.op, s.now, Run(steps, store)).1]
  {
    assert (steps + [s])[..|steps|] == steps;
  }

  /** The four names stand for four different states, and any other text is kept as it is. */
  lemma StateNamesRoundTrip(text: string, s: State)
    ensures NameOf(StateOf(text)) == text
    ensures !s.Other? ==> StateOf(NameOf(s)) == s
    ensures StateOf("REQUESTED") == Requested && StateOf("AUTHORIZED") == Authorized
    ensures StateOf("ACTIVE") == Active && StateOf("DISCONNECTED") == Disconnected
    ensures StateOf(text).Other? <==> text !in {"REQUESTED", "AUTHORIZED", "ACTIVE", "DISCONNECTED"}
  {
  }
}
