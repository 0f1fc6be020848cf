# JennGate verification model

A Dafny model of the stateful parts of JennGate, a remote-access service written in Go, with proofs of
what they guarantee one call at a time and under concurrent callers.

* **Sessions.** The rows of `gate_sessions` and the calls of `SessionService`. Each call is split as the
  program splits it: what it decides from its SELECT (`Guard`) and its INSERT or UPDATE alone (`Write`).
  `SessionServices.SessionService` is the serial class; `Interleaving` lets the lock, SELECT, clock, UPDATE
  and unlock steps of many calls interleave under an RWMutex. `SerialRuns` proves the serial guarantees.
  `Reduction` says exactly when replaying the calls in the order they took effect gives their results back,
  and `Serializability` exactly when some order does, for runs without a cleanup call; `ClockOrder` finds an
  order in which the clock never goes back. `Progress` shows that every call can return. `Races`,
  `OverlapBound` and `OverlapTimes` say when overlap breaks the absorbing state, the bound on transitions
  and the order of the timestamps, with a run for each.
* **GUI.** The daemon's start and end notifications, the columns they write, and the status handler, one
  request at a time (`GuiSessions`, `DaemonServers`) and in every interleaving (`GuiOverlap`).
* **Policies.** The string-keyed permission cache, as a class, as a refinement of a map over
  (user, device) pairs, and under concurrent callers with every iteration of a batch a step of its own
  (`PolicyConcurrency`, and over pairs `PolicyPairs`).
* **Certificates.** Serial packing with shift and or, the validity window, the issue endpoint.
* **Recordings.** Rows and files, including Go's lexical path clean-up, and what a run leaves of them
  (`RecordingHistory`).
* **Load metrics.** Sort, int64 running sum, truncating mean, 99th percentile.

Clock readings, UUIDs, random bytes and the database's NOW() are parameters. A store starts empty. Each SQL
statement is one atomic step. The application clock and the database clock are separate; neither goes back.
Runs with overlapping calls are sequences of events in which an event that its caller is not ready for changes
nothing, so statements about all sequences are statements about all reachable states.

## Findings

* DISCONNECTED is not absorbing under the shared lock. A disconnect and a mark-connected that both SELECT an
  AUTHORIZED session can both succeed and leave it ACTIVE with a disconnect time, a store that no serial run
  produces. A DISCONNECTED row is reopened exactly by an UPDATE to another state, and such an UPDATE is always
  stale: its own check would by then reject it. (A stale disconnect is rejected too, and reopens nothing.)
* Without cleanup calls a run has a serial order if and only if none of its UPDATEs was stale. A cleanup can
  hide a stale UPDATE: when it closes an expired session between a disconnect's SELECT and its UPDATE, and
  both read the same time, the outcome is that of the disconnect followed by the cleanup.
* The serial bound of three transitions for each session fails under overlap, where any number of
  mark-connected calls can succeed on one session. In a reachable state an UPDATE raises its session's rank
  exactly when it is not stale, three more transitions for each stale UPDATE always suffice, and runs without
  stale UPDATEs meet the serial bound.
* Under overlap a DISCONNECTED session can show an update time, and with it a disconnect time, before its
  connect time, even when no other call writes the session between any call's SELECT and its UPDATE. Without
  stale UPDATEs this happens exactly when a call closes a session that was connected after the call read the
  clock.
* The `user:device` key stands for the pair if and only if no user id is another one followed by a colon and
  any text, possibly none. User ids without a colon satisfy this. The same condition is exact for concurrent
  callers.
* The comment beside the port assignment speaks of keeping the unused port NULL; the code stores 0.
* A status request for an unknown session is answered with 500: the handler's test for 404 never succeeds,
  because the service wraps the lookup error.
* A certificate is accepted one second longer than OpenSSH's PROTOCOL.certkeys (section "New public key
  formats") allows, and the expiry reported to the client can be a second the certificate is not accepted in.
* Serial numbers carry the issue time exactly while the Unix time is below 2^32.

## Model

| member | source | states |
|---|---|---|
| SessionServices.SessionService.CreateSession | internal/services/session_service.go:62-113 | a new row in REQUESTED with one reading in all three time columns; a repeated id is refused and changes nothing |
| SessionServices.SessionService.UpdateSessionState | internal/services/session_service.go:149-202 | succeeds for exactly the five listed pairs of states; each error under exactly its own condition and with its arguments; nothing changes on an error |
| SessionServices.SessionService.MarkConnected | internal/services/session_service.go:206-238 | ACTIVE with a connect time, from AUTHORIZED only; the two errors under exactly their conditions |
| SessionServices.SessionService.DisconnectSession | internal/services/session_service.go:241-273 | DISCONNECTED with reason and time, unless already there; the two errors under exactly their conditions |
| SessionServices.SessionService.CleanupExpiredSessions | internal/services/session_service.go:406-433 | closes exactly the open rows whose certificate expired strictly before the reading |
| SessionServices.SessionService.UpdateSessionGUIStatus | internal/services/session_service.go:437-458 | sets protocol, both ports and the start time of a known session and nothing else; silent for an unknown one |
| SessionServices.SessionService.EndGUISession | internal/services/session_service.go:462-481 | clears protocol and ports, records the database time as end time and changes nothing else |
| SessionServices.SessionService.GetSession | internal/services/session_service.go:116-145 | the row, or the not-found error |
| Sessions.StateNamesRoundTrip | internal/services/session_service.go:16-21 | the four state names, literally, stand for four different states and any other text is kept |
| SessionServices.SessionService.ListSessionsByDevice | internal/services/session_service.go:276-316 | the device's rows, each once, newest first |
| SessionServices.SessionService.ListActiveSessions | internal/services/session_service.go:319-359 | the device's ACTIVE rows, each once, newest first |
| SessionServices.SessionService.ListSessionsByUser | internal/services/session_service.go:362-402 | the user's rows, each once, newest first |
| SerialRuns.SuccessRaisesRank | internal/services/session_service.go:176-186 | a successful lifecycle call moves every row it writes strictly up and leaves every other row alone |
| SerialRuns.DisconnectedIsFinal | internal/services/session_service.go:255-258 | in serial runs a DISCONNECTED row changes in its GUI columns only |
| SerialRuns.TransitionsAreBounded | internal/services/session_service.go:176-186 | at most three successful transitions, cleanup rows included, for each session created |
| SerialRuns.SerialTimes | internal/services/session_service.go:189-267 | order of created, connected, disconnected and updated times and their relation to the state, in every serial run with a clock that does not go back |
| SerialRuns.RowTellsItsHistory | internal/services/session_service.go:188-270 | every lifecycle column equals what the last successful call on the row wrote |
| SerialRuns.RowKeepsItsCreation | internal/services/session_service.go:81-98 | a session exists iff some call created it, and keeps the ids, certificate and times of the first such call |
| SerialRuns.DisconnectTimeMeansDisconnected | internal/services/session_service.go:260-267 | with any clock, a serial run leaves a disconnect time on DISCONNECTED rows only |
| SerialRuns.CleanupIsASweep | internal/services/session_service.go:410-425 | cleanup equals DisconnectSession with reason "cert_expired" over the expired open sessions in any order |
| SerialRuns.SweepSucceeds | internal/services/session_service.go:241-273 | none of those calls fails when each session is listed once |
| SerialRuns.CleanupTwice | internal/services/session_service.go:410-425 | cleaning up at t1 and then t2 closes the same rows as t2 alone; repeating it changes nothing |
| Interleaving.LockInvariant | internal/services/session_service.go:149-151 | readers and the writer are exactly the calls inside the lock, never both kinds |
| Interleaving.OnlyLifecycleWritesEnterAWindow | internal/services/session_service.go:149-273 | between a call's SELECT and its UPDATE no creation and no GUI write can happen |
| Interleaving.EveryStateIsSound | internal/services/session_service.go:149-433 | in every interleaving: the state is one of the four names, and disconnect time and reason are set together |
| Interleaving.NothingReturnsToRequested | internal/services/session_service.go:149-433 | in every interleaving: no row disappears, returns to REQUESTED or loses its creation columns |
| Interleaving.ActiveWasAuthorized | internal/services/session_service.go:176-223 | in every interleaving: an ACTIVE session was AUTHORIZED at an earlier step |
| Progress.EveryCallCanReturn | internal/services/session_service.go:62-481 | from every reachable state, the calls already invoked can all go on until they have returned |
| Reduction.ReplaysIffFresh | internal/services/session_service.go:149-273 | the calls replayed in commit order return what they returned if and only if every UPDATE's check still passed; then the stores agree too |
| Reduction.UndisturbedIsFresh | internal/services/session_service.go:149-273 | it still passes when no other lifecycle write hits the session inside a call's window |
| Reduction.UndisturbedRunsAreSerial | internal/services/session_service.go:149-433 | such a run has the store and the results of a serial run of the same calls with the same timestamps |
| Reduction.LogAccounts | internal/services/session_service.go:149-433 | the serial run has each finished call exactly once, with its operation and result |
| Reduction.RealTimeOrder | internal/services/session_service.go:149-433 | a call that returned before another was invoked precedes it in the serial run |
| Reduction.QuietRunsKeepTimes | internal/services/session_service.go:149-433 | the serial timestamp relations carry over to interleaved runs whose windows, cleanups' included, are undisturbed |
| Races.ReopensIff | internal/services/session_service.go:149-238 | a DISCONNECTED row is reopened exactly by a stale UPDATE to another state |
| Races.FreshRunsNeverReopen | internal/services/session_service.go:149-273 | DISCONNECTED is absorbing in every run whose UPDATEs are fresh |
| Races.DisconnectCanBeLost | internal/services/session_service.go:206-273 | from any state with an AUTHORIZED session and the lock free, two overlapping calls reach a store that no serial run reaches |
| Races.LostDisconnectHappens | internal/services/session_service.go:206-273 | such a state is reachable from the empty store |
| Races.TransitionsAreUnbounded | internal/services/session_service.go:206-238 | under overlap, for every k there is a run with one session on which k MarkConnected calls succeed |
| Races.SerialRunsAreReachable | internal/services/session_service.go:62-481 | every serial run is an undisturbed interleaved run of the same calls, with the same store and results |
| OverlapBound.RaisesRankIffFresh | internal/services/session_service.go:149-273 | in every reachable state an UPDATE raises its session's rank iff its check would still pass |
| OverlapBound.TransitionsUnderOverlap | internal/services/session_service.go:149-433 | in every interleaving, at most three transitions for each session and three for each stale UPDATE |
| OverlapBound.FreshRunsMeetTheBound | internal/services/session_service.go:176-186 | the serial bound of three holds in every run whose UPDATEs are fresh |
| OverlapTimes.TimesAgreeIffNoneOvertaken | internal/services/session_service.go:149-433 | in fresh runs the serial timestamp relations hold iff no call closed a session connected after the call read the clock |
| OverlapTimes.QuietRunsAreNotOvertaken | internal/services/session_service.go:149-433 | undisturbed windows, cleanups' included, meet that condition |
| OverlapTimes.CleanupCanBeOvertaken | internal/services/session_service.go:206-433 | a cleanup overtaken by a mark-connected closes the session before its connect time, with every SELECT window undisturbed |
| OverlapTimes.CleanupIsOvertaken | internal/services/session_service.go:206-433 | such a run exists, so the serial timestamp relations need undisturbed cleanups |
| Serializability.SerializableIffFresh | internal/services/session_service.go:149-273 | without cleanup calls: some order of the calls is serial iff every UPDATE was fresh iff no session was taken twice to one state and none that was disconnected is open |
| Serializability.SerialIsConsistent | internal/services/session_service.go:176-273 | in serial runs, cleanups included, no session is taken twice to one state and none that was disconnected is open |
| Serializability.StaleButSerial | internal/services/session_service.go:241-433 | a disconnect whose session a cleanup closes inside its window, at the same reading: stale, and yet serial in the other order |
| Serializability.StaleButSerialHappens | internal/services/session_service.go:241-433 | such a run exists |
| ClockOrder.QuietRunsHaveAClockOrder | internal/services/session_service.go:62-433 | with undisturbed windows, cleanups' included, some serial order has the run's results and store and clock readings that never go back |
| ClockOrder.DisorderHasNoClockOrder | internal/services/session_service.go:189-433 | a run whose timestamps break the serial relations has no such order |
| ClockOrder.UndisturbedIsNotEnough | internal/services/session_service.go:206-433 | there is a run with undisturbed SELECT windows, serial in commit order, that has no order along the clock |
| GuiSessions.MergesAgree | internal/services/session_service.go:443-475 | any merge of a lifecycle run with a GUI run gives the same store and the same lifecycle results |
| GuiSessions.StartBeforeCreateIsLost | internal/services/session_service.go:443-457 | the excluded case: a start for a session yet to be created is accepted and lost |
| GuiSessions.StatusIsLastNotification | internal/handlers/handlers.go:283-293 | the status shows GUI active iff the last accepted notification since creation is a start, with that start's protocol and port |
| GuiSessions.GuiColumnsAgree | internal/daemon/daemon_server.go:208-224 | GUI columns all null or all set with the unused port 0; start and end times ordered by whether the GUI is active |
| GuiSessions.GuiTimesAreTheNotifications | internal/services/session_service.go:443-471 | for every trace, the GUI start time is that of the last accepted start since creation and the end time that of the last end, each NULL if there was none |
| GuiSessions.GuiTellsItsHistory | internal/services/session_service.go:437-481 | in every serial run, whoever makes the GUI calls, all five GUI columns are read off the last start and the last end since creation |
| GuiSessions.GuiSurvivesEveryInterleaving | internal/services/session_service.go:437-481 | in every interleaving the GUI columns are those of the calls replayed in commit order |
| GuiOverlap.StatusIsLastToTakeEffect | internal/handlers/handlers.go:283-293 | in every interleaving the status shows the last notification to take effect since creation, with its protocol and port |
| GuiOverlap.GuiTimesAreTheLastToTakeEffect | internal/services/session_service.go:443-471 | in every interleaving the GUI times are those of the last notifications of each kind to take effect |
| GuiOverlap.GuiTellsItsHistoryUnderOverlap | internal/services/session_service.go:437-481 | in every interleaving, for any GUI calls, all five GUI columns are read off the calls in the order they took effect |
| GuiOverlap.DatabaseClockOrdersGuiWrites | internal/services/session_service.go:437-481 | in every interleaving the GUI writes take effect in the order of their times |
| GuiOverlap.GuiColumnsAgreeUnderOverlap | internal/daemon/daemon_server.go:208-224 | in every interleaving the null pattern, the unused port 0 and the order of the GUI times hold |
| DaemonServers.DaemonServer.NotifyGUISessionStart | internal/daemon/daemon_server.go:200-237 | accepts vnc and x11 only and refuses others with their name; sets the GUI columns of that session, 0 for the unused port, and nothing else |
| DaemonServers.DaemonServer.NotifyGUISessionEnd | internal/daemon/daemon_server.go:244-260 | always accepted; clears protocol and ports, records the end time and changes nothing else |
| DaemonServers.SessionStatus | internal/handlers/handlers.go:262-306 | the row's id, state, port and times, SSH always active, GUI fields by `StatusIsLastNotification`; 500 for an unknown session |
| Policies.PolicyService.CanAccessGUI | internal/services/policy_service.go:29-46 | true iff the pair's key is present and its list holds the GUI permission |
| Policies.PolicyService.SetPolicy | internal/services/policy_service.go:50-58 | overwrites the pair's key |
| Policies.PolicyService.SyncPolicies | internal/services/policy_service.go:62-79 | applies the batch in order; which entries count and what each key then holds is stated by the next two rows |
| Policies.CountIsUserDeviceEntries | internal/services/policy_service.go:67-76 | the count is the number of positions with principal type "user" and target type "device" |
| Policies.KeyHoldsItsLastEntry | internal/services/policy_service.go:67-75 | a key holds the permissions of the last such position with that user and device, or what it held before |
| Policies.SyncAccessPolicies | internal/handlers/handlers.go:525-538 | the request's entries reach the service in order, each of the five fields as sent |
| Policies.SyncConcat | internal/services/policy_service.go:66-76 | syncing a+b is syncing a then b; counts add |
| Policies.LastEntryWins | internal/services/policy_service.go:67-75 | each key holds its last user/device entry of the batch, or what it held before |
| Policies.SyncTwice | internal/services/policy_service.go:67-75 | syncing the same batch again changes nothing |
| Policies.SyncKeepsKeys | internal/services/policy_service.go:67-75 | no key is ever removed |
| Policies.SyncOrderIsIrrelevant | internal/services/policy_service.go:67-75 | reordering a batch with pairwise distinct keys has no effect |
| Policies.SyncIsItsWrites | internal/services/policy_service.go:66-76 | a batch has the effect of its user/device entries written one at a time, and counts them |
| Policies.DecodeKey | internal/services/policy_service.go:54 | a key decodes at its first colon when the user id has none |
| Policies.KeysCollideIff | internal/services/policy_service.go:33 | two users can share a key exactly when one id is the other, a colon and any text, possibly none |
| Policies.FaithfulIffSeparated | internal/services/policy_service.go:33-57 | the cache answers as a map over pairs would, for every history over a set of users, iff the set has no such two ids |
| Policies.NoColonIsSeparated | internal/services/policy_service.go:33 | a set of user ids without colons has no such two |
| Policies.PairsAreIndependent | internal/services/policy_service.go:54-57 | writing one pair never changes another pair's answer |
| PolicyConcurrency.ReadersSeeWholeCalls | internal/services/policy_service.go:29-79 | in every interleaving a reader's answer is that of the calls completed at a moment of its own execution, taken whole in lock order |
| PolicyConcurrency.AnswersAreNotStale | internal/services/policy_service.go:29-79 | the answer reflects every writer that completed before the reader was invoked |
| PolicyConcurrency.CompletedIsExact | internal/services/policy_service.go:50-79 | the replayed calls are exactly the writers that have returned, each once |
| PolicyConcurrency.ReplayServesTheCalls | internal/services/policy_service.go:50-79 | replaying whole calls has the effect of SetPolicy and SyncPolicies one call after another |
| PolicyPairs.LinearizableIffSeparated | internal/services/policy_service.go:29-79 | for calls about a set of users, every concurrent answer is that of a map over pairs at a moment of the reader's execution, iff the set has no user id that is another, a colon and any text |
| Certificates.BigEndianValue | internal/services/ca_service.go:133 | the or of the shifted bytes is their base-256 value |
| Certificates.ClockUnits | internal/services/ca_service.go:133-143 | a reading is rounded down to its second, and uint64 conversion drops multiples of 2^64 |
| Certificates.SerialRoundTrip | internal/services/ca_service.go:129-133 | the nonce always decodes; the issue second decodes iff it is below 2^32 |
| Certificates.SerialsOrderLikeTime | internal/services/ca_service.go:129-133 | serials sort by second; equal serials mean the same second and nonce |
| Certificates.CAService.GenerateCertificate | internal/services/ca_service.go:105-170 | issued exactly for 1 to 525600 minutes with a loaded key; serial number, principals, window and extensions in numbers and literals |
| Certificates.IssuedSerialsCollideIff | internal/services/ca_service.go:129-133 | certificates with such serial numbers share one only for the same second and nonce, and sort by second |
| Certificates.CAService.VerifyCertificate | internal/services/ca_service.go:186-219 | valid iff a user certificate inside its inclusive window, with its own principals; each refusal under exactly its own condition |
| Certificates.CAService.GetPublicKey | internal/services/ca_service.go:174-182 | a fresh copy of the key |
| Certificates.DurationDoesNotOverflow | internal/services/ca_service.go:111-143 | the int64 nanosecond product is exact for every accepted duration |
| Certificates.IssueThenVerify | internal/services/ca_service.go:139-219 | accepted at exactly the seconds from issue to issue plus duration inclusive, with principals user and device |
| Certificates.OneSecondMoreThanOpenSsh | internal/services/ca_service.go:207-213 | the verdict differs from OpenSSH's rule at the end second only |
| Certificates.IssueCert | internal/handlers/handlers.go:122-187 | default duration 60, the error codes, the certificate and the other fields of the reply |
| Certificates.ReportedExpiry | internal/handlers/handlers.go:174 | the reported expiry is never early, and is accepted iff both readings fell in one second |
| Certificates.ReportedExpiryCanBeRefused | internal/handlers/handlers.go:174 | readings one nanosecond apart for which the certificate is refused at the reported expiry |
| Recordings.RecordingService.CreateRecording | internal/services/recording_service.go:67-93 | inserts the row with its path; a repeated id is refused |
| Recordings.RecordingService.UpdateRecording | internal/services/recording_service.go:126-144 | sets size, duration and completion of a known recording; silent for an unknown one |
| Recordings.RecordingService.DeleteRecording | internal/services/recording_service.go:149-174 | the row is gone and every other row stays, its file is removed and no other; or not found and nothing changes |
| Recordings.PathEndsWithId | internal/services/recording_service.go:75 | after path clean-up every path still ends with its recording's id, whatever the session id contains |
| Recordings.PathsAreUnique | internal/services/recording_service.go:75 | recordings with different ids have different paths, for any directory and any session ids |
| Recordings.LivePathsDiffer | internal/services/recording_service.go:67-93 | no two live rows share a path in any run |
| Recordings.OnlyItsOwnDeleteRemovesAFile | internal/services/recording_service.go:149-171 | a live recording's file is removed by an operation iff it is that recording's delete |
| Recordings.FilesOutliveOtherDeletes | internal/services/recording_service.go:126-174 | over any run without that delete the row and its file stay |
| RecordingHistory.LiveIffLastIsCreate | internal/services/recording_service.go:67-174 | after every run a recording has a row iff the last of its creates and deletes is a create |
| RecordingHistory.RowTellsItsHistory | internal/services/recording_service.go:67-144 | every column of a live recording is its creation's or its last update's |
| RecordingHistory.FilesTellTheirHistory | internal/services/recording_service.go:154-171 | a file is on disk iff it was written and no recording with that path was deleted since |
| RecordingHistory.JoinPlain | internal/services/recording_service.go:75 | for an ordinary name the path is the cleaned directory, a slash and the name |
| RecordingHistory.CleanSkips | internal/services/recording_service.go:75 | clean-up ignores empty elements and single dots |
| RecordingHistory.DotsTakeBack | internal/services/recording_service.go:75 | two dots take back the ordinary element before them |
| RecordingHistory.PathInPlainDirectory | internal/services/recording_service.go:75 | in an absolute directory of ordinary names the path is, literally, directory/session-id.cast |
| Listings.Query | internal/services/session_service.go:280-285 | the matching rows, each once, ordered by creation time descending |
| Listings.ReachableIsKeyed | internal/services/session_service.go:72-98 | in every serial run a row is stored under its own id, which is what the list methods ask for |
| Listings.InExactlyOneListEach | internal/services/session_service.go:276-402 | each session is in its own user's and device's list, once, and in no other |
| Listings.ListingsAgreeUpToTies | internal/services/session_service.go:284 | two answers to one query agree place by place in creation time, and entirely if there are no ties |
| Listings.ActiveListIsFilteredDeviceList | internal/services/session_service.go:319-328 | the active list is the device list filtered to ACTIVE, up to ties |
| LoadMetrics.CalculateMetrics | tests/load_test.go:63-89 | sorts in place; returns first, last, mean of the samples and the element at 99n/100; zeros for no samples |
| LoadMetrics.SortAscending | tests/load_test.go:68-70 | ascending order and a permutation of the input |
| LoadMetrics.SumByPermutation | tests/load_test.go:68-78 | sums and counts do not depend on the order of the samples |
| LoadMetrics.MetricsAreOrdered | tests/load_test.go:72-86 | mean and p99 lie between smallest and largest whenever the true sum fits in int64; the index clamp is never taken |
| LoadMetrics.MeanTruncates | tests/load_test.go:72-80 | the mean is the quotient, rounded toward zero, of the int64 number that the sum wraps to |
| LoadMetrics.PercentileCounts | tests/load_test.go:82-86 | more than 99 in 100 samples are at most p99 and at least 1 in 100 are at least p99 |

## Left out

- SQL, drivers, pooling, migrations and timeouts: a table is a map and a statement is atomic; a database error has no effect and so is a call that does not occur.
- Column types: UUID and foreign-key checks on ids, and the microsecond rounding of stored timestamps.
- Go's writer preference: a pending `Lock` does not hold back new readers in the model, which therefore allows every run of the program and more.
- Listings.Query: stands for the database's ORDER BY; rows of the same age come in any order.
- LoadMetrics.SortAscending: an insertion sort stands for the library's sort; its contract is what the callers rely on.
- Slices shared between a caller and the policy cache: permission lists are values, so a caller changing its slice afterwards is not modelled.
- Key loading, PEM and SSH encoding, signing and key decryption: a certificate is a record of its fields and parsing is the identity on it.
- Certificates.IssueThenVerify: for readings from 1970 on whose seconds fit in int64; outside that range the conversions to uint64 wrap.
- LoadMetrics.CalculateMetrics: `99 * len` is not wrapped to int64, since no slice of eight-byte values is long enough to reach that.
- Recordings.OnlyItsOwnDeleteRemovesAFile: the model's file removal succeeds; the source ignores its error (internal/services/recording_service.go:170-171), so a file can outlive its own delete.
- RecordingHistory.FilesTellTheirHistory: likewise, for file removals that succeed.
- Serializability.SerializableIffFresh: for runs without cleanup calls; with them, `ReplaysIffFresh` settles commit order and `StaleButSerial` shows that other orders can differ.
- Recording lists: the same loop and ordering as the session lists.
- Certificates.IssueCert: the session id of the reply, which formats a further clock reading, is not modelled.
- Routing, JSON binding, health checks, the stub endpoints and daemon calls, and the WebSocket echo loop hold no state.
- Several service processes on one database: the lock is in-process, so the results are for one process.
