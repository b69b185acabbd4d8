# Verified model of workspace-qdrant-mcp's stateful core

A Dafny model of the parts of workspace-qdrant-mcp in which state, interleaving or string arithmetic decide
correctness, with proofs of what those parts promise and, where a promise does not hold for all inputs, of the exact
condition under which it does. `dafny verify dfyconfig.toml` checks the project.

| Files | What they model |
|---|---|
| `SessionClient`, `SessionProtocol`, `SessionTheorems`, `SessionLiveness`, `SessionSurvival`, `SessionSwitch`, `SessionHealing`, `SessionScope`, `SessionConnection` | one MCP session against the daemon: heartbeat, activation, project switch, cleanup, reaper, in every interleaving |
| `HeartbeatTiming`, `SessionTiming`, `SessionDeadline`, `SessionExpiry` | the heartbeat cadence against the daemon's deadline; the session protocol with a clock, and the exact budget under which the reaper never takes a live session's row |
| `HttpSessions`, `HttpRuns` | the HTTP session registry, the re-entrant close cascade, the reaper, the session gauge |
| `PathNormalize`, `PathRelative`, `MountMap`, `MountRoundTrip`, `DockerAlias`, `PathAcceptance` | canonical and relative paths, host and container mounts, Docker Desktop aliases |
| `Disambiguation` | strings that tell the clones of one repository apart |
| `SlidingWindow` | the per-key request limiter |
| `EolNormalize`, `Utf8`, `FileHash`, `TextIdentity`, `IdentityKeys` | UTF-8, content identity across line endings, hashed keys |
| `RuleHeader`, `RuleRoundTrip`, `RuleReading` | the legacy rule header and its offset bookkeeping |
| `PathEnv`, `PathStability` | variable expansion in a PATH segment, and which segments it leaves alone |
| `PathSetup`, `PathConvergence`, `PathDivergence` | the PATH merge of the CLI, and when a second run changes nothing |
| `LinReg` | the least-squares slope of the memory trend |
| `Snapshots`, `SnapshotBudget` | snapshot rotation, copy and promotion with crash points |
| `Text`, `Wrappers` | splitting and joining, Option and Result |

Code that updates fields or loops is a class or a method, each proved equal to a specification function or against a
property; what the program promises is proved about those functions over all inputs or whole runs. An async function is
cut at its awaits: each uninterrupted segment is one step, and suspended frames are part of the state.

## Assumptions

- The daemon applies the calls of one session in the order they were issued; a call or its response may be lost.
- Bootstrap registration has settled before the modelled run starts, `startHeartbeat` is called once, before or after a
  cleanup, and no `store` call of type `project` is made.
- `registerProject` without a project id (its auto-registration) happens during bootstrap only.
- Closing an SDK server closes its transport, and closing a transport fires the transport's and the server's
  `onclose`, however often it was closed before. Session ids are fresh.
- The host is POSIX. `$HOME`, the environment, clocks and file listings are parameters.
- SHA-256 is a parameter with the law of incremental hashing, taken as collision-free where distinct identities are
  claimed.
- Deleting or renaming a directory is atomic.

## What the proofs found

- Leak-free switching holds exactly when the outgoing session is not a worktree with a known watch path: for such a
  session the release is path-scoped and the daemon never deletes the session's row. This is so in every continuation
  of a switch that stays away from the old project (`SwitchLeaksIffPathScoped`); only the reaper takes such a row
  (`LeftRowGoesExtinct`).
- A cleanup that runs while a timer tick is in flight does not stop the heartbeat: the tick re-arms the timer. A cleanup
  before `startHeartbeat` does not stop it either: the start does not look at `cleaned`
  (`CleanupStopsChainIffTimerArmed`).
- The reaper never takes the row of a session that stays with its project exactly when twice the latency, the cadence and
  k intervals with their latencies fit into the window (`SurvivesIffBudget`). The margin at which the beats leave in time
  is not enough: a window of 15 s and 10 s of latency lose the row without a single missed beat
  (`DepartureMarginIsNotEnough`).
- The comment at src/typescript/mcp-server/src/session-lifecycle.ts:518-520 speaks of one or two missed beats; under
  the default 90 s window one is survived up to 10 s of latency and two only with none (`DefaultWindowSurvival`).
- Shutdown closes registered transports only; sessions whose handshake never finished stay in the gauge
  (`ShutdownLeavesNeverRegistered`).
- Mount translation round-trips exactly when nested containers are answered by nested hosts (`RoundTripIff`).
  The code refuses a bare root (src/rust/common/src/paths/normalize.rs:115-117), although
  src/rust/common/src/paths/tests.rs:457 uses `/` as a mount host; the model follows the code.
- Relative normalization turns `./C:x` into a path that it then refuses (`RelativeFixedPointIff`); a backslash in a
  relative path makes the join change or refuse it (`StripUndoesJoinIff`, `BackslashJoinFails`).
- The module comment at src/rust/common/src/rules_legacy.rs:21-24 says trailing whitespace is accepted and the body
  left untouched; whitespace after the `RULE` marker and CRLF line ends both shift the body
  (`BodyIsTextIff`, `TrailingSpaceShiftsBody`), and the shifted offset can fall inside a character, where the slice
  panics: exactly when no tail of the header has as many bytes as were lost (`PanicsIff`, `TrailingSpacePanics`).
- A queue item shares its idempotency key with another accepted item exactly when its joined text can be cut at two
  other separators; one in the payload is enough (`KeySharedIff`, `SeparatorInPayloadShares`).
- Distinct absolute clones never get one disambiguation string; relative ones do exactly when one of them is the common
  ancestor and is spelled like what is left of the other (`ClonesCollideIff`).
- A CRLF copy that grows past the 8 MiB cap loses the identity of its LF original (`EolCopyHashEqualIff`).
- PATH setup need not converge. It does when every segment's expansion ends before the depth limit and exposes nothing
  (`SettledSegmentsConverge`). A self-referring variable makes the saved path grow on every run
  (`SelfReferenceNeverSettles`), a value containing the separator makes a second run rewrite
  (`SeparatorInValueRewrites`), and so does an unset reference whose erasure uncovers another one, as in `$${U}X`
  (`MovesAgainOnlyIf`, `UncoveredReferenceRewrites`).
- With `--keep 1` a backup run that fails after rotation leaves no snapshot that could be deleted
  (`FailedRunLeavesNoneIff`).

## Model

| member | source | states |
|---|---|---|
| SessionClient.SessionLifecycle.SendHeartbeat | src/typescript/mcp-server/src/session-lifecycle.ts:588-601 | The synchronous part of a heartbeat: a new frame whose one call names the project current at that moment; without a project it goes on to the self-repository stage. |
| SessionClient.SessionLifecycle.HeartbeatResponse | src/typescript/mcp-server/src/session-lifecycle.ts:602-645 | What a response does to the record: acknowledged or unknown means connected, unknown re-registers the then-current project, a failure means disconnected and ends the frame. |
| SessionClient.SessionLifecycle.ApplyRegistrationResponse | src/typescript/mcp-server/src/session-lifecycle.ts:299-316 | Only an accepted worktree registration changes the record; the watch path falls back to the project path. |
| SessionClient.SessionLifecycle.ScheduleNext | src/typescript/mcp-server/src/session-lifecycle.ts:557-565 | A tick that ends, however it ends, re-arms the timer; a heartbeat from a tool call does not. |
| SessionClient.SessionLifecycle.RunTick | src/typescript/mcp-server/src/session-lifecycle.ts:560-564 | A timer firing disarms the timer and starts a heartbeat marked as the timer's. |
| SessionClient.SessionLifecycle.EnsureClientProjectActive | src/typescript/mcp-server/src/session-lifecycle.ts:174-193 | The guards: no working directory, no daemon, already activated, already activating, suspicious directory; otherwise the activation starts. |
| SessionClient.SessionLifecycle.ActivationResolved | src/typescript/mcp-server/src/session-lifecycle.ts:194-228 | No project or the same project ends the activation and changes nothing else, except that the directory is remembered in the second case; a new project switches, resets the scope and releases the old one. |
| SessionClient.SessionLifecycle.SwitchTo | src/typescript/mcp-server/src/session-lifecycle.ts:212-244 | The swap: the outgoing project and its scope are captured before the record is overwritten, the record then names the new project without a watch path, and the release issued names what was captured. |
| SessionClient.SessionLifecycle.ActivationResponse | src/typescript/mcp-server/src/session-lifecycle.ts:235-257 | After the release the new project is registered; after the registration the directory is remembered and the activation ends. |
| SessionClient.SessionLifecycle.DispatchToolCall | src/typescript/mcp-server/src/tool-dispatcher.ts:347-372 | A non-static tool call: heartbeat, refreshed git state, lazy activation, in this order. |
| SessionClient.SessionLifecycle.CleanupSession | src/typescript/mcp-server/src/session-lifecycle.ts:697-718 | Cleanup runs once, stops the timer, and releases the current project when there is one and the daemon was connected. |
| SessionProtocol.ServeKeepsInv | src/rust/daemon/core/src/priority_manager/manager.rs:44-211 | Every register, beat or release the daemon applies, answers or loses keeps the invariant, with releases that name a watch path leaving the row. |
| SessionProtocol.SwitchCovered | src/typescript/mcp-server/src/session-lifecycle.ts:212-244 | Swap-then-release: when the project changes in the segment that issues the old one's release, every queued register of another project still has a release behind it and every foreign row is covered. |
| SessionProtocol.BeatResumesKeepsInv | src/typescript/mcp-server/src/session-lifecycle.ts:602-645 | A heartbeat that resumes at any moment, also across a project switch, keeps the invariant. |
| SessionProtocol.LookUpKeepsInv | src/typescript/mcp-server/src/session-lifecycle.ts:194-244 | A resolved activation keeps the invariant in all its outcomes. |
| SessionProtocol.StepKeepsInv | src/typescript/mcp-server/src/session-lifecycle.ts:174-258 | Every event of client, daemon, reaper and clock keeps the invariant. |
| SessionProtocol.RunKeepsInv | src/typescript/mcp-server/src/session-lifecycle.ts:174-258 | The invariant holds in every state of every run. |
| SessionTheorems.RowsAccountedFor | src/typescript/mcp-server/src/session-lifecycle.ts:194-250 | In every run, whatever is lost, a row names the current project, a release in flight, or a project whose release is known not to have reached its row. |
| SessionTheorems.LeakFreeSwitch | src/typescript/mcp-server/src/session-lifecycle.ts:194-250 | When releases reach their rows, each row of the session names the current project or the captured outgoing one whose release is pending; with no frame waiting only the current project is left. |
| SessionTheorems.SwitchReleasesRowIffNotPathScoped | src/rust/daemon/grpc/src/services/project_service/deactivation.rs:37-42 | One concrete schedule of a switch, served and answered in order: the old row is gone if and only if the outgoing session was not a worktree with a watch path. The claim for all continuations is SwitchLeaksIffPathScoped. |
| SessionTheorems.WorktreeSwitchStrandsRow | src/rust/daemon/core/src/priority_manager/manager.rs:171-211 | A concrete run in which no call is lost and the old row stays for a worktree session. |
| SessionSwitch.LeftRowStaysIffPathScoped | src/rust/daemon/grpc/src/services/project_service/deactivation.rs:37-42 | From a look-up that leaves a project, in every continuation in which its release is served, the session does not return to it and nothing else removes rows: the row is there at the end if and only if it was there when the release was served and the release was path-scoped. |
| SessionSwitch.SwitchLeaksIffPathScoped | src/typescript/mcp-server/src/session-lifecycle.ts:194-250 | The exact limit of the leak-free claim over all such continuations: a row that exists at the look-up is left behind if and only if the outgoing session was path-scoped then. |
| SessionSwitch.LeftRowGoesExtinct | src/rust/daemon/core/src/priority_manager/manager.rs:388-439 | From the switch on: once the calls queued at the look-up are served and the row's last beat is a timeout ago, one reap removes it, whatever ran in between, unless the session returned. |
| SessionScope.ScopeIsForgotten | src/typescript/mcp-server/src/session-lifecycle.ts:219-225 | In every continuation of a switch, until a registration is accepted as a worktree, the session has no watch path, and the only path-scoped releases are those queued before and the one of the project left. |
| SessionScope.NewProjectIsReleased | src/typescript/mcp-server/src/session-lifecycle.ts:212-244 | So a served release of the new project, whatever issues it, removes its row. |
| SessionScope.CleanupReleasesNewProject | src/typescript/mcp-server/src/session-lifecycle.ts:697-718 | In particular a connected session's cleanup asks the daemon to delete the new project's row. |
| SessionScope.ScopeFollows | src/typescript/mcp-server/src/session-lifecycle.ts:299-316 | In every step the scope is set by an accepted worktree registration, to its watch path or else the project's, reset by a switch, refreshed by a tool call's git state, and otherwise kept. |
| SessionScope.WorktreeCleanupIsScoped | src/typescript/mcp-server/src/session-lifecycle.ts:697-718 | A known worktree that stays with its project, through any run, has its cleanup leave the row. |
| SessionConnection.ConnectionFollowsBeats | src/typescript/mcp-server/src/session-lifecycle.ts:602-645 | In every step the connection flag changes only with a project beat's response, and then says whether the daemon answered. |
| SessionConnection.ToolCallDoes | src/typescript/mcp-server/src/tool-dispatcher.ts:347-372 | A tool call beats the current project, takes over a known git state, and starts a look-up if and only if the directory is not empty, not suspicious, not activated, the daemon is connected and no activation runs. |
| SessionConnection.ProjectStays | src/typescript/mcp-server/src/session-lifecycle.ts:174-193 | In a run without such a tool call the session keeps its project. |
| SessionConnection.DisconnectedStays | src/typescript/mcp-server/src/session-lifecycle.ts:174-193 | From a failed beat on, until one is answered, the session neither changes its project nor releases it in a cleanup. |
| SessionConnection.FailedLookUpIsRetried | src/typescript/mcp-server/src/session-lifecycle.ts:200-204 | A directory without a project ends the activation, and the next tool call from it looks it up again. |
| SessionConnection.SameProjectIsRemembered | src/typescript/mcp-server/src/session-lifecycle.ts:206-211 | A directory of the current project is remembered and not looked up again. |
| SessionConnection.ActivationAdvances | src/typescript/mcp-server/src/session-lifecycle.ts:229-257 | Each response takes the activation one step: after the release the new project's register, after the register the remembered directory and the end. |
| SessionConnection.AnsweredBeatGoesOn | src/typescript/mcp-server/src/session-lifecycle.ts:602-645 | An acknowledged heartbeat goes on to the self-repository if there is one; any other ending re-arms the timer for a tick. |
| SessionConnection.SelfRepoBeatIsLast | src/typescript/mcp-server/src/session-lifecycle.ts:602-645 | The self-repository beat ends the heartbeat, and re-arms the timer for a tick. |
| SessionLiveness.HeartbeatNeverStops | src/typescript/mcp-server/src/session-lifecycle.ts:549-568 | From the start of the loop until cleanup, armed timers plus timer ticks in flight equal one, whatever calls fail. |
| SessionLiveness.CleanupStopsChainIffTimerArmed | src/typescript/mcp-server/src/session-lifecycle.ts:697-718 | For every run and every continuation: a cleanup after the start ends the chain if and only if it finds the timer armed; a tick in flight re-arms it and the chain goes on. A cleanup before the start leaves a chain if and only if the start comes later. |
| SessionLiveness.TickInFlightSurvivesCleanup | src/typescript/mcp-server/src/session-lifecycle.ts:557-565 | A reachable started session without an armed timer: after its cleanup the chain goes on in every continuation. |
| SessionLiveness.OneActivation | src/typescript/mcp-server/src/session-lifecycle.ts:184-257 | `activatingCwd` is set exactly while one activation frame is live; when none is, the activated directory resolved to the project the session points at. |
| SessionLiveness.StepIssuesForCurrent | src/typescript/mcp-server/src/session-lifecycle.ts:212-244 | No step issues a beat or a register for a project other than the one current after it, nor a release for one other than the one it found current. |
| SessionLiveness.StaleRowUntouched | src/typescript/mcp-server/src/session-lifecycle.ts:595-618 | While a project is not current and no refresh of it is queued, nothing creates or refreshes its row. |
| SessionLiveness.RefreshesDrain | src/typescript/mcp-server/src/session-lifecycle.ts:595-618 | The refreshes of a left project that were queued at the switch are gone once the daemon has served that much of the queue. |
| SessionLiveness.StaleRowReaped | src/rust/daemon/core/src/priority_manager/manager.rs:388-439 | A row left behind by a lost release is removed by the reaper once its last beat is a timeout ago. |
| SessionLiveness.HeartbeatHeals | src/typescript/mcp-server/src/session-lifecycle.ts:595-618 | One fault-free heartbeat round from an empty queue re-creates or refreshes the current project's row. |
| SessionHealing.HeartbeatHealsInAnyInterleaving | src/typescript/mcp-server/src/session-lifecycle.ts:595-618 | However other frames, tool calls, reaps and lost calls of others interleave: when the daemon serves a heartbeat's beat and re-register, the row exists and is as recent as the beat's start once the frame has left its project stage. |
| SessionSurvival.StepReleasesNothing | src/typescript/mcp-server/src/session-lifecycle.ts:212-244 | While the session stays with its project, only a cleanup issues a release. |
| SessionSurvival.LiveRowSurvives | src/typescript/mcp-server/src/session-lifecycle.ts:514-568 | In every interleaving, a session that stays with its project keeps its row as long as no reap comes later than its timeout after the last served beat; SessionDeadline derives that condition from the clock. |
| SessionDeadline.ScheduledRowSurvives | src/typescript/mcp-server/src/session-lifecycle.ts:514-568 | In every run in which ticks fire when due and end within the latency, at most k of them fail in a row, and the budget fits the window, the clock stays on schedule and no reap removes the row. |
| SessionDeadline.TimelyRowSurvives | src/typescript/mcp-server/src/session-lifecycle.ts:549-568 | The same from the start of the loop, with nothing assumed about the reaps. |
| SessionDeadline.MarginMeetsBudget | src/typescript/mcp-server/src/session-lifecycle.ts:514-538 | A margin that implies the budget: three times (2 latency + k (30000 + latency)) at most twice a window of 15 s or more. |
| SessionExpiry.SurvivesIffBudget | src/typescript/mcp-server/src/session-lifecycle.ts:514-568 | The exact condition: every timely run keeps the row if and only if 2 latency + cadence + k (30000 + latency) fits the window; otherwise the slowest run loses it. |
| SessionExpiry.DepartureMarginIsNotEnough | src/typescript/mcp-server/src/session-lifecycle.ts:514-538 | The margin under which beats leave in time does not keep the row: 10 s of latency under a 15 s window. |
| SessionExpiry.DefaultWindowSurvival | src/rust/daemon/grpc/src/services/project_service/queries.rs:30 | Under the 90 s window no missed beat is survived up to 30 s of latency, one up to 10 s, two at zero latency only. |
| SessionLiveness.DeadStaysDead | src/typescript/mcp-server/src/session-lifecycle.ts:697-732 | A started session with no timer, frame, call or response left never acts again unless a tool call arrives. |
| SessionLiveness.CleanupIsFinal | src/typescript/mcp-server/src/session-lifecycle.ts:697-732 | A cleanup after the start with nothing in flight leaves a dead session; its row is gone if and only if the daemon was connected and the release was not path-scoped. |
| HeartbeatTiming.CadenceFor | src/typescript/mcp-server/src/session-lifecycle.ts:525-538 | Every delay lies in the clamp, is at most a third of a window of 15 s or more, and is that third rounded down up to 90 s. |
| HeartbeatTiming.NextHeartbeatDelayMs | src/typescript/mcp-server/src/session-lifecycle.ts:525-538 | Every delay lies in [5000, 30000]; one taken from a deadline at least 15 s away leaves two thirds of the window; without a deadline ahead it is the full interval. |
| HeartbeatTiming.InTimeIff | src/typescript/mcp-server/src/session-lifecycle.ts:514-568 | After k failed beats the next one leaves in time for every schedule if and only if the slowest schedule does. |
| HeartbeatTiming.HeartbeatBeatsReaper | src/typescript/mcp-server/src/session-lifecycle.ts:514-538 | The design margin: latency + k (30000 + latency) at most two thirds of the window suffices. |
| HeartbeatTiming.DefaultWindowBudget | src/rust/daemon/grpc/src/services/project_service/queries.rs:30 | Under the 90 s window the beat after one missed beat leaves in time up to 15 s of latency, after two only at zero latency. |
| HttpSessions.McpHttpServer.CreateSession | src/typescript/mcp-server/src/server.ts:242-265 | Starting a session raises the gauge before the handshake. |
| HttpSessions.McpHttpServer.OnSessionInitialized | src/typescript/mcp-server/src/mcp-http-server.ts:351-358 | A completed handshake enters the session in both maps, last seen at that moment, and leaves the others' times. |
| HttpSessions.McpHttpServer.HandleRequest | src/typescript/mcp-server/src/mcp-http-server.ts:325-331 | A request sets the last-seen time of a known session to that moment and changes nothing else. |
| HttpSessions.McpHttpServer.CloseTransport | src/typescript/mcp-server/src/mcp-http-server.ts:360-379 | The whole re-entrant cascade terminates and leaves the session closing, cleaned, its guarded body run once and out of both maps. |
| HttpSessions.McpHttpServer.OnTransportClose | src/typescript/mcp-server/src/mcp-http-server.ts:360-379 | A second close changes nothing; the first one runs the body and closes the server. |
| HttpSessions.McpHttpServer.OnServerClose | src/typescript/mcp-server/src/server.ts:176-184 | Only the first `onclose` starts a cleanup. |
| HttpSessions.McpHttpServer.RecordSessionEnd | src/typescript/mcp-server/src/server.ts:380-397 | The end of a cleanup lowers the gauge by one and is recorded for its session. |
| HttpSessions.McpHttpServer.ReapIdleSessions | src/typescript/mcp-server/src/mcp-http-server.ts:62-77 | Returns the idle sessions in order and closes exactly those, collecting before closing. |
| HttpSessions.IdleInOrder | src/typescript/mcp-server/src/mcp-http-server.ts:62-77 | The idle sessions are collected in the order of the map. |
| HttpSessions.McpHttpServer.Stop | src/typescript/mcp-server/src/mcp-http-server.ts:244-254 | Shutdown closes every registered transport and clears the map. |
| HttpSessions.ClosedAllEffect | src/typescript/mcp-server/src/mcp-http-server.ts:62-77 | Closing several sessions removes exactly those from the maps although every close changes them, and leaves the gauge to their cleanups. |
| HttpRuns.StepKeepsInv | src/typescript/mcp-server/src/mcp-http-server.ts:325-379 | Every event keeps the registry invariant: equal key sets, counters bounded by the guards, gauge equal to sessions without a recorded end. |
| HttpRuns.ExactlyOnceTeardown | src/typescript/mcp-server/src/server.ts:380-397 | In every run the `onclose` body and the recorded end happen at most once per session, exactly once when its close is complete, and the gauge counts the open sessions. |
| HttpRuns.ReapIsExact | src/typescript/mcp-server/src/mcp-http-server.ts:62-77 | A reap removes exactly the sessions idle longer than the ttl and leaves the others' times. |
| HttpRuns.NewSessionSurvives | src/typescript/mcp-server/src/mcp-http-server.ts:351-355 | A session is alive from its handshake on: whatever the clock showed then, reaps within the ttl leave it registered. |
| HttpRuns.TouchedSessionLives | src/typescript/mcp-server/src/mcp-http-server.ts:325-331 | The same from a request on. |
| HttpRuns.TouchedSessionSurvives | src/typescript/mcp-server/src/mcp-http-server.ts:189-195 | A session touched at gaps of at most the ttl is never reaped. |
| HttpRuns.IdleSessionGone | src/typescript/mcp-server/src/mcp-http-server.ts:189-195 | A session without requests is gone within the ttl plus one reap interval, for every run whose reaps leave no longer gap after its last request. |
| HttpRuns.SilentSessionCleared | src/typescript/mcp-server/src/mcp-http-server.ts:189-195 | The timer's own ticks are such a run: as many as span the ttl and one interval clear a silent session. |
| HttpRuns.DefaultReaperClears | src/typescript/mcp-server/src/mcp-http-server.ts:48-53 | With the default ttl and interval a session that is created at any moment and then silent survives ten ticks and is cleared by the eleventh. |
| HttpRuns.GoneStaysGone | src/typescript/mcp-server/src/mcp-http-server.ts:351-379 | A closed session never comes back. |
| HttpRuns.ShutdownLeavesNeverRegistered | src/typescript/mcp-server/src/server.ts:355-366 | After shutdown and all its cleanups the gauge equals the number of sessions whose handshake never registered a transport. |
| PathNormalize.NormalizePath | src/rust/common/src/paths/normalize.rs:58-124 | The component loop computes the specified normal form, with the error of the first failed check. |
| PathNormalize.NormalizeIsCanonical | src/rust/common/src/paths/normalize.rs:58-124 | Every accepted input is brought to a string that satisfies the canonical predicate, with the root and the kept components of the input. |
| PathNormalize.FixedPointIffCanonical | src/rust/common/src/paths/normalize.rs:58-124 | The fixed points of the normalization are exactly the canonical strings. |
| PathNormalize.NormalizeIdempotent | src/rust/common/src/paths/canonical.rs:107-117 | Normalizing a normalized path changes nothing, whatever the home directory. |
| PathNormalize.SamePathIff | src/rust/common/src/paths/normalize.rs:90-118 | Two accepted inputs agree exactly when their roots and their component lists without `.` and empties agree. |
| PathAcceptance.NormalizeOnPieces | src/rust/common/src/paths/normalize.rs:58-124 | The outcome for every input, error by error, read off its pieces: no root, a parent directory, no component, or the root with the kept components. |
| PathAcceptance.TildeMeansHome | src/rust/common/src/paths/normalize.rs:58-90 | `~` and `~/...` are read as the home directory's path; every other input is read alike with and without a home. |
| PathAcceptance.LettersExactly | src/rust/common/src/paths/normalize.rs:90-118 | A drive letter is one of the fifty-two letters. |
| PathRelative.NormalizeRelativePath | src/rust/common/src/paths/relative.rs:272-319 | The string-building loop computes the join of the kept components. |
| PathRelative.NormalizeRelativeIsRelative | src/rust/common/src/paths/relative.rs:272-319 | Its results satisfy the relative-path invariant and keep the input's components. |
| PathAcceptance.NormalizeRelativeOnPieces | src/rust/common/src/paths/relative.rs:272-319 | The outcome for every relative input, error by error, read off its pieces. |
| PathRelative.RelativeFixedPointIff | src/rust/common/src/paths/relative.rs:272-319 | A valid relative path is its own normal form if and only if it does not look like a drive; `./` in front always yields it. |
| PathRelative.JoinToRoot | src/rust/common/src/paths/relative.rs:226-245 | The joined buffer is what is normalized again. |
| PathRelative.StripPrefixPieces | src/rust/common/src/paths/relative.rs:152-170 | Stripping a canonical root is dropping its pieces. |
| PathRelative.AnchorIff | src/rust/common/src/paths/relative.rs:152-170 | Anchoring succeeds exactly when the root is a strict component prefix and the remainder does not look like a drive; the error otherwise. |
| PathRelative.DriveSuffixIsFirstPiece | src/rust/common/src/paths/relative.rs:272-319 | The drive test on the remainder looks at its first component only. |
| PathRelative.JoinedPieces | src/rust/common/src/paths/relative.rs:226-245 | The join succeeds exactly when no component is `..` once backslashes split too, and appends the kept components. |
| PathRelative.StripUndoesJoinIff | src/rust/common/src/paths/relative.rs:152-245 | Strip after join is the identity if and only if the path has no backslash and does not look like a drive; backslash-free paths always join. |
| PathRelative.JoinUndoesStrip | src/rust/common/src/paths/relative.rs:152-245 | Join after strip is the identity wherever the strip succeeds. |
| PathRelative.BackslashJoinFails | src/rust/common/src/paths/relative.rs:226-245 | A valid relative path for which the join is refused. |
| MountMap.New | src/rust/common/src/paths/mount_map.rs:81-104 | The loop with its two seen-sets returns the canonical entries in order or the first error. |
| MountMap.NewMountsIff | src/rust/common/src/paths/mount_map.rs:81-104 | A mount map exists exactly for pairs that all normalize, with distinct hosts and distinct containers. |
| PathAcceptance.NewMountsErrIff | src/rust/common/src/paths/mount_map.rs:81-104 | A mount table is refused with the error of its first faulty pair: its host, its container, an earlier equal host, an earlier equal container. |
| MountMap.FindMountIsLongest | src/rust/common/src/paths/mount_map.rs:153-171 | The entry found covers the path and is a longest one; none is found only if none covers. |
| MountMap.LongestIsUnique | src/rust/common/src/paths/mount_map.rs:153-171 | With distinct keys the longest covering entry is unique. |
| MountMap.ResolutionIgnoresOrder | src/rust/common/src/paths/mount_map.rs:153-171 | Resolution does not depend on declaration order. |
| MountMap.PrefixIffPieces | src/rust/common/src/paths/mount_map.rs:251-261 | The string test at a `/` boundary is the prefix relation on components. |
| MountMap.SwapPieces | src/rust/common/src/paths/local.rs:126-141 | Swapping a prefix replaces its components, keeps the rest, and yields a canonical path. |
| MountRoundTrip.TranslatesIffCovered | src/rust/common/src/paths/local.rs:55-72 | With mounts declared a host path translates if and only if a host covers it, and otherwise the error names it. |
| MountRoundTrip.ReturnsIffCovered | src/rust/common/src/paths/local.rs:85-100 | A container path that no container covers is refused with its name; a covered canonical one comes back. |
| PathAcceptance.ReturnedOnPieces | src/rust/common/src/paths/local.rs:85-100 | What any covered container path comes back as: its mount's host and the components that the rest names, refused only for a parent directory or a NUL. |
| PathAcceptance.ReturnedIsCanonical | src/rust/common/src/paths/local.rs:85-100 | Whatever comes back is canonical, with and without mounts. |
| PathAcceptance.NoMountsNormalize | src/rust/common/src/paths/local.rs:55-90 | Without mounts a canonical path is passed on as it is and a local one is normalized again. |
| MountRoundTrip.RoundTripAt | src/rust/common/src/paths/local.rs:55-100 | A covered path comes back if and only if no container shadows its mount on the translated path. |
| MountRoundTrip.RoundTripIff | src/rust/common/src/paths/local.rs:55-100 | Every covered path comes back if and only if every nested pair of containers is answered by a host nested on the same way. |
| MountRoundTrip.UnansweredPathFails | src/rust/common/src/paths/local.rs:55-100 | For each unanswered nesting, a covered path that does not come back. |
| MountRoundTrip.UnnestedContainersRoundTrip | src/rust/common/src/paths/local.rs:55-100 | Mounts with pairwise non-nested containers always round-trip. |
| MountRoundTrip.IdentityRoundTrips | src/rust/common/src/paths/local.rs:55-100 | The empty map passes every canonical path through and back. |
| DockerAlias.RewriteOnPieces | src/rust/common/src/paths/docker_alias.rs:105-141 | On canonical paths: exactly the paths with a drive below one of the alias roots are rewritten, to the lowered drive below `/mnt`, and the result is canonical. |
| DockerAlias.RewriteIdempotent | src/rust/common/src/paths/docker_alias.rs:105-141 | As a total map the rewrite is idempotent on canonical paths. |
| PathAcceptance.TrailingSlashIgnored | src/rust/common/src/paths/docker_alias.rs:105-141 | A slash behind a rewritten path changes nothing, for inputs of any form. |
| Disambiguation.CountCommon | src/rust/common/src/project_id/disambiguation.rs:25-32 | The inner loop returns the length of the longest common component prefix. |
| Disambiguation.Compute | src/rust/common/src/project_id/disambiguation.rs:14-46 | The loop over existing clones cuts at the minimum of those lengths; the whole path is used when nothing would remain. |
| Disambiguation.RecomputeAll | src/rust/common/src/project_id/disambiguation.rs:49-67 | The result holds, for each path, the answer computed against all different paths. |
| Disambiguation.CutIsCommonPrefix | src/rust/common/src/project_id/disambiguation.rs:20-35 | The minimum over a clone's own pairs is the length of the common prefix of all paths. |
| Disambiguation.SameCutForAll | src/rust/common/src/project_id/disambiguation.rs:49-67 | Every call inside one recomputation uses the same index. |
| Disambiguation.ClonesCollideIff | src/rust/common/src/project_id/disambiguation.rs:14-67 | Two clones, absolute or relative, get one string if and only if one of them is the common ancestor of all and is spelled like the other's remainder. |
| Disambiguation.DisambiguationInjective | src/rust/common/src/project_id/disambiguation.rs:14-67 | Distinct absolute clones get distinct non-empty strings, the common ancestor itself included: a remainder never starts with a slash. |
| Disambiguation.EmptyIffAlone | src/rust/common/src/project_id/disambiguation.rs:49-67 | An absolute clone gets the empty string if and only if no other clone stands beside it. |
| Disambiguation.ClonesHashDifferently | src/rust/common-node/index.js:121-126 | Hence distinct clones of one remote hash different inputs. |
| Disambiguation.LoneCloneKeepsRemote | src/rust/common-node/index.js:121-126 | So the remote alone is hashed exactly for a lone clone. |
| Disambiguation.RelativeClonesCollide | src/rust/common/src/project_id/disambiguation.rs:14-67 | For relative paths the condition is met: a concrete pair with one string. |
| SlidingWindow.SlidingWindowLimiter.Allow | src/typescript/mcp-server/src/auth-middleware.ts:331-345 | One request prunes its bucket and accepts when fewer than the limit are left. |
| SlidingWindow.PruningIsInvisible | src/typescript/mcp-server/src/auth-middleware.ts:331-345 | Over every run with a monotone clock the pruned buckets answer as the full acceptance history would. |
| SlidingWindow.AtMostLimitPerWindow | src/typescript/mcp-server/src/auth-middleware.ts:323-345 | For every key and every moment, at most the limit of acceptances lie in the window that ends there. |
| SlidingWindow.RejectedIffWindowFull | src/typescript/mcp-server/src/auth-middleware.ts:331-345 | A request is rejected if and only if the limit of acceptances lies in its window. |
| EolNormalize.NormalizeJoinsLines | src/rust/common/src/hashing.rs:122-127 | Both branches of the two-pass replacement write the content's lines joined by LF. |
| EolNormalize.NormalizeKeepsLines | src/rust/common/src/hashing.rs:122-127 | The result has the same lines, no CR, and is a fixed point. |
| EolNormalize.SameNormalFormIff | src/rust/common/src/hashing.rs:122-127 | Two contents normalize alike if and only if they have the same lines. |
| EolNormalize.EolCopySameLines | src/rust/common/src/hashing.rs:143-160 | A copy of an LF text with each newline independently LF or CRLF has the text's lines. |
| EolNormalize.Utf8ByLines | src/rust/common/src/hashing.rs:180-189 | Content is well-formed UTF-8 exactly when each of its lines is, so line endings never decide whether it is normalized. |
| Utf8.ValidIffEncoding | src/rust/common/src/hashing.rs:178-182 | The byte-wise test accepts exactly the UTF-8 encodings of sequences of scalar values. |
| Utf8.EncodeAllInjective | src/rust/common/src/hashing.rs:178-182 | Different texts have different encodings. |
| FileHash.HashFileBytesStreaming | src/rust/common/src/hashing.rs:131-143 | The buffer loop returns the digest of everything read up to the first empty read, or the error that stopped it. |
| FileHash.ComputeFileHash | src/rust/common/src/hashing.rs:161-171 | The branch on the metadata: stream when it is missing or above the cap, otherwise hash the content read whole. |
| FileHash.StreamFailsIff | src/rust/common/src/hashing.rs:131-143 | A stream fails exactly with the error of the read that ends it. |
| FileHash.HashFailsIff | src/rust/common/src/hashing.rs:161-171 | A file has no hash exactly when the way its metadata chooses fails, with that way's error. |
| FileHash.AnyChunkingDelivers | src/rust/common/src/hashing.rs:131-143 | However a file is cut into non-empty reads, the stream delivers it. |
| FileHash.FileAndBytesAgree | src/rust/common/src/hashing.rs:161-189 | For a file whose metadata tells its length the two hashes agree, at every size and chunking. |
| FileHash.FileAndBytesAgreeIff | src/rust/common/src/hashing.rs:161-189 | For any metadata they agree if and only if it puts the file under the cap or normalization would not have changed the content. |
| FileHash.SmallTextsHashEqualIff | src/rust/common/src/hashing.rs:143-189 | Two texts under the cap share a hash if and only if they have the same lines. |
| FileHash.BinaryHashEqualIff | src/rust/common/src/hashing.rs:178-189 | Content that is not UTF-8 shares a hash with nothing but itself. |
| FileHash.EolCopyHashEqualIff | src/rust/common/src/hashing.rs:143-189 | A CRLF copy of an LF text keeps its identity if and only if the copy still fits under the cap. |
| TextIdentity.TextHash | src/rust/common/src/hashing.rs:178-189 | Under the cap a text's hash is that of its lines joined by LF, encoded. |
| TextIdentity.TextsHashEqualIff | src/rust/common/src/hashing.rs:143-189 | Two texts under the cap share a hash if and only if they have the same lines, character by character. |
| TextIdentity.NoTextHashEqualIff | src/rust/common/src/hashing.rs:178-189 | Content that encodes no text shares a hash with nothing but itself. |
| TextIdentity.TextCopyHashEqualIff | src/rust/common/src/hashing.rs:143-189 | A CRLF copy of a text keeps its identity if and only if its encoding fits under the cap. |
| IdentityKeys.RefusedIff | src/rust/common/src/hashing.rs:36-47 | An item is refused for an empty tenant, else an empty collection, else an operation its type does not accept, and for nothing else. |
| IdentityKeys.SameKeyIff | src/rust/common/src/hashing.rs:25-60 | For all items: the key of an accepted one is another's if and only if that one is accepted too and item type, operation and the joined rest are equal. |
| IdentityKeys.EqualKeysIff | src/rust/common/src/hashing.rs:25-60 | A corollary: among accepted items whose tenant and collection have no `|` the key tells every two apart; KeySharedIff is for all items. |
| IdentityKeys.KeySharedIff | src/rust/common/src/hashing.rs:25-60 | An accepted item shares its key with another accepted one if and only if its joined text can be cut at two other separators so that tenant and collection are non-empty. |
| IdentityKeys.TwoSeparatorsAreUnique | src/rust/common/src/hashing.rs:25-60 | An accepted item without `|` in any part shares its key with none. |
| IdentityKeys.SeparatorInPayloadShares | src/rust/common/src/hashing.rs:48-52 | Every accepted item with a `|` in its payload shares its key with another. |
| IdentityKeys.MovedSeparatorCollides | src/rust/common/src/hashing.rs:48-52 | One such family: a `|` in the tenant can move to the collection. |
| IdentityKeys.SameFileForIdIff | src/rust/common/src/hashing.rs:203-206 | Two paths are one file for identity exactly when they differ by separator style and trailing separators. |
| IdentityKeys.EqualBasePointsIff | src/rust/common/src/hashing.rs:224-231 | Base points are equal exactly when tenant, normalized path and content hash are, whatever the path contains. |
| IdentityKeys.EqualPointIdsIff | src/rust/common/src/hashing.rs:238-244 | Point ids are equal exactly when base point and chunk number are. |
| IdentityKeys.DecimalIsDecimal | src/rust/common/src/hashing.rs:238-244 | The chunk number is written in decimal without leading zeros. |
| IdentityKeys.PointIdentity | src/rust/common/src/hashing.rs:224-244 | A point is identified by tenant, file, content and chunk number and by nothing else. |
| RuleHeader.ParseRuleHeader | src/rust/common/src/rules_legacy.rs:107-152 | The loop with its running byte offset returns the header described on text positions, nothing for a text that is no rule, or panics where the slice falls inside a character; the offset trails the real terminator by exactly the bytes dropped so far. |
| RuleReading.LegacyIff | src/rust/common/src/rules_legacy.rs:107-113 | A text is a legacy rule if and only if it starts with the marker, followed on its line by white space only. |
| RuleReading.BytesAreUtf8 | src/rust/common/src/rules_legacy.rs:113-145 | The offsets are byte offsets in the text's UTF-8 form. |
| RuleReading.WhitespaceExactly | src/rust/common/src/rules_legacy.rs:109-133 | What is trimmed is the twenty-five code points of White_Space. |
| RuleRoundTrip.CountRightIff | src/rust/common/src/rules_legacy.rs:113-118 | The running count is right if and only if the marker line is bare and no header line ends in CRLF. |
| RuleRoundTrip.BodyIsTextIff | src/rust/common/src/rules_legacy.rs:141-149 | The parser returns the text after the header if and only if the count is right or the header runs to the end, also when a non-key line starts the body; otherwise it returns another body or panics. |
| RuleRoundTrip.PanicsIff | src/rust/common/src/rules_legacy.rs:141-149 | The parser panics exactly on legacy rules whose header, counted back from its end, has no tail of as many UTF-8 bytes as the count lost. |
| RuleRoundTrip.AsciiHeaderReturns | src/rust/common/src/rules_legacy.rs:107-152 | An ASCII header never makes it panic, whatever the body is. |
| RuleRoundTrip.TrailingSpacePanics | src/rust/common/src/rules_legacy.rs:109-149 | A concrete content on which it panics: a space after the marker and a two-byte character at the end of a header line. |
| RuleRoundTrip.ParseOfPrint | src/rust/common/src/rules_legacy.rs:107-152 | Parsing a printed header gives back the last value of each key and the body unchanged, for every body. |
| RuleReading.ParseOfWritten | src/rust/common/src/rules_legacy.rs:107-152 | A header written with any spacing, blank lines and lines without a key gives its trimmed fields, last value winning, and the body untouched. |
| RuleRoundTrip.TrailingSpaceShiftsBody | src/rust/common/src/rules_legacy.rs:109-118 | With a trailing space after the marker the separator's last dash is read as body. |
| RuleRoundTrip.SameScopeIff | src/rust/common/src/rules_legacy.rs:70-82 | The split of the scope loses only the difference between `global`, empty and absent. |
| RuleReading.ScopeIsRebuilt | src/rust/common/src/rules_legacy.rs:70-82 | The split of the scope can be undone, no scope and an empty one reading as `global`. |
| PathEnv.SubstituteVariables | src/rust/cli/src/config/path_env.rs:149-187 | The scanner loop computes the token-by-token substitution and says whether a value was substituted. |
| PathEnv.NameCharsExactly | src/rust/cli/src/config/path_env.rs:166-174 | Variable names are made of letters, digits and `_`. |
| PathEnv.ExpandPathSegmentRecursive | src/rust/cli/src/config/path_env.rs:131-196 | The recursion ends at the depth limit and computes the specified expansion. |
| PathEnv.SubstituteIsMeaning | src/rust/cli/src/config/path_env.rs:149-187 | On every template of text, `${name}`, `$name` and stray dollars the scanner replaces each reference by its value. |
| PathEnv.EveryTextIsATemplate | src/rust/cli/src/config/path_env.rs:149-187 | Every segment is such a template, so the meaning covers all inputs. |
| PathStability.ExpandErases | src/rust/cli/src/config/path_env.rs:131-196 | An expansion that the depth limit did not cut is its last text with the unset references erased. |
| PathStability.FixedIffInert | src/rust/cli/src/config/path_env.rs:131-196 | A segment without a set reference expands to itself if and only if it has no reference and no leading `~` to replace. |
| PathStability.MovesAgainOnlyIf | src/rust/cli/src/config/path_env.rs:131-196 | An expanded segment moves again only when the depth limit cut its expansion or an erased reference exposed a dollar that now starts a reference or a `~` at the front. |
| PathStability.MovesAgainIff | src/rust/cli/src/config/path_env.rs:131-196 | When the limit did not cut the expansion and the result has no set reference, it moves again if and only if something was exposed. |
| PathSetup.MergeAndDedup | src/rust/cli/src/config/path_env.rs:213-235 | Both loops together keep the deduplicated concatenation. |
| PathSetup.FirstPositionsExact | src/rust/cli/src/config/path_env.rs:213-235 | The kept positions are, in order, exactly the first occurrences of non-empty segments. |
| PathSetup.DedupKeepsFirstOccurrences | src/rust/cli/src/config/path_env.rs:213-235 | The merged list holds exactly the segments at those positions. |
| PathSetup.UserConfig.SetupEnvironmentPath | src/rust/cli/src/config/path_env.rs:251-271 | One run merges, joins, and writes only when the joined path differs from the saved one; a write that fails is the error, and leaves what the file then holds. |
| PathConvergence.SecondRunUnchangedPieces | src/rust/cli/src/config/path_env.rs:251-271 | For all inputs, separators in values included: a second run changes nothing if and only if the segments it finds new, cut at separators, are the pieces the first run had added after PATH's own. |
| PathConvergence.SecondRunUnchangedIff | src/rust/cli/src/config/path_env.rs:251-271 | With no separator inside a segment, a second run changes nothing if and only if every merged segment expands to nothing or to a merged segment, and the segments after PATH's own occur among those images, their first occurrences in the same order. |
| PathConvergence.FixedSegmentsConverge | src/rust/cli/src/config/path_env.rs:251-271 | When expansion leaves the merged segments alone the second run returns unchanged. |
| PathConvergence.SettledSegmentsConverge | src/rust/cli/src/config/path_env.rs:251-271 | When every segment's expansion ends before the depth limit and exposes nothing, the second run returns unchanged. |
| PathConvergence.EscapingSegmentRewrites | src/rust/cli/src/config/path_env.rs:251-271 | When one of them expands to something not yet merged the second run rewrites. |
| PathStability.PlainSegmentFixed | src/rust/cli/src/config/path_env.rs:131-196 | A segment without `$` and without a leading `~` expands to itself. |
| PathDivergence.SelfReferenceExpands | src/rust/cli/src/config/path_env.rs:131-196 | A variable that refers to itself is substituted eleven times, then left. |
| PathDivergence.SelfReferenceNeverSettles | src/rust/cli/src/config/path_env.rs:251-271 | With such a variable in PATH every run rewrites the saved path. |
| PathDivergence.SeparatorInValueRewrites | src/rust/cli/src/config/path_env.rs:202-207 | A value containing the separator is merged as one segment and read back as two. |
| PathDivergence.UncoveredReferenceRewrites | src/rust/cli/src/config/path_env.rs:251-271 | With `U` unset and `X` set, `PATH=$${U}X` makes the second run rewrite. |
| PathDivergence.UncoveredTildeExpands | src/rust/cli/src/config/path_env.rs:131-196 | With `U` unset, `$U~/x` expands to `~/x`, and that to a path under the home directory. |
| LinReg.DenominatorZeroIff | scripts/mem-watch/analyze.py:31-33 | The denominator is never negative and zero exactly when all times coincide. |
| LinReg.NoSlopeIff | scripts/mem-watch/analyze.py:26-34 | There is no slope exactly for fewer than two samples or equal times. |
| LinReg.SlopeIsUniqueMinimiser | scripts/mem-watch/analyze.py:27-35 | The slope with its intercept has strictly less squared error than every other line. |
| LinReg.TiltedLineAsGood | scripts/mem-watch/analyze.py:32-34 | When all times coincide every line has an equally good line of any other slope. |
| LinReg.SlopeIgnoresOrigin | scripts/mem-watch/analyze.py:27-35 | Shifting the time origin does not change the result. |
| Snapshots.SortByMtime | scripts/migration-rehearsal-copy.py:79-82 | The snapshots in order of age, each once. |
| Snapshots.Volume.SweepPartials | scripts/migration-rehearsal-copy.py:74-78 | Removes exactly the partial directories that can be removed. |
| Snapshots.Volume.DeleteOldest | scripts/migration-rehearsal-copy.py:83-87 | The loop ends and deletes a set of oldest snapshots so that `keep - 1` are left when there were more. |
| Snapshots.Volume.Rotate | scripts/migration-rehearsal-copy.py:63-87 | Sweep, then rotation unless `keep <= 0`; every intermediate state only lacks directories. |
| Snapshots.Volume.CopyDatabases | scripts/migration-rehearsal-copy.py:153-176 | Copies every present database and nothing else into the target, or stops at the failing one; no state on the way differs anywhere but in the target. |
| Snapshots.CopyOfIsExact | scripts/migration-rehearsal-copy.py:153-176 | A complete copy names exactly the databases the source has and holds the whole of each. |
| Snapshots.Volume.Promote | scripts/migration-rehearsal-copy.py:221-222 | Between deleting the old destination and the rename a complete copy always exists. |
| Snapshots.Volume.Run | scripts/migration-rehearsal-copy.py:196-224 | Which outcome a run has, exactly: skipped, refused for space, failed copy, failed rename, promoted; a refused run only deletes. At every crash point each directory but the partial one is untouched or is the promoted complete copy; once copied, a complete copy exists at every later point; the promoted snapshot holds exactly the source's databases and is dated by the run, unless an undeletable partial directory was there before. |
| SnapshotBudget.CompletedRunBudget | scripts/migration-rehearsal-copy.py:63-87 | A completed run with `keep >= 1` leaves at most `keep` snapshots, not counting undeletable ones. |
| SnapshotBudget.CompletedRunKeepsNewest | scripts/migration-rehearsal-copy.py:79-87 | Every deleted snapshot is at most as recent as every other one left. |
| SnapshotBudget.FailedRunLeavesNoneIff | scripts/migration-rehearsal-copy.py:198-219 | A run that fails after rotation leaves the newest `keep - 1` and the victims that could not be deleted, so none exactly when there was none, or `keep` is 1 and all could be deleted. |

## Left out

- gRPC, HTTP, SQLite and Qdrant clients, the MCP SDK and the command-line wiring: foreign calls; the daemon is a set of
  rows with register, beat, release and reap, the SDK is what its close callbacks do.
- `registerProjectFromTool`, self-repository registration, git and worktree detection, the suspicious-directory
  patterns: opaque inputs; the self-repository beat is a stage of a heartbeat frame without rows of its own.
- SessionLiveness.CleanupIsFinal: speaks of a cleanup after the start with no tick and no activation in flight; what a
  tick in flight or a later start does is CleanupStopsChainIffTimerArmed, what an activation in flight does is left to
  the row invariant.
- SessionProtocol.StepKeepsInv: `cleanup` ends by closing the daemon client, after which no call leaves it
  (src/typescript/mcp-server/src/clients/daemon-client/connection.ts:363-399); the model lets the frames that are left
  issue calls, so its runs after a cleanup include every real one and more.
- HeartbeatTiming.NextHeartbeatDelayMs: computes over reals; floating-point rounding of the deadline is not modelled.
- LinReg.SlopeIsUniqueMinimiser: computes over reals; floating-point rounding is not modelled.
- PathSetup.UserConfig.SetupEnvironmentPath: the saved path is an abstract cell; the reading and line-wise rewriting of
  the YAML file, with its trimming of quotes, is not modelled, and what a failed write leaves is an input.
- PathStability.MovesAgainIff: a result with a set reference may also settle at itself after further rounds, so the
  equivalence is stated for results without one; the other direction, MovesAgainOnlyIf, is for all.
- Snapshots.Volume.Run: the source databases do not change during a run, the preflight's free-space test is an input, and
  `rmtree` either removes a directory or, for a directory in `stuck`, leaves it whole.
- The simple idempotency key (src/rust/common/src/hashing.rs:66-76), rule accessors other than the scope split, YAML
  forms of the mount map and its hash, git URL normalization: they would add easy members only.
- Windows-only path semantics, symlinks and paths that are not UTF-8.
- CORS, bearer tokens and address checks of the HTTP transport; the limiter is the only part of that file modelled.
- Terminal output, constants, payload structures, classification tables, CLI profiles, build scripts.
