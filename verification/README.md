# RC car server: verification project

The server lets one of several known operators drive a car over a websocket, forwards the commands to the
car over UDP, stops the car when its driver falls silent, and relays the car's camera to any number of
viewers. This project models that behaviour in Dafny and proves what it guarantees over whole runs: every
sequence of messages, disconnects, telemetry packets, timer ticks, failed sends and pauses.

`dafny verify dfyconfig.toml` checks everything.

## How the model is organised

Code that updates fields in place is a class here (`Manager`, `MotorClient`, `Service`, `Watchdog`,
`Handler`, `Listener`, `Broadcaster`, `DrivePage`). Each method's contract equates the new state with a
function of the old one. The theorems are about those functions, composed into step systems:

- `Access`, `LeaseRefinement`: the control lease. The manager clears an expired owner only when somebody next
  asks; it is compared with a lease that a running timer takes away, which keeps no timestamps at all.
- `Motor`, `Control`, `Safety`, `Ws`: the UDP link with a log of what left the socket, the control service,
  the dead-man watchdog and the message handler.
- `System`: all of these over time, from the start to the process's end. While the server runs, the watchdog's
  ticker is urgent, so the clock cannot pass a due tick; cancelling the context ends the watchdog, while messages
  are still handled. `System.Moves` says what any one event can do; `WireSafety`, `DeadMan` and `Inert` build on it.
- `Record`: what each field of the service's state says after a run, told by the events alone.
- `Standstill`: when exactly the car moves, over any stretch of a run; silence, and the end of the server.
- `SplitStep`: a send and its later record as separate steps of any number of calls.
- `Telemetry`: packets and the connection timer, whose read and write are separate steps.
- `Viewers`, `Camera`, `Framing`, `Multipart`, `Delivery`: the camera broadcaster with its condition variable,
  the reader, and the multipart stream down to the bytes a viewer decodes.
- `Prefixes`, `ClientIP`: trusted proxies and forwarded addresses.
- `Page`, `StopButton`: the browser's hold-to-drive machine, and its stop button against the running server.

## Main results

- `LeaseRefinement.LazyExpiryRefinesTimer`: the lazily expired lease is indistinguishable from one with a timer.
- `DeadMan.DeadManBound`, `HandoverExact`, `Standstill.SilenceStops`: an abandoned car is stopped in bounded time,
  and its driver keeps the lease until then if and only if the control timeout is long enough.
- `Standstill.MotionExact`, `ShutdownExact`: when the car moves, and when it stands after the server was told to end.
- `StopButton.ButtonHolds`, `OnlyHolderUndoes`, `OwnStopHolds`: what the page's stop button achieves, and for how long.
- `WireSafety.MotionIsGranted`, `GrantsExclusive`, `Inert.DeniedErasable`: who can move the car, and who leaves no trace.
- `Record.RecordExact`, `InvalidExact`, `SplitStep.AgreementExact`, `Telemetry.FlagExact`, `FreshFlag`: what the
  recorded pair, the flags and every other field of the state really mean.
- `Viewers.NoLostWakeUp`, `OutExactlyWithFrame`, `EveryWayOut`, `StreamsRefineLog`, `Delivery.ViewerDecodesCamera`,
  `Framing.CutStreamReadBack`: viewers wait exactly as long as there is nothing for them, are woken, get out, and
  decode the camera's own frames in order with a reader that knows only the announced boundary.
- `ClientIP.ResolveExact`, `StrangerCannotForge`, `TrustIsConfigured`, `FrontCannotOverride`,
  `Prefixes.NormalizeMapped`: whose forwarded address counts.

Rows of the table that begin with "one step:" are helpers: they spell out one event and carry the proofs of the
results about runs.

## Hypotheses

- `DeadMan.Truthful`: telemetry does not report a standstill while the car was told to move. Telemetry
  overwrites the recorded pair that the watchdog looks at, so the dead-man bound depends on it.
- `DeadMan.Trusted` with `k`: at most `k` watchdog stops fail to send between two successful sends.
- `DeadMan.Reach` is the command timeout plus `k + 1` watchdog periods. `HandoverExact` shows that a control
  timeout of at least that is not only enough but necessary.
- The dead-man results speak of the server while it runs, that is, until its context is cancelled.
- Handlers and watchdog checks are atomic in `System`; `SplitStep` shows what that leaves out and exactly when
  record and wire still agree.
- `StopButton.Delivered`: the page's messages are handled in the order it sent them; any of them may be lost.
- `ClientIP.Library.Sane`: what the address library parses is in range. Nothing else is assumed of library calls,
  which are function values.

## Where the code does less than its documentation says

- The repository's README promises a stop once commands are missing for longer than the timeout (line 714). With
  truthful telemetry the car does stand once no drive has got out for the dead-man reach (`Standstill.SilenceStops`).
  The watchdog attempts a stop at a tick exactly when the recorded pair is not a stop and nothing was sent within the
  timeout (`System.WatchdogExact`). A telemetry packet without a motor block records a stop, after which nothing is
  attempted however long the silence (`DeadMan.PacketWithoutMotorDisarms`); from any run that leaves the car moving,
  such a packet and silence of any length can follow (`SilenceAfterPacket`), for instance after the very first command
  (`OneCommandForever`). Two calls recorded out of turn do the same (`SplitStep.CrossedCallsDisagree`).
- It promises a stop when the server terminates (line 715). `App.Run` cancels the context first, which ends the
  watchdog, and then sends one stop, while open websockets are still served. After that stop the car stands
  exactly if it stood before or the stop got out, and no drive gets out later (`Standstill.ShutdownExact`). In any state
  of the running server, a drive that the lease lets through just after the shutdown's stop moves the car for any time
  (`Standstill.DriveAfterShutdown`), since nobody watches any more (`NobodyWatches`). When the server ends because of
  an error, no stop is sent at all (`ErrorSendsNothing`).
- It promises a stop when the websocket closes (line 713). The code attempts one exactly when the client that left
  holds a live lease (`Inert.DisconnectStopsOwnerOnly`). The driver of a moving car always holds one while the server
  runs, telemetry is truthful, at most `k` watchdog stops fail between sends and the control timeout is at least
  `Reach` for that `k` (`DeadMan.DriverLeavingStops`); with a shorter control timeout it need not (`HandoverExact`).
- It says the motor counts as connected while telemetry is regular (line 464). The flag is up exactly when the last move
  that wrote it was an accepted packet or a successful send (`Telemetry.FlagExact`). So a motor never heard of counts as
  connected after a send (`NeverHeardConnected`), for up to half a timeout (`ConnectedIsRecent`); and a failed send
  (`FailedSendHides`), or a verdict reached before a packet and written after it (`LateVerdictHides`), hides a motor
  just heard. With fresh telemetry these two are the only ways down, and the flag is up exactly when each was followed by
  a successful send (`FreshFlag`, `RegularMeansConnected`).
- The recorded pair need not be what the car was last told: it is exactly when the last call that got out wrote the
  record last, or the pairs happen to be the same (`SplitStep.AgreementExact`).
- The stop button stops the car for any known operator, but only until the next drive gets out: the owner of a live lease
  keeps it, and its next repeat moves the car again (`StopButton.OnlyHolderUndoes`, `StopUndone`).
- A drive message with a speed out of range is refused only after it has been given the lease
  (`Inert.OutOfRangeTakesLease`).
- A trusted block in IPv4-mapped form with fewer than 96 bits is accepted and then trusts nobody
  (`Prefixes.NormalizeMapped`).

## Model

| member | source | states |
|---|---|---|
| `Access.Manager.constructor` | internal/access/manager.go:46-69 | a new manager has no owner and the table its operator list describes |
| `Access.LastListingWins` | internal/access/manager.go:57-66 | an address belongs to the last operator that lists it |
| `Access.UnlistedUnknown` | internal/access/manager.go:57-66 | an address no operator lists belongs to nobody |
| `Access.ResolvesByHost` | internal/access/manager.go:156-176 | a request resolves by its host, whatever its port, to the last operator that lists the host's canonical form, and to nobody if none does |
| `Access.BlankUnknown` | internal/access/manager.go:157-160 | a missing or blank host belongs to nobody |
| `Access.Manager.ReleaseExpired` | internal/access/manager.go:221-244 | an owner silent for longer than the timeout is dropped with both timestamps, any other is kept |
| `Access.Manager.CanControl` | internal/access/manager.go:71-122 | decision and new lease for every case: unknown, acquired, refreshed, busy |
| `Access.Manager.AllowEmergencyStop` | internal/access/manager.go:124-154 | any known client is allowed; a free lease becomes its own, a held one is refreshed for its owner |
| `Access.Manager.IsOwner` | internal/access/manager.go:292-321 | whether the caller owns a lease that has not run out |
| `Access.Manager.StateFor` | internal/access/manager.go:178-197 | the view shown to a client |
| `Access.Manager.ReleaseIfOwner` | internal/access/manager.go:199-219 | only the owner can give the lease back |
| `LeaseRefinement.RunRefines` | internal/access/manager.go:71-154 | after any timed calls the owner is nil exactly when both timestamps are zero, is a listed operator, and is live exactly as long as a countdown lease says |
| `LeaseRefinement.LazyExpiryRefinesTimer` | internal/access/manager.go:71-244 | for every sequence of timed calls every decision and view equals that of a lease taken away by a timer the moment it expires |
| `LeaseRefinement.LeaseExclusive` | internal/access/manager.go:83-121 | control confirmed for one client and later for another, with no release between, is more than a timeout apart |
| `LeaseRefinement.EmergencyStopKeepsOwner` | internal/access/manager.go:136-146 | an emergency stop never takes a live lease from its owner nor shortens it |
| `Motor.MotorClient.NextSeq` | internal/motor/client.go:112-114 | the 64-bit message counter advances by one and wraps |
| `Motor.MotorClient.Send` | internal/motor/client.go:37-52 | every attempt takes a number; the pair reaches the wire exactly when nothing failed |
| `Motor.MotorClient.Stop` | internal/motor/client.go:54-56 | a stop is the pair (0,0) |
| `Control.Service.Drive` | internal/control/service.go:41-67 | invalid, failed and successful drives: state and link after each |
| `Control.Service.Stop` | internal/control/service.go:69-87 | failed and successful stops: state and link after each |
| `Control.Service.UpdateMotorTelemetry` | internal/control/service.go:109-129 | telemetry replaces the recorded pair and leaves the command time alone |
| `Control.Service.SetMotorConnected` | internal/control/service.go:131-142 | only the motor flag changes |
| `Control.Service.SetCameraConnected` | internal/control/service.go:96-107 | only the camera flag changes |
| `Control.Service.SetInvalidCommand` | internal/control/service.go:144-154 | only the validity flag and the error change |
| `Control.Service.SetMotorError` | internal/control/service.go:156-167 | the motor is marked unreachable, pair and command time stay |
| `Safety.Period` | internal/safety/watchdog.go:28-31 | the period is positive and at most half of a timeout of two or more |
| `Safety.Watchdog.constructor` | internal/safety/watchdog.go:23-39 | the watchdog's period follows from its timeout |
| `Safety.Watchdog.Check` | internal/safety/watchdog.go:63-89 | a check sends one stop if a motion is recorded and the last command is older than the timeout, and otherwise changes nothing |
| `Ws.Handler.HandleMessage` | internal/ws/handler.go:117-139 | state, lease, wire and reply after any message |
| `Ws.Handler.HandleControlMessage` | internal/ws/handler.go:141-174 | the same for drive messages |
| `Ws.Handler.HandleSystemMessage` | internal/ws/handler.go:176-239 | the same for stop and emergency stop |
| `Ws.Handler.InvalidState` | internal/ws/handler.go:241-249 | the sender of a bad message is shown a marked copy; the stored state is not touched |
| `Inert.DeniedReply` | internal/ws/handler.go:117-249 | one step: a denied message's sender is shown the stored state with the valid flag down and the reason, nothing else changed |
| `Inert.AcceptedReply` | internal/ws/handler.go:141-239 | one step: the sender of any other message, stop or emergency stop included, is shown the state stored after it |
| `Ws.RepliesDistinct` | internal/ws/handler.go:251-255 | of all the replies a handler ever numbered, two with one number are at least 2^64 apart, and before that numbers grow |
| `Ws.Handler.HandleDisconnect` | internal/ws/handler.go:66-95 | what a disconnect does to lease, service and wire |
| `System.EventMoves` | internal/ws/handler.go:117-239 | one step: any event issues at most one command, moves the car only for a client just let through, and never takes a live lease from its owner |
| `System.TimedRun` | internal/control/service.go:46-58 | in every run the recorded command time is the time of the last successful send |
| `Record.RecordExact` | internal/control/service.go:41-167 | in every run each field of the state is what the last event that wrote it wrote: pair, command time, verdict and error, both flags, failsafe, power and telemetry time |
| `Record.InvalidExact` | internal/control/service.go:144-167 | in every run the valid flag is down exactly when a failed send or an out-of-range drive is not yet followed by a command that got out |
| `System.WatchdogExact` | internal/safety/watchdog.go:63-89 | a tick attempts a stop exactly when something was sent, the recorded pair is not a stop, and nothing was sent within the timeout |
| `WireSafety.MotionIsGranted` | internal/ws/handler.go:146-173 | every pair sent is within -100..100, and a moving one was sent for a known operator at the moment it was granted control |
| `WireSafety.WireNumbersGrow` | internal/motor/client.go:37-56 | wire numbers strictly increase with gaps for failed sends, until the counter wraps |
| `WireSafety.WatchdogNeverInterrupts` | internal/safety/watchdog.go:63-88 | the watchdog sends only stops, never first, and never within its timeout of any earlier datagram |
| `WireSafety.GrantsExclusive` | internal/access/manager.go:83-121 | in every run of the server two grants to different clients are more than a control timeout apart |
| `DeadMan.DeadManBound` | internal/safety/watchdog.go:28-89 | while the server runs, a moving pair is replaced within the timeout plus one period per failed stop and one more; with none failed, one and a half timeouts |
| `DeadMan.PacketsKeepBound` | internal/telemetry/listener.go:140-193 | the bound in terms of packets: if each one accepted while the car moves has a motor block that reports motion, the watchdog stays armed and the bound holds |
| `DeadMan.HandoverSafety` | internal/access/manager.go:71-122 | while the server runs and the control timeout is at least the reach, the driver of a moving car holds a live lease and is the only one let through |
| `DeadMan.DriverLeavingStops` | internal/ws/handler.go:73-75 | under the same conditions the disconnect of a moving car's driver always attempts a stop |
| `DeadMan.TakeoverHappens` | internal/access/manager.go:221-244 | with a shorter control timeout some run hands the lease of a moving car to another operator |
| `DeadMan.HandoverExact` | internal/access/manager.go:221-244 | while the server runs the driver keeps the lease, in all runs, if and only if the control timeout is at least the dead-man reach |
| `DeadMan.BelievedStandstill` | internal/safety/watchdog.go:70-72 | once a stop is recorded, ticks and waiting alone never send anything |
| `DeadMan.PacketWithoutMotorDisarms` | internal/telemetry/listener.go:171-193 | after a packet without a motor block nothing is sent, however long the silence |
| `DeadMan.SilenceAfterPacket` | internal/telemetry/listener.go:171-193 | from any run that leaves the car moving, such a packet and idle time of any length can follow, and the car still moves on the datagram it was on |
| `DeadMan.OneCommandForever` | internal/telemetry/listener.go:171-193 | one command and one such packet: any time later the car moves on its only datagram |
| `Standstill.MotionExact` | internal/control/service.go:41-87 | between any two points of a run: the car moves exactly when a drive was the last command to get out, or it moved before and no stop got out |
| `Standstill.StandsUntilDriven` | internal/control/service.go:41-87 | a standing car stands throughout a stretch of a run exactly when no drive gets out in it |
| `Standstill.SilenceStops` | internal/safety/watchdog.go:28-89 | while the server runs, once no drive has got out for longer than the reach the car stands |
| `Standstill.ShutdownExact` | internal/app/app.go:140-151 | from the shutdown's stop on the car stands exactly when it stood before or that stop got out, and no drive gets out after it |
| `Standstill.NobodyWatches` | internal/safety/watchdog.go:51-55 | once the context is cancelled, time and telemetry never make anything be sent |
| `Standstill.DriveAfterShutdown` | internal/app/app.go:143-151 | in any state of the running server a drive let through after the shutdown's successful stop moves the car for any length of time |
| `Standstill.ErrorSendsNothing` | internal/app/app.go:136-138 | ending on an error sends no stop, whatever the car is doing |
| `Inert.DeniedExactlyInert` | internal/ws/handler.go:117-161 | a message is malformed or denied exactly when it changes nothing |
| `Inert.DeniedErasable` | internal/ws/handler.go:117-249 | erasing all such messages from a run leaves the final world and every other reply unchanged |
| `Inert.OutOfRangeTakesLease` | internal/control/service.go:41-44 | one step: an out-of-range drive is not inert, its sender now holds the lease |
| `Inert.AcceptedDriveObeyed` | internal/ws/handler.go:170-173 | one step: an accepted drive is sent as asked and recorded and shown as sent, or changes neither wire nor recorded pair |
| `Inert.DisconnectStopsOwnerOnly` | internal/ws/handler.go:66-95 | one step: a disconnect attempts a stop exactly when the leaver holds a live lease |
| `SplitStep.SendThenRecordIsCommand` | internal/control/service.go:41-67 | one step: send and record with nothing between are the atomic command |
| `SplitStep.AgreementExact` | internal/control/service.go:41-129 | in every run, however calls and telemetry cross: the last pair sent is that of the last call that got out, and the recorded pair agrees with it exactly when that call wrote the record last or the same pair was written |
| `SplitStep.OrderedInStep` | internal/control/service.go:41-129 | in-order recording keeps the last datagram either in flight or last recorded |
| `SplitStep.SerialIsOrdered` | internal/control/service.go:41-87 | calls made one at a time are recorded in the order they sent |
| `SplitStep.OrderedAgreement` | internal/control/service.go:41-129 | corollary: with none in flight and records in order, the recorded pair is what the car was last told or what telemetry said since |
| `SplitStep.CrossedButAgreed` | internal/control/service.go:41-67 | witness: a run with records out of order that still agrees, so order is enough, not needed |
| `SplitStep.CrossedCallsDisagree` | internal/control/service.go:46-58 | two calls recorded out of turn leave wire and record different, and a recorded stop blinds the watchdog |
| `Telemetry.Listener.HandlePacket` | internal/telemetry/listener.go:140-208 | the state changes only for version 1 packets of type telemetry, and then every reported field is the packet's, or zero where its block is missing |
| `Telemetry.ReportExact` | internal/telemetry/listener.go:171-193 | the same of the values: accepted packets exactly, field by field |
| `Telemetry.Listener.CheckConnection` | internal/telemetry/listener.go:219-236 | a tick clears the motor flag exactly when telemetry is absent or stale |
| `Telemetry.ConnectedIsRecent` | internal/telemetry/listener.go:210-237 | a connected motor was heard within one and a half timeouts or reached within half a timeout, whatever packets and sends come between a tick's read and its write, as long as no time passes there |
| `Telemetry.BoundAttained` | internal/telemetry/listener.go:210-237 | witness: heard once, connected three half timeouts later, with nothing ever sent |
| `Telemetry.FlagExact` | internal/control/service.go:46-167 | for every sequence of moves the motor flag is up exactly when the last one that wrote it was an accepted packet or a successful send |
| `Telemetry.FreshFlag` | internal/telemetry/listener.go:210-237 | with fresh telemetry the flag is up exactly when every failed send and every verdict written since the last packet was followed by a successful send; only a verdict pending at that packet can be written |
| `Telemetry.RegularMeansConnected` | internal/telemetry/listener.go:210-237 | with fresh telemetry, no verdict pending at the last packet and no failed send since, the motor counts as connected |
| `Telemetry.NeverHeardConnected` | internal/control/service.go:46-54 | one send, and a motor never heard of counts as connected |
| `Telemetry.FailedSendHides` | internal/control/service.go:156-167 | after any run, a failed send hides a motor heard at that instant |
| `Telemetry.LateVerdictHides` | internal/telemetry/listener.go:219-234 | a verdict reached before the first packet and written after it hides the motor |
| `Viewers.NoLostWakeUp` | internal/camera/broadcaster.go:210-240 | a sleeping viewer has nothing to fetch, and if cancelled its helper can still wake it |
| `Viewers.OutExactlyWithFrame` | internal/camera/broadcaster.go:228-239 | in every run a viewer that is not cancelled is out of its call exactly when it has got one frame, newer than all it had |
| `Viewers.LeavesForAReason` | internal/camera/broadcaster.go:97-126 | in every run a viewer leaves only if its request was cancelled or it was given up |
| `Viewers.NothingNewSleeps` | internal/camera/broadcaster.go:228-233 | in any state with the lock free and no new frame, a viewer that calls and is not cancelled goes to sleep |
| `Viewers.FirstViewerSleeps` | internal/camera/broadcaster.go:228-233 | witness: the first viewer of a camera that has sent nothing sleeps |
| `Viewers.NoViewerStuck` | internal/camera/broadcaster.go:210-240 | a viewer with a new frame or a cancelled request is at most seven moves from returning, in every reachable state |
| `Viewers.EveryWayOut` | internal/camera/broadcaster.go:210-240 | and in every interleaving: until it is out it stays on its way, each move of its own brings it nearer and nobody else's takes it back, until the counter wraps |
| `Viewers.FiveMovesAtMost` | internal/camera/broadcaster.go:210-240 | so it makes at most five moves of its own before it is out |
| `Viewers.ViewersCounted` | internal/camera/broadcaster.go:268-286 | in every run the viewer count is the number of viewers inside `ServeHTTP`, and is positive whenever one leaves |
| `Viewers.StreamsRefineLog` | internal/camera/broadcaster.go:192-239 | a viewer gets published frames, none twice, in order, each with its number; asleep it has seen the newest |
| `Viewers.DeliversNewest` | internal/camera/broadcaster.go:228-239 | a delivery is the newest frame and newer than the viewer's last |
| `Framing.CutStreamReadBack` | internal/camera/broadcaster.go:107-123 | any cut of a stream reads back as exactly its whole frames |
| `Framing.StreamReadBack` | internal/camera/broadcaster.go:107-123 | a whole stream reads back as its frames |
| `Multipart.DecimalInverts` | internal/camera/broadcaster.go:107-112 | the printed Content-Length parses back to the length |
| `Multipart.AnnouncesFrame` | internal/camera/broadcaster.go:85 | the boundary a reader finds in the response's content type |
| `Multipart.PartReadBack` | internal/camera/broadcaster.go:107-123 | a reader that knows only the announced boundary reads lines, headers and as many bytes as they say, and gets the frame back whole, whatever bytes it holds and whatever follows |
| `Multipart.PartIsJpeg` | internal/camera/broadcaster.go:107-112 | that reader finds the boundary line, the type `image/jpeg` and the frame's length |
| `Multipart.CutPartUnread` | internal/camera/broadcaster.go:107-123 | a part cut short is never taken for a frame |
| `Multipart.FramesRoundTrip` | internal/camera/broadcaster.go:107-123 | decoding by Content-Length gives back any list of frames |
| `Multipart.WritePart` | internal/camera/broadcaster.go:107-123 | the three writes of a part stop at the first failure |
| `Multipart.ServeFrames` | internal/camera/broadcaster.go:97-126 | a viewer receives the stream cut where a write failed, and decodes the frames sent whole |
| `Delivery.ViewerDecodesPublished` | internal/camera/broadcaster.go:97-126 | whenever a connection is cut, the bytes received decode to published frames in order, none twice |
| `Delivery.ViewerDecodesCamera` | internal/camera/broadcaster.go:136-240 | and those are frames of the camera's sessions, in their order, when the reader hands over what its sessions hold |
| `Camera.Broadcaster.PublishFrame` | internal/camera/broadcaster.go:192-208 | the frame becomes the newest, and the service is told only if the camera was not connected |
| `Camera.Broadcaster.SetConnected` | internal/camera/broadcaster.go:242-253 | the service is told only of a change |
| `Camera.Broadcaster.SetDisconnected` | internal/camera/broadcaster.go:255-266 | the service is told only of a change |
| `Camera.Broadcaster.ReadStream` | internal/camera/broadcaster.go:136-190 | a session publishes the non-empty parts up to the first that fails, and every way out of it is an error |
| `Camera.Broadcaster.Run` | internal/camera/broadcaster.go:54-79 | the reader publishes exactly its sessions' frames; notices to the service alternate, and after the reader ends both flags are false |
| `Camera.PartsPublished` | internal/camera/broadcaster.go:164-189 | part by part: the frames of a session are its non-empty parts before the first that fails, and its error is that part's or what ended the stream |
| `Prefixes.NormalizeMapped` | internal/access/client_ip.go:75-84 | a block in mapped form holds an IPv4 address exactly when it has at least 96 bits and the 128-bit block holds the mapped address |
| `Prefixes.NormalizePlain` | internal/access/client_ip.go:75-84 | any other block keeps exactly its addresses |
| `Prefixes.BlockIsRange` | internal/access/client_ip.go:75-84 | a block is the range of addresses that starts at its masked address |
| `Prefixes.MappedUnmaps` | internal/access/client_ip.go:50-51 | mapping an IPv4 address and unmapping it gives it back |
| `ClientIP.NewClientIPResolver` | internal/access/client_ip.go:16-31 | all entries parse or the configuration fails |
| `ClientIP.IsTrusted` | internal/access/client_ip.go:50-60 | the scan finds a match exactly when one exists |
| `ClientIP.TrustIsConfigured` | internal/access/client_ip.go:16-73 | a peer is trusted exactly when a configured entry names its unmapped address |
| `ClientIP.Resolve` | internal/access/client_ip.go:33-48 | the backward scan yields the right-most address of the header, only for trusted peers |
| `ClientIP.ResolveExact` | internal/access/client_ip.go:16-60 | from the configured values and the header's entries: a peer nobody configured is taken at its own address, a trusted one at the last forwarded address, if any |
| `ClientIP.StrangerCannotForge` | internal/access/client_ip.go:35-37 | whatever two headers say, a stranger gets one answer, its own address |
| `ClientIP.ResolveConfigured` | internal/access/client_ip.go:16-48 | configuration and request as one: which configurations are accepted, and the answer in every case |
| `ClientIP.SplitExact` | internal/access/client_ip.go:39 | the entries hold no comma and joined by commas give the header back |
| `ClientIP.RightMostIs` | internal/access/client_ip.go:39-45 | the answer is the valid entry with nothing valid to its right |
| `ClientIP.SplitJoined` | internal/access/client_ip.go:39 | splitting two joined headers gives the entries of both |
| `ClientIP.FrontCannotOverride` | internal/access/client_ip.go:39-45 | text put in front of a header matters exactly when the header holds no address of its own |
| `Page.DrivePage.StartDrive` | web/app.js:198-212 | one press sends the command and leaves one new interval |
| `Page.DrivePage.StopDrive` | web/app.js:214-225 | the command and its interval are gone, and a stop is sent if asked |
| `Page.DrivePage.ClearRepeatTimer` | web/app.js:191-196 | the held interval is cleared |
| `Page.DrivePage.Repeat` | web/app.js:205-211 | a live interval repeats the held command |
| `Page.DrivePage.SendMessage` | web/app.js:148-156 | a message is numbered always and sent only over an open socket |
| `Page.DrivePage.OnStopButton` | web/app.js:282-287 | stop, then emergency stop |
| `Page.DrivePage.OnSocketClose` | web/app.js:54-63 | driving ends without sending |
| `Page.AlwaysTidy` | web/app.js:191-225 | never more than one live interval, exactly one while a command is held; message numbers grow |
| `Page.NoDriveAfterStop` | web/app.js:191-225 | after a stop no drive message leaves until the next press |
| `Page.RepeatsHeldCommand` | web/app.js:205-211 | what is repeated is the command last pressed |
| `Page.PressCarries` | web/app.js:198-212 | from a press on everything sent carries the pressed pair, the first message at the press itself, until a button is touched again |
| `Page.ReleaseSendsStop` | web/app.js:214-225 | one step: letting go sends one message, a stop |
| `Page.ClosedSendsNothing` | web/app.js:148-156 | nothing is sent over a closed socket, whatever is pressed |
| `Page.StopButtonSends` | web/app.js:282-287 | one step: the button's two messages, in order |
| `StopButton.ButtonHolds` | internal/ws/handler.go:181-234 | in any run that handles the page's messages in order among anything else: from the button's emergency stop on, once its datagram is out, the car stands exactly until the next drive gets out |
| `StopButton.OnlyHolderUndoes` | internal/access/manager.go:124-154 | for a whole control timeout after an emergency stop, a drive message moves the car again exactly if it comes from the live owner before it, or else from the one who pressed |
| `StopButton.StopUndone` | internal/ws/handler.go:176-239 | witness: in any reachable state with a free lease A drives, B stops the car, and A's next repeat moves it again |
| `StopButton.OwnStopHolds` | web/app.js:282-287 | pressed by the owner, or with a free lease, on a page that presses no drive button again, the car stands for a whole control timeout, whatever others send |
| `StopButton.ReleaseHolds` | internal/ws/handler.go:181-200 | in any run, letting go of a button stops the car until the next drive gets out, unless the lease is live and somebody else's |
| `StopButton.SilentPageStops` | web/app.js:191-225 | a halted page that alone drove the car: the car stands once the dead-man reach has passed |

## Left out

- Sockets, UDP, HTTP serving, JSON, YAML and multipart reading: messages, packets and frames arrive decoded, and every send takes its outcome as a parameter.
- Clock: one reading per locked section, in nanoseconds since the start; the two or three readings the manager takes under one lock are one here.
- Logs, request headers, and the texts of errors other than a motor failure, which are told apart by constructor.
- Message, system-command and reason texts are constructors; any other text is `OtherKind` or `OtherCommand`.
- Byte buffers: frames are values, so the copies made when a frame is published and fetched are not visible.
- Viewers: the condition variable, lock and helper are a step system, because a blocked goroutine is no method; fairness of the scheduler is not modelled, so `EveryWayOut` bounds a viewer's moves, not its time.
- Camera: a locked section and the notice to the service that follows it are one method; the reader is the only writer of the camera flag, so nothing can come between them but readers of the state.
- Watchdog: a ticker that drops ticks for a slow receiver, a check that takes time, and a tick due at the very instant of the cancellation that loses the race and still fires, are not modelled; negative timeouts, which the configuration refuses, are not either.
- SplitStep: an invalid drive, which sends nothing, is not a move there, since it writes neither pair nor link.
- End of the server: after the cancellation telemetry and camera reports may still come in the model, as they may for a moment in the program; the process's exit is no event, a run just ends. `Telemetry` and `Viewers` model the time before it.
- Multipart: the reader compares header names letter by letter and knows no folded lines; what browsers also tolerate is not modelled.
- Prefixes: text parsing and printing of addresses are library functions; prefixes carry no zone, as in the library.
- Page: its clock: the 100 ms between repeats and the delays of the network are not modelled, only their order; `WireSafety.WatchdogNeverInterrupts` says which gaps are short enough. Button press flags, pointer capture, key repeat, rendering, status polling and reconnection delays.
- `camera.Proxy`, `camera.Monitor` (never started), the telemetry relay, the tools and deploy files: plumbing.
- `Client.EmergencyStop` of the motor client has no caller in the service; `ReleaseIfOwner` has none in the server, so runs of `System` lose an owner only by expiry.
- ESP32 firmware: only what telemetry reports, as the hypothesis `Truthful`.
- Configuration checks, beyond the defaults that make timeouts positive.
