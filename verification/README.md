# Ginx: verified model

Ginx is a Go framework for game servers, with example games. This project models its hard parts in Dafny and
proves what they promise, for every interleaving, every run and every input.

- **The concurrent core of `gnet`.** `WorkerPool` is a transition system: every goroutine that starts, stops or
  submits to the pool is an actor, cut at the lock, channel, atomic and wait-group operations of the code, and the
  panics of the Go runtime are steps too. `WorkerPoolSafety`, `WorkerPoolHistory`, `WorkerPoolTheorems`,
  `WorkerPoolOrder`, `WorkerPoolProgress` and `WorkerPoolAnswers` prove that no interleaving panics, that every
  accepted request is handled exactly once before a stop returns, that each connection's requests are handled in
  order, that stopping terminates, and what a submission is answered and why.
  `ServerLifecycle` puts accepting, connections with their readers and writers, and shutdown on top of the pool;
  `ServerSafety`, `ServerTheorems`, `ServerProgress` and `ServerCompletion` prove the promises of shutdown,
  `ServerService` what the server does for its peers until then.
  `SendPath` is the outbound side of one connection, `SendDelivery` what becomes of calls and accepted packets on it,
  and `Framing` the packets on its socket.
- **Area of interest and visibility.** `AoiGrid` is the grid index proved against a brute-force scan, `UnityWorld`
  the players kept aligned with it, `Visibility` a strict client that decodes the packets it is sent, and
  `UnityServer` the hooks and routes of the Unity server. In every reachable state what each client makes of its
  packets is its true neighbourhood, positions included. The packets are the bytes of the codec below.
- **The Protocol Buffers codec.** `UnityWire`, `UnityFields` and `UnityMessages` follow the Protocol Buffers
  "Encoding" specification: Base 128 Varints, Message Structure, Signed Integers, Length-Delimited Records.
  `UnityLayout` states which field numbers and wire types a generic reader finds in each message.
- **Sessions and the services over them.** `SessionTable` says what the session manager means, as scans of one
  table; `Sessions` is the manager with its indexes, and `SessionLaws` what its callers can rely on, in terms of the
  tokens they find. `Rooms` are the room objects. `GameState` says what the game service does to sessions, rooms and
  connections together; `GameService` is the service, and `GameLaws` what its callers can rely on. `ArenaSim`,
  `ArenaPlaces` and `ArenaWorld` are the arena game, and `ArenaLaws` what a step does to players and crystals.
- **Bounds and algebra.** `TokenBucket` proves the rate limiter against the promise it stands for. `SchemaNames`,
  `Schema`, `SchemaCanonical` and `Compatibility` are the schema checks of the protocol generator.

Objects that the code updates in place are classes; each of their methods is tied to a function of the old state,
and what is promised is proved of those functions. Concurrent code is a transition system over values. `Counting`,
`Sorting`, `Permutations`, `Options` and `Binary` are the shared mathematics.

Results that say where the code does *not* meet what one would expect, with the exact condition:

- A payload of 2^32 bytes or more is packed with a truncated length (`Framing.RoundTrip`, `Framing.TruncatedLength`,
  `SendPath.AllArriveExactly`).
- The automatic player id of a legacy login wraps at 2^64 and may then hit a live session
  (`SessionTable.UniqueStep`, `SessionTable.AutomaticIdIsNew`, `SessionTable.WrappedIdsClash`).
- Turns in the arena are fair over n steps unless the 64-bit tick wraps within them and n does not divide 2^64
  (`ArenaSim.FirstInTurn`).
- Both distance bounds of the grid are tight (`AoiGrid.BoundsAreTight`).

Parameters stand for what is outside the model: clock readings, fresh tokens and connection ids, whether passwords
and stores agree, whether sockets read or write, and the value of `math.Hypot`.

## Model

| member | source | states |
|---|---|---|
| WorkerPoolTheorems.NeverPanics | gnet/msghandler.go:108-219 | In every interleaving no send hits a closed queue, nothing is closed twice, and the wait group never goes negative |
| WorkerPoolTheorems.HandledAtMostOnce | gnet/msghandler.go:172-219 | A request is handled at most once, and one whose submission was refused is never handled |
| WorkerPoolTheorems.StopReturnsAfterAllHandled | gnet/msghandler.go:151-165 | Before any StopWorkerPool returns, every request whose submission returned nil, even one accepted after the stop signal, was handled exactly once; afterwards no handler begins or ends, whatever follows |
| WorkerPoolOrder.ConnectionOrder | gnet/msghandler.go:172-219 | The requests of one connection that are accepted after the pool has started are handled in the order of acceptance and one at a time |
| WorkerPoolOrder.AcceptedIsQueued | gnet/msghandler.go:188-219 | A request accepted once the queues are made goes through a queue |
| WorkerPoolTheorems.DrainedMeansHandled | gnet/msghandler.go:151-165 | A stopped pool whose wait group is zero has handled all it accepted, and its workers are gone |
| WorkerPoolTheorems.ReturnsDrained | gnet/msghandler.go:151-165 | A stop call returns only from a drained pool |
| WorkerPoolHistory.InvStep | gnet/msghandler.go:108-219 | Every step keeps the control, place, count and order invariants |
| WorkerPoolHistory.InvRun | gnet/msghandler.go:108-219 | The invariants hold in every reachable state |
| WorkerPoolHistory.TaskSubmit | gnet/msghandler.go:172-219 | A submission puts its request in the lane of its connection once, or starts it on its own when no pool runs, or nowhere |
| WorkerPoolHistory.TaskReceive | gnet/msghandler.go:108-115 | A worker takes the head of its own queue and nothing is lost or repeated |
| WorkerPoolHistory.TaskFinish | gnet/msghandler.go:108-115 | A finished request is counted once as handled |
| WorkerPoolSafety.ControlStart | gnet/msghandler.go:118-149 | Starting, in all its branches, keeps flags, queues and workers consistent |
| WorkerPoolSafety.ControlStop | gnet/msghandler.go:151-165 | Stopping keeps the rule that queues are closed only under the write lock, with no producer inside |
| WorkerPoolProgress.StepFalls | gnet/msghandler.go:108-219 | Every step of a call under way lowers a natural number |
| WorkerPoolProgress.RunsAreBounded | gnet/msghandler.go:108-219 | No run without new calls is longer than the measure of its first state |
| WorkerPoolProgress.StopNeverBlocks | gnet/msghandler.go:151-165 | While a stop call has not returned, some step other than a new read lock is enabled |
| WorkerPoolProgress.StartNeverBlocks | gnet/msghandler.go:118-149 | The same for a start call |
| WorkerPoolProgress.ReaderMoves | gnet/msghandler.go:172-219 | Whoever holds the read lock can move: a blocked send sees the stop signal, and before that its own timer |
| WorkerPoolProgress.StopCompletes | gnet/msghandler.go:151-165 | When nothing is left to do, every stop call has returned |
| WorkerPoolAnswers.AnswerIsExact | gnet/msghandler.go:172-219 | A submission that runs alone is answered as the state it finds decides: stopped under the stop signal, else refused exactly when the pool is started and the queue of its connection has no room, else accepted; the queue ConnID modulo size gets its request exactly when a started pool accepts it, and nothing else changes. Only a blocking call to a started pool may also give up |
| WorkerPoolAnswers.AnswerReached | gnet/msghandler.go:172-219 | From every such state its own steps reach that answer |
| WorkerPoolAnswers.RefusedWhenFull | gnet/msghandler.go:195-219 | In any interleaving a request is refused only by a started pool, and one that does not wait only in a state where its queue is full and no worker waits at it |
| WorkerPoolAnswers.ReasonsHold | gnet/msghandler.go:118-219 | In every reachable state: stopped is answered only under the stop signal; after a start call returned and before the stop signal the pool is started with all queues open and all workers running; no queue exceeds its capacity |
| WorkerPoolAnswers.QuietMeansHandled | gnet/msghandler.go:108-149 | Where no worker, request goroutine or start call can move, every accepted request has been handled exactly once |
| ServerSafety.InvStep | gnet/server.go:76-229 | Every step of server, connections and pool keeps the joint invariant |
| ServerSafety.InvRun | gnet/server.go:76-229 | The joint invariant holds in every reachable state |
| ServerSafety.ClearKeeps | gnet/connmanager.go:79-91 | The snapshot that ClearConn stops holds every registered connection |
| ServerTheorems.NeverPanics | gnet/server.go:76-229 | No wait group goes negative and the pool never panics |
| ServerTheorems.HooksRunOnce | gnet/server.go:159-181 | A connection runs its start hook once, before its stop hook; its stop hook at most once, after it was stopped and its reader and writer are gone; when its goroutine ends it has run both |
| ServerTheorems.DoneMeansOver | gnet/server.go:216-229 | When shutdownDone closes the gauge is zero, nothing is registered, and every connection has ended |
| ServerTheorems.ShutdownIsFinal | gnet/server.go:197-229 | After shutdownDone every accepted request has been handled exactly once, and in no continuation does a hook or handler run |
| ServerProgress.StepFalls | gnet/server.go:76-229 | While the shutdown goroutine runs every step lowers a natural number, if handlers and hooks return |
| ServerProgress.RunsAreBounded | gnet/server.go:197-229 | No run from there is longer than the measure |
| ServerCompletion.ShutdownNeverBlocks | gnet/server.go:197-229 | Until shutdownDone some step that waits for no peer is enabled |
| ServerCompletion.ShutdownCompletes | gnet/server.go:197-229 | Where only peers could move, a called Shutdown has closed shutdownDone |
| ServerCompletion.ConnMoves | gnet/server.go:159-181 | A connection that neither has ended nor waits for its peer can move |
| ServerService.TakesExactly | gnet/connmanager.go:29-49 | A socket gains one connection, one registry entry, one gauge count and one wait count exactly if its id is free and MaxConn is not positive or fewer are registered; otherwise all four stay as they were |
| ServerService.SocketIsTaken | gnet/server.go:116-157 | An accept loop left alone takes the next socket to that end |
| ServerService.ServiceHolds | gnet/server.go:76-181 | In every reachable state at most MaxConn connections are registered, the gauge counts them until shutdown, the accept loop runs from the start to the stop of the server, and each reader waits for a submission of its own connection |
| ServerService.StopReasons | gnet/connection.go:219-260 | A connection is stopped by its peer, its holder or shutdown, or because its request was not accepted; stopped is answered only under the stop signal |
| ServerService.ReadsOnOrEnds | gnet/connection.go:255-259 | A reader goes on after an accepted request and ends its connection after one that was not |
| ServerService.ReaderAfterHook | gnet/server.go:159-181 | A connection gets its writer with its start hook and its reader only after that hook returned |
| ServerService.MessageIsSubmitted | gnet/connection.go:219-260 | What a peer in service sends is submitted once, for its own connection |
| ServerService.RestingServer | gnet/server.go:76-229 | Where only peers can move, every connection has ended after both hooks or is in service and registered, every accepted request has been handled exactly once, and start, shutdown and accept loop are at rest |
| ServerService.StartServes | gnet/server.go:76-105 | A start that finds the listener lock free comes to listen and accept, with its pool started |
| ServerService.ShutdownBegins | gnet/server.go:197-214 | Shutdown can be called at any time and has then signalled accept loop and pool |
| SendPath.OneInsideGate | gnet/connection.go:129-182 | At most one call is between taking and releasing the gate |
| SendPath.ErrorEnqueuesNothing | gnet/connection.go:129-182 | A call that returned an error enqueued nothing; one that returned nil enqueued its packed message exactly once |
| SendPath.PeerReadsPrefix | gnet/connection.go:79-106 | Whatever the interleaving of senders, timeouts, short writes and Stop, the bytes on the socket are a prefix of the accepted packets in enqueue order, and a peer that received any part of them reads exactly the complete messages before the first whose length does not fit 32 bits, and never that one as it was sent |
| SendPath.AllArriveExactly | gnet/datapack.go:79-104 | A peer that receives all packets reads all messages as they were sent, if and only if each is shorter than 2^32 bytes |
| SendPath.WriteFull | gnet/connection.go:267-279 | All of the packet is written, or an error follows a prefix of it |
| SendDelivery.EverythingArrives | gnet/connection.go:79-106 | While a connection is open its writer does not go away; from every reachable open state the writer takes at most as many steps as it has bytes and packets to write, and where they end all accepted packets are on the socket, so a peer reads all accepted messages if and only if each is shorter than 2^32 bytes |
| SendDelivery.WriterDelivers | gnet/connection.go:79-106 | There is such a run of the writer |
| SendDelivery.AnswerIsExact | gnet/connection.go:129-182 | A call that runs alone is told: that its context ended, if it did; else closed on a closed connection; else queue full behind another call if it does not wait; else why its message cannot be packed; else queue full without room if it does not wait; else sent, with exactly its own packet enqueued |
| SendDelivery.CallReturns | gnet/connection.go:129-182 | Unless it waits for others its own steps reach that answer |
| SendDelivery.FailureReasons | gnet/connection.go:129-182 | In any interleaving an error has its reason in the state in which it arises |
| SendDelivery.NothingSentOnceClosed | gnet/connection.go:152-157 | No call that comes through the gate after the connection was closed is sent |
| SendDelivery.StopEndsAll | gnet/connection.go:318-330 | Once Stop has closed the socket, and where neither writer nor calls can move, the writer is gone and every call has returned, with or without a context |
| Framing.RoundTrip | gnet/datapack.go:20-48 | A packed payload reads back, whatever follows it, if and only if it is shorter than 2^32 bytes |
| Framing.TruncatedLength | gnet/datapack.go:20-48 | The shortest payload that does not: 2^32 zero bytes read back as an empty message |
| Framing.PacketLayout | gnet/datapack.go:20-48 | A packet is the length, the message number and the payload, numbers lowest byte first; it is made exactly if the length field is within the limit |
| Framing.OversizeRefused | gnet/datapack.go:50-77 | A header that announces more than the limit is refused |
| Framing.ParseFrame | gnet/datapack.go:79-104 | Reading one packet gives its message and leaves what follows |
| Framing.ParseCut | gnet/datapack.go:79-104 | A packet cut short is never taken for a message |
| Framing.ParsePrefix | gnet/datapack.go:79-104 | Of a prefix of some packets exactly the complete messages are read |
| Framing.ChunkReader.ReadMessage | gnet/datapack.go:79-104 | The result depends on the bytes only, not on the pieces in which they arrive |
| Framing.ChunkReader.ReadAll | gnet/datapack.go:79-104 | A peer looping ReadMessage gets what the bytes mean, under any chunking |
| AoiGrid.AOIManager.New | gcore/aoi.go:50-66 | A manager is made exactly for positive sizes |
| AoiGrid.AOIManager.AddEntity | gcore/aoi.go:69-88 | Adds exactly a new entity inside the world, and says which error otherwise |
| AoiGrid.AOIManager.RemoveEntity | gcore/aoi.go:91-102 | Removes exactly the entity; buckets and table agree and no empty bucket is kept |
| AoiGrid.AOIManager.MoveEntity | gcore/aoi.go:105-131 | Moves exactly the entity; Entered and Left list who came into and went out of the brute-force neighbourhood; they are disjoint, and the new neighbourhood is the old one without Left and with Entered |
| AoiGrid.AOIManager.Nearby | gcore/aoi.go:192-205 | The nine buckets, sorted, are the ascending list of what the brute-force scan finds |
| AoiGrid.AOIManager.Difference | gcore/aoi.go:207-220 | The ascending list of the members of one list that the other lacks |
| AoiGrid.AOIManager.GetNearbyEntityIDs | gcore/aoi.go:146-155 | The same for known entities, an error for others |
| AoiGrid.AroundOthers | gcore/aoi.go:105-131 | When one entity changes, the others keep each other and gain or lose only that one |
| AoiGrid.CellDistance | gcore/aoi.go:164-205 | Within one cell size on both axes entities are nearby; nearby entities are strictly less than two cell sizes apart on each axis |
| AoiGrid.PlacedExactly | gcore/aoi.go:164-175 | A position has a cell exactly if it is finite and in the world, and it is the cell that contains it; otherwise which error |
| AoiGrid.BoundsAreTight | gcore/aoi.go:164-205 | Neither bound can be improved, on either axis of a world longer than two cells there |
| UnityWorld.World.AddPlayerWithPid | examples/unity/world.go:63-90 | Players, player-id index and grid stay aligned; the new player starts at the origin and its neighbours are listed by player id |
| UnityWorld.World.RemovePlayerWithVisibility | examples/unity/world.go:99-118 | Removes exactly the player and lists who saw it before |
| UnityWorld.World.UpdatePlayerWithVisibility | examples/unity/world.go:154-178 | Moves exactly the player and lists entered, left and visible players; a rejected move changes nothing |
| UnityWorld.World.PlayersFromIds | examples/unity/world.go:273-284 | The players of these ids, ascending by player id |
| UnityWorld.World.NearbyPlayers | examples/unity/world.go:265-271 | The players that a player sees, ascending by player id |
| UnityWorld.SeesByDistance | examples/unity/world.go:261-271 | Players within one cell size in x and z see each other whatever their height and heading; players that see each other are less than two apart |
| UnityWorld.FloatsAreOrdered | examples/unity/world.go:261-263 | The float32 patterns of finite numbers stand for numbers in the same order |
| UnityWorld.FloatLandmarks | examples/unity/world.go:261-263 | Zero and one are where they belong, the sign bit negates, the next exponent doubles, and infinities and NaNs are not finite |
| Visibility.OthersLearnTruth | examples/unityserver/server.go:207-257 | A client that knew the truth and gets the packets of another player's move or arrival knows the new truth |
| Visibility.MoverLearnsTruth | examples/unityserver/server.go:207-257 | So does the mover, from arrivals, farewells and its own echo |
| Visibility.NewcomerLearnsTruth | examples/unityserver/server.go:295-350 | A newcomer knows the truth after SyncPID, SyncPlayers and its own TP=2 |
| Visibility.RestLearnTruth | examples/unityserver/server.go:351-370 | Those who saw a player that leaves are told, and then know the truth; the others know it already |
| Visibility.FeedArrivals | examples/unityserver/server.go:225-235 | Telling a client of players it does not know adds exactly them |
| Visibility.FeedFarewells | examples/unityserver/server.go:236-248 | Telling a client that players it knows are gone removes exactly them |
| Visibility.OpensBroadcast | examples/unityserver/server.go:259-267 | The client decodes the broadcast the server encoded |
| UnityServer.Server.Connect | examples/unityserver/server.go:295-350 | The packets of each connection after a connect; every client still knows the truth, and a failed connect changes nothing |
| UnityServer.Server.Disconnect | examples/unityserver/server.go:351-370 | The same for a disconnect |
| UnityServer.Server.HandleMove | examples/unityserver/server.go:207-257 | The same for a move; undecodable data and positions outside the world change nothing; no client is told of a move of a player it does not know |
| UnityServer.Server.HandleTalk | examples/unityserver/server.go:29-44 | What is said reaches everybody and is no news about who is near |
| UnityServer.Server.BroadcastVisible | examples/unity/world.go:191-211 | One packet to the player and to exactly those it sees |
| UnityServer.MoveKeepsTruth | examples/unityserver/server.go:207-257 | If every client knew its true neighbourhood before a move, every client does after it |
| UnityServer.ConnectKeepsTruth | examples/unityserver/server.go:295-350 | The same for a connect |
| UnityServer.DisconnectKeepsTruth | examples/unityserver/server.go:351-370 | The same for a disconnect |
| UnityWire.AppendVarintValue | examples/unity/protocol.go:425-431 | The loop writes the base-128 varint of the number |
| UnityWire.ReadUnityVarint | examples/unity/protocol.go:487-504 | The loop reads what the bytes mean, its offset grows and stays in bounds, and the statement after the loop is never reached |
| UnityWire.VarintMeaning | examples/unity/protocol.go:487-504 | An accepted varint is well formed, at most ten bytes, and equals its mathematical value below 2^64 |
| UnityWire.VarintAccepted | examples/unity/protocol.go:487-504 | Every well-formed varint is accepted, whatever follows |
| UnityWire.VarintRoundTrip | examples/unity/protocol.go:425-504 | What was written is read back |
| UnityFields.AppendVarint | examples/unity/protocol.go:403-410 | Tag and varint of a field |
| UnityFields.AppendBytes | examples/unity/protocol.go:419-423 | Tag, length and bytes of a field |
| UnityFields.ReadFieldBounds | examples/unity/protocol.go:433-485 | A field takes at least one byte and never reaches past the end |
| UnityFields.DecodeUnityFields | examples/unity/protocol.go:433-485 | The decoding loop with its callback computes the fold over the fields up to the first error |
| UnityFields.DecodeAppend | examples/unity/protocol.go:433-485 | Decoding a well-formed part and then the rest is decoding the whole |
| UnityFields.UnknownFieldsIgnored | examples/unity/protocol.go:433-485 | Fields the receiver ignores can be inserted at any field boundary without changing the result |
| UnityMessages.UnknownFieldsChangeNothing | examples/unity/protocol.go:97-401 | The same for each message type and every unknown field number |
| UnityMessages.NegativeTakesTenBytes | examples/unity/protocol.go:403-410 | A negative int32 is sign-extended to a ten-byte varint |
| UnityMessages.PositionRoundTrip | examples/unity/protocol.go:88-121 | Unmarshal after Marshal gives the position back, over any receiver |
| UnityMessages.SyncPidRoundTrip | examples/unity/protocol.go:123-140 | Unmarshal after Marshal gives the message back |
| UnityMessages.PlayerRoundTrip | examples/unity/protocol.go:142-171 | The same for a player with its nested position |
| UnityMessages.SyncPlayersRoundTrip | examples/unity/protocol.go:173-203 | The same for any number of nested players, over any receiver |
| UnityMessages.WriteSyncPlayers | examples/unity/protocol.go:173-183 | The loop writes the players one after the other |
| UnityMessages.MovePackageRoundTrip | examples/unity/protocol.go:205-234 | The same for a move |
| UnityMessages.TalkRoundTrip | examples/unity/protocol.go:236-253 | The same for chat text |
| UnityMessages.BroadCastRoundTrip | examples/unity/protocol.go:255-310 | The same for a broadcast, with omitted empty fields and an optional nested position |
| UnityMessages.RoomRequestRoundTrip | examples/unity/protocol.go:312-329 | The same for a room request |
| UnityMessages.RoomResponseRoundTrip | examples/unity/protocol.go:331-367 | The same for a room response |
| UnityMessages.RoomEventRoundTrip | examples/unity/protocol.go:369-401 | The same for a room event |
| UnityLayout.PositionLayout | examples/unity/protocol.go:88-95 | x, y, z and v are the fixed32 fields 1 to 4 |
| UnityLayout.SyncPidLayout | examples/unity/protocol.go:123-125 | The player id is varint field 1, in two's complement |
| UnityLayout.PlayerLayout | examples/unity/protocol.go:142-150 | Id is field 1, the nested position field 2 |
| UnityLayout.PlayersLayout | examples/unity/protocol.go:173-183 | Each player is a nested field 1, in order |
| UnityLayout.MovePackageLayout | examples/unity/protocol.go:205-213 | The nested position is field 1, the action field 2 |
| UnityLayout.TalkLayout | examples/unity/protocol.go:236-238 | The text is field 1 |
| UnityLayout.BroadCastLayout | examples/unity/protocol.go:255-273 | Player 1, type 2, text 3, position 4, action 5; an empty text, a missing position and action 0 are left out |
| UnityLayout.RoomRequestLayout | examples/unity/protocol.go:312-314 | The room is field 1 |
| UnityLayout.RoomResponseLayout | examples/unity/protocol.go:331-339 | Room 1, code 2, message 3, player count 4 |
| UnityLayout.RoomEventLayout | examples/unity/protocol.go:369-376 | Room 1, player 2, text 3 |
| UnityLayout.PacketLayouts | examples/unityserver/server.go:207-350 | Message numbers and layouts of the server's packets: 1 own id, 201 gone, 202 players around, 200 of type 2 for coming into view, 3 for moving, 1 for talking |
| SessionTable.UniqueStep | session/session.go:123-247 | Every operation keeps one session per account, player and connection, unless it is a login whose automatic id has wrapped to that of a live session; then it never does |
| SessionTable.BoundForLife | session/session.go:211-230 | A session keeps its account, player and expiry, and once bound its connection, for as long as it lives; it becomes bound only by Bind before it expires |
| SessionTable.OrdinaryRun | session/legacy.go:24-76 | Any mixture of explicit and automatic ids keeps the sessions unique while the counter does not wrap |
| SessionTable.AutomaticIdIsNew | session/legacy.go:24-76 | After any such run the next automatic id exceeds every id handed out before, automatic or explicit, exactly when the counter is not at its maximum or nothing was handed out |
| SessionTable.WrappedIdsClash | session/legacy.go:24-65 | At the maximum three calls give player 1 two live sessions |
| SessionLaws.IssueGives | session/session.go:179-207 | A new session is found, can be bound and survives a sweep exactly until now + ttl; the one of its account that it replaces is found no more, all others as before |
| SessionLaws.IssueAccepted | session/session.go:179-207 | When a session is issued, and which error otherwise |
| SessionLaws.BindGives | session/session.go:211-230 | A bound session is found as long as before, now also by its connection; the others are as they were |
| SessionLaws.BindAccepted | session/session.go:211-230 | A token is refused exactly when it is not found, is bound elsewhere, or the connection has another session |
| SessionLaws.BindOnce | session/session.go:211-230 | No token serves two connections and no connection two tokens |
| SessionLaws.RemovalsGive | session/session.go:108-247 | Logging out and sweeping make exactly these sessions vanish; touching changes one time stamp |
| SessionLaws.LoginGives | session/legacy.go:24-65 | An automatic login gives a session bound to its connection for ever with the number after the last, in place of those of its account and connection |
| SessionLaws.RemovalReasons | session/session.go:123-247 | A session vanishes only when it is logged out, swept after its time, or replaced |
| SessionLaws.IssuedLifetime | session/session.go:179-251 | Whatever happens after a session is issued, while its token is in the table it is found exactly until now + ttl, with its account and player |
| Sessions.IndexedUnique | session/session.go:20-28 | Exact indexes exist only for tables with unique accounts, players and connections |
| Sessions.Manager.Issue | session/session.go:179-207 | Does to the table what scanning says, with exact indexes after; a failed call changes nothing; returns the replaced session |
| Sessions.Manager.Bind | session/session.go:211-230 | The same; a failed call changes nothing, and no connection changes hands |
| Sessions.Manager.LogoutByToken | session/session.go:123-136 | Removes exactly the session |
| Sessions.Manager.LogoutByConnId | session/session.go:139-152 | Removes exactly the session bound to the connection |
| Sessions.Manager.RemoveExpired | session/session.go:233-247 | Removes exactly the expired sessions and returns each of them once |
| Sessions.Manager.Touch | session/session.go:108-120 | Touches only a live session |
| Sessions.Manager.Login | session/legacy.go:24-65 | Does to the table what scanning says; the indexes stay exact if and only if the automatic id is not that of a session left in place |
| Sessions.Manager.GetByConnId | session/session.go:72-87 | Finds the live session bound to the connection, if and only if there is one |
| Sessions.Manager.GetByPlayerId | session/session.go:90-105 | The same for a player |
| Rooms.Room.Join | gcore/room.go:65-84 | Adds exactly the connection, or says why not; never beyond capacity |
| Rooms.Room.Leave | gcore/room.go:87-96 | Removes exactly the connection |
| Rooms.Room.Members | gcore/room.go:133-150 | The ascending list of the members |
| Rooms.Room.Broadcast | gcore/room.go:163-178 | One send to each member but the excluded one, in ascending order, and the errors of those that failed |
| Rooms.RoomManager.RemoveRoom | gcore/room.go:219-232 | Forgets the room and closes it |
| GameState.InvStep | examples/gameapp/service.go:116-329 | Every operation keeps: a connection has room r if and only if r holds it, rooms within capacity, members bound, no deadline exactly for bound connections, sessions of configured accounts only, nothing connected once closed |
| GameState.InvRun | examples/gameapp/service.go:116-329 | This holds after every run |
| GameState.MembersAreBound | examples/gameapp/service.go:256-278 | Every room member is bound to a session in the manager |
| GameState.LoginNeverRefused | examples/gameapp/service.go:116-151 | A configured account is never refused a session |
| GameState.SweepLeavesTheLive | examples/gameapp/service.go:307-320 | After a sweep exactly the connections remain that have a live session or are before their deadline, and no expired session is left |
| GameState.ClosedForever | examples/gameapp/service.go:322-329 | Once closed, there is no connection and no room member, whatever is called later |
| GameState.JoinThenLeave | examples/gameapp/service.go:264-274 | Joining the new room and then leaving the old one is moving, and leaving cannot fail |
| GameState.OneRoomIsAll | examples/gameapp/service.go:213-228 | Leaving the one recorded room is leaving all rooms |
| GameLaws.JoinGives | examples/gameapp/service.go:256-278 | A join puts the connection in the room and nowhere else and moves nobody else; it is refused exactly without an open service, a connection and a session found by it, without such a room, or when the room is full and the connection not in it |
| GameLaws.LeaveGives | examples/gameapp/service.go:280-293 | An authenticated connection that leaves is in no room, and nobody else moves |
| GameLaws.LoginGives | examples/gameapp/service.go:116-151 | A login opens a session of its account until now + ttl; the connection of an older session of the account is stopped and gone from everywhere; other sessions stay |
| GameLaws.AuthenticateGives | examples/gameapp/service.go:230-243 | Authentication gives the connection its session for as long as the token is found and lifts its deadline; it succeeds exactly in an open service, before the deadline or without one, with a token that can be bound |
| GameLaws.ThirtySeconds | examples/gameapp/service.go:197-243 | Whatever happens after a connection was made, while it has no session it can authenticate, and survives sweeps, exactly for thirty seconds |
| GameLaws.EndGives | examples/gameapp/service.go:207-228 | A closed connection is forgotten with session and place, and nobody else; closing the service stops all |
| GameLaws.ConnectGives | examples/gameapp/service.go:197-205 | A new connection gets a deadline thirty seconds on and no room; a closed service only stops it |
| GameLaws.OthersUntouched | examples/gameapp/service.go:116-329 | An operation changes nothing for the connections it is not about |
| GameService.Service.New | examples/gameapp/service.go:77-114 | A service is made exactly for valid, distinct accounts and rooms, and starts with these and nothing else |
| GameService.Service.Login | examples/gameapp/service.go:116-151 | Succeeds exactly for a known account with a good password, an open service, a store and a token; the replaced session's connection vanishes from everywhere |
| GameService.Service.Connected | examples/gameapp/service.go:197-205 | Registers the connection with its deadline, or stops it when closed |
| GameService.Service.Disconnected | examples/gameapp/service.go:207-228 | The connection vanishes from connections, rooms and sessions |
| GameService.Service.Authenticate | examples/gameapp/service.go:230-243 | Binds exactly before the deadline and with a token valid at the second reading of the clock |
| GameService.Service.Join | examples/gameapp/service.go:256-278 | Moves the connection, or says why not and keeps its old room |
| GameService.Service.Leave | examples/gameapp/service.go:280-293 | Leaves the room, if authenticated |
| GameService.Service.Sweep | examples/gameapp/service.go:307-320 | Evicts exactly the overdue connections, in whatever order the maps are walked |
| GameService.Service.Close | examples/gameapp/service.go:322-329 | Evicts every connection, in whatever order |
| ArenaSim.StepLength | examples/webgame/server/world.go:346-350 | One step moves a player at most 9 units and keeps it in the box |
| ArenaSim.DirectionIsUnit | examples/webgame/server/world.go:223-227 | An accepted input has length at most one |
| ArenaSim.TickKeeps | examples/webgame/server/world.go:314-372 | A step keeps: a crystal not hidden was not taken for five seconds, a hidden one stays hidden for five seconds after it was taken |
| ArenaSim.CrystalsRest | examples/webgame/server/world.go:351-367 | In any run with non-decreasing step times two collections of one crystal are at least five seconds apart |
| ArenaSim.OnePlayerPerCrystal | examples/webgame/server/world.go:351-361 | In any such run of two collections of one crystal the later is at a later time, so no step credits a crystal to two players |
| ArenaSim.ArenaBound | examples/webgame/server/world.go:351-367 | An arena with k crystals yields at most k * (1 + T / 5s) points in any window of length T |
| ArenaSim.OneTurnEach | examples/webgame/server/world.go:330-337 | Each step gives every connected player exactly one turn |
| ArenaSim.FirstInTurn | examples/webgame/server/world.go:336-337 | With the same n players each is first in exactly one of any n consecutive steps, if and only if the tick does not wrap within them or n divides 2^64 |
| ArenaPlaces.GuestAccountInjective | examples/webgame/server/world.go:85-87 | Guests with different numbers have different accounts |
| ArenaPlaces.GuestIssue | examples/webgame/server/world.go:85-89 | A guest is refused a session only when its number is zero or still in use |
| ArenaPlaces.NamesSweep | examples/webgame/server/world.go:321-328 | After a sweep of sessions exactly the names of the living are left |
| ArenaLaws.TurnsGive | examples/webgame/server/world.go:336-362 | In a step each player has one turn: with an input of the last 250 ms it moves 9 units of its direction, up to the walls; it scores exactly what is logged for it; exactly those without a name for more than ten seconds are stopped |
| ArenaLaws.VisitCollects | examples/webgame/server/world.go:351-361 | In its turn a player collects exactly the crystals that were not hidden and are within 25 units of where it has come to, and they are hidden from then on |
| ArenaLaws.HiddenExactly | examples/webgame/server/world.go:351-367 | After a step a crystal is hidden exactly when it was taken less than five seconds before |
| ArenaWorld.StepGives | examples/webgame/server/world.go:314-362 | What a step makes of each player: out of its arena and stopped where its session is over, stopped where it is late, otherwise moved and scored |
| ArenaWorld.InputSteers | examples/webgame/server/world.go:223-231 | An accepted input takes a player 9 units of its direction a step, at most 9 units far, and nowhere once it is a quarter of a second old |
| ArenaWorld.World.ScoreBound | examples/webgame/server/world.go:351-361 | In every reachable world whose clock never went back, a player that collected within a window of length T since it entered its arena has a score of at most 8 * (1 + T / 5s) |
| ArenaWorld.World.Guest | examples/webgame/server/world.go:70-92 | Succeeds exactly for a proper name, below capacity and with a free number; names stay those of the sessions |
| ArenaWorld.World.Connected | examples/webgame/server/world.go:95-103 | A new player in no room, or a stop when closed |
| ArenaWorld.World.Disconnected | examples/webgame/server/world.go:104-114 | The player leaves its arena and is forgotten with its session and name |
| ArenaWorld.World.Authenticate | examples/webgame/server/world.go:154-171 | Binds the session and gives the player its name, which is never empty |
| ArenaWorld.World.Join | examples/webgame/server/world.go:177-205 | Moves the player to the start of the arena, or says why not and leaves all as it was |
| ArenaWorld.World.HandleInput | examples/webgame/server/world.go:206-231 | The numbers accepted from a connected player, all remembered, strictly increase, and the last is what the next is compared with; so an input sent twice, or after a later one, is answered by nothing and changes nothing; the direction has length at most one |
| ArenaWorld.World.Leave | examples/webgame/server/world.go:232-238 | The player leaves its arena |
| ArenaWorld.World.LeaveArena | examples/webgame/server/world.go:251-260 | Room members, grid entities and players with that room stay the same set |
| ArenaWorld.World.Step | examples/webgame/server/world.go:314-372 | Dismisses exactly the players with expired sessions, gives the others their turns in rotation, and lets crystals come back; every score stays what the log has for the player since it entered its arena |
| ArenaWorld.World.PointsBound | examples/webgame/server/world.go:351-367 | In every reachable world whose clock never went back, an arena has yielded at most 8 * (1 + T / 5s) points in any window of length T |
| ArenaWorld.World.VisitPlayer | examples/webgame/server/world.go:336-362 | One player's turn: late guests stopped, move clamped, grid moved with it, crystals collected |
| ArenaWorld.Arena.Remove | examples/webgame/server/world.go:251-260 | The room and grid errors that the code discards when leaving cannot happen |
| ArenaWorld.Arena.Admit | examples/webgame/server/world.go:189-193 | A join is refused only when the room is full |
| ArenaWorld.Arena.Place | examples/webgame/server/world.go:194-202 | The discarded grid error when joining cannot happen |
| ArenaWorld.Arena.Move | examples/webgame/server/world.go:346-350 | The discarded grid error when moving cannot happen |
| TokenBucket.TokenBucket.New | limit/token_bucket.go:21-35 | A bucket is made exactly for a positive rate and burst, and is full |
| TokenBucket.TokenBucket.AllowN | limit/token_bucket.go:43-56 | Grants exactly the requests for which no window of time would see more than burst + rate * length, for any clock readings |
| TokenBucket.TokenBucket.Refill | limit/token_bucket.go:58-68 | Lazy refill keeps the bucket at the level of one refilled continuously; a clock that goes back refills nothing |
| TokenBucket.LazyRefill | limit/token_bucket.go:58-68 | Refilling whenever somebody looks is refilling continuously |
| TokenBucket.LevelDecides | limit/token_bucket.go:43-56 | The bucket holds enough exactly when the promise allows the request |
| TokenBucket.WindowBound | limit/token_bucket.go:43-68 | No window of time, wherever it starts and ends, sees more than its allowance |
| TokenBucket.TokenBucket.TotalBound | limit/token_bucket.go:43-68 | All that was ever granted is at most burst + rate * clock advance |
| SchemaNames.GoFieldExported | tools/protocolgen/generate.py:60-61 | The Go name of a valid field is an exported Go identifier |
| SchemaNames.GoFieldsCollide | tools/protocolgen/generate.py:60-61 | Different valid field names can have the same Go name, so the collision check is needed |
| SchemaNames.FieldNameIsWords | tools/protocolgen/generate.py:48-50 | A field name is at most a hundred characters of words that begin with a letter, with single underscores between them |
| SchemaNames.TypeIsBaseOrList | tools/protocolgen/generate.py:64-84 | A type is a base type or a list of one |
| Schema.ValidateFields | tools/protocolgen/generate.py:64-84 | The loop with its sets accepts and returns what the order-free specification says |
| Schema.ValidateMessage | tools/protocolgen/generate.py:98-112 | The checks of one message |
| Schema.ValidateMessages | tools/protocolgen/generate.py:96-112 | The loop over the messages accepts exactly pairwise different names, ids and generated symbols |
| Schema.ValidateSchema | tools/protocolgen/generate.py:87-115 | The whole validation computes the specification |
| Schema.FieldsInAnyOrder | tools/protocolgen/generate.py:64-84 | The order of fields matters neither for acceptance nor for the result |
| Schema.MessagesInAnyOrder | tools/protocolgen/generate.py:87-115 | The same for the order of messages |
| Schema.SchemaFieldsInAnyOrder | tools/protocolgen/generate.py:87-115 | The same for the fields of any message of a schema |
| Schema.MessageFieldsInAnyOrder | tools/protocolgen/generate.py:96-112 | The same for the fields of one message |
| Schema.DefaultsFilled | tools/protocolgen/generate.py:64-84 | A field that does not say so is not optional, and one without a description has an empty one |
| Schema.MessageDefaultFilled | tools/protocolgen/generate.py:53-57 | The same for the description of a message |
| Schema.KeysAreExact | tools/protocolgen/generate.py:37-41 | Nothing with an unknown key, or without a needed one, is accepted |
| Schema.ReservedIsFree | tools/protocolgen/generate.py:96-112 | No message has a generated symbol that is reserved for the versions |
| SchemaCanonical.ResultIsGood | tools/protocolgen/generate.py:64-115 | The result is in normal form: sorted, with no two messages sharing a name, id or generated symbol and no two fields of a side sharing a Go name |
| SchemaCanonical.MessagesAreListed | tools/protocolgen/generate.py:87-115 | The messages of a result come in ascending order of their ids |
| SchemaCanonical.FieldsAreListed | tools/protocolgen/generate.py:64-84 | The fields of a side come in order of their names: at the first difference the smaller character stands first |
| SchemaCanonical.ValidationIsIdempotent | tools/protocolgen/generate.py:87-115 | The result, written out and validated again, is the same |
| Compatibility.CheckCompatibility | tools/protocolgen/generate.py:149-162 | The loop with its table by name decides whether every old message is still there as it was and new ones come with a higher version |
| Compatibility.CompatibleReflexive | tools/protocolgen/generate.py:149-162 | Every schema is compatible with itself |
| Compatibility.CompatibleTransitive | tools/protocolgen/generate.py:149-162 | Compatibility is transitive |
| Compatibility.IdsAreForever | tools/protocolgen/generate.py:149-162 | Along any chain of compatible releases an id never means another message, and a message never gets another id, or fields with other names, types or optionality |
| Compatibility.SameVersionSameWire | tools/protocolgen/generate.py:149-162 | Compatible releases with the same version have the same messages on the wire |
| Compatibility.ShapesMean | tools/protocolgen/generate.py:145-146 | Equal wire shapes mean the same field names, types and optionality |
| Compatibility.DescriptionsAreFree | tools/protocolgen/generate.py:145-162 | Other descriptions are compatible |
| Compatibility.AddingNeedsVersion | tools/protocolgen/generate.py:149-162 | Adding a message is compatible exactly with a higher version |
| Compatibility.DroppingIsIncompatible | tools/protocolgen/generate.py:149-162 | Dropping a message never is |
| Compatibility.HeaderIsForever | tools/protocolgen/generate.py:149-162 | Along a chain of compatible releases the package and namespace stay and the version never falls |

## Left out

- `gnet/msghandler.go`, `gnet/server.go`, `gnet/connection.go`, `gnet/connmanager.go`: interleavings are the point, so these are transition systems over values rather than classes; aliasing of Go objects is not modelled there.
- Routing of a message to its handler, panics inside handlers, and the metrics of `gnet/msghandler.go`: a handler is code that returns.
- A second caller of Start that waits for the first, and a server that is stopped by its own hooks or handlers.
- TCP, deadlines and accept errors: steps that may succeed or fail at any time.
- SendPath.PeerReadsPrefix: the peer's own size limit is not smaller than the sender's.
- SendPath.AllArriveExactly: the same.
- Rounding of float64 and NaN patterns: coordinates, tokens and speeds are real numbers; a coordinate that is not finite is a value of its own; float32 fields are bit patterns in the codec.
- UnityServer.Server.Connect: whether the session could be issued and bound is a parameter; the room routes and connection properties of the Unity server are not modelled.
- UnityServer.Server.HandleMove: sends succeed and each hook and route is one step, so the races between a route and a hook of another connection are not modelled.
- UnityServer.Server.HandleTalk: the text is shorter than 2^63 bytes, as every Go string is.
- `createToken`: tokens are fresh; `time.Now` is an argument, so times do not overflow.
- GameService.Service.Login: password hashing and the player store are parameters.
- GameService.Service.Connected: connection ids are fresh, as the server counter makes them until it wraps.
- `Me`, `Rooms` and `Heartbeat` of the game service: views of the state that is modelled.
- ArenaWorld.World.Step: snapshots and events sent to clients, and stops after failed sends, are not modelled.
- ArenaWorld.World.Guest: trimming and the Unicode classes of a name are a parameter.
- ArenaWorld.World.HandleInput: JSON decoding is a parameter; `math.Hypot` is a parameter with its square given.
- SchemaNames: a Dafny character is never a lone surrogate, so the rule against surrogates in descriptions is void here; error messages are not modelled.
- Reading and writing of schema files, and the rendering of Go, Python and Markdown from a schema.
- `wsbridge`, HTTP handlers, persistence, logging, configuration and the frontends: calls into other libraries.
