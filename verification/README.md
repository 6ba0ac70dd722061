# Network Ultra Server, verified model

A Dafny model of the relay server's concurrent cores and of the bridge that talks to it. `dafny verify
--resource-limit 2000000 --verification-time-limit 0 dfyconfig.toml` checks the project.

Where the source changes state in place, there are three layers:

* the critical section as a function from state to state (`Next`, `Add`, `HandleHello`, `AllowStep`, ...);
* a class whose methods perform it on their own fields, with the source's branches and loops, each proved equal
  to that function;
* a step machine that interleaves the sections of any number of threads, rooms, peers and messages, and lemmas
  over all its runs.

The parts:

* **Rooms.** `RoomSections` holds the critical sections of rooms and registry, `RoomObjects` the objects. `RoomWorld`
  interleaves sessions, timers and destroy callbacks: a session's program counter stands in every gap between two
  locks, a fired timer is a callback waiting for its locks, and rooms are told apart from their names. `RoomRuns`
  proves safety over all runs, `RoomProgress` why an empty room goes away, `RoomSessions` how a peer came to be in its
  room and that undisturbed sessions get where they are going. `RoomDeltas` is the public list and its change
  messages, `RoomPublishing` the same when publications overlap. `LockOrder` is the registry and room locks. `FanOut`
  is one room's forwarder.
* **UDP.** `UdpServer` has the handlers, the sender and the sweep over the binding, token and address maps; `UdpRuns`
  takes them over all runs; `Handshake` adds the bridge and a network, modelled as the set of all datagrams ever
  sent, which loses, copies and reorders them at will.
* **Rate limits.** `RateLimit` has the reference and the implementation, `RateLimitRefinement` that the second refines
  the first, `RateLimitWindow` how many charges fit in a sliding interval.
* **Write queue.** `ConnQueue`, one WebSocket connection with many writers and one drainer; `ConnWriters` follows each
  frame from the call that started it.
* **Client address.** `Forwarded` specifies the `Forwarded` header (RFC 7239, sections 4 and 6; quoted strings of RFC
  7230, section 3.2.6) and `X-Forwarded-For`; `ForwardedExact` what exactly the parsers accept, `ClientIp` the loops that parse and the choice of the hop;
  `OpenQuotes` says what lines in front can do to the lines behind them, `ClientLines` what a client can do with both
  headers.
* **Frames.** `Wire`, the binary layouts and the packers over shared buffers.

Inputs of the model rather than part of it: clock readings, fresh room numbers, peer ids and tokens, the outcome of
the password check, the rate limiter's answers inside the UDP handlers, lower-casing, node and address parsing, and
the trusted-proxy test.

The limiter's sliding bound is stated as 2L - 1 and shown to be reached: an interval of one window's length meets at
most two windows, and misses the charge that opened the first of them. (A window of one clock unit is one instant; its
bound is L.)

## Model

| member | source | states |
|---|---|---|
| RoomRuns.NoOrphanedRoom | internal/room/registry.go:122-153 | In every reachable state of every interleaving a created room is its name's registry entry exactly when it is not destroyed; destroyed and armed rooms are empty; rooms and registry stay within their limits; no two live rooms share a name up to case. |
| RoomRuns.MembershipAgrees | internal/ws/dispatch.go:527-567 | A peer is in at most one room's map, that room is live and registered, and outside its own `Add` or `Remove` gap its current-room pointer names exactly that room. |
| RoomRuns.NoLeakedRoom | internal/room/room.go:171-210 | A registered empty room has an armed timer whose pending callback carries the current generation, or a thread inside `Create` or `Remove` that has yet to schedule one. |
| RoomRuns.RacingAdd | internal/room/room.go:114-168 | A racing `Add` is decided by the room itself, whoever owns its name by now: not-found iff the room was destroyed, full iff it is live at its limit, otherwise the peer is in a registered room with no timer and only stale callbacks, and the reply lists the other members. |
| RoomRuns.DestroyedForEver | internal/room/registry.go:122-153 | A destroyed room stays destroyed, unregistered and empty for the rest of the run, even when its name is created again. |
| RoomRuns.CallbacksAreArmed | internal/room/room.go:198-210 | Every pending destroy callback was started by an earlier `scheduleDestroyIfEmpty` of that room and generation. |
| RoomRuns.ArmedThroughout | internal/room/room.go:142-147 | From the step that armed a generation to any later state where it is current, the timer was armed in every state between, with an unchanged due time. |
| RoomRuns.DestroyWaitedOutItsDelay | internal/room/registry.go:122-146 | A callback that takes effect was armed at some earlier step, its whole 30 s or 60 s delay has gone by, and the room was empty in every state between: no `Add` succeeded. |
| RoomRuns.StaleForEver | internal/room/registry.go:131-140 | A callback that is not the current generation of an armed room never takes effect later in the run. |
| RoomRuns.AtMostOneTakesEffect | internal/room/registry.go:131-146 | However many callbacks a room collects, at most one of them takes effect in the whole run. |
| RoomRuns.RunsKeepInv | internal/room/room.go:114-210 | The registry, membership, timer and no-leak invariants hold in every state of every run. |
| RoomRuns.RoomHistory | internal/room/room.go:198-210 | Along a run the clock and a room's generation only grow, rooms are never forgotten and destruction is final. |
| RoomWorld.KeepsCore | internal/room/registry.go:122-146 | Each step of any thread keeps: registry and live rooms agree, rooms respect their limit, an armed room is empty and live, and only an armed room's own generation has a current callback. |
| RoomWorld.KeepsMembership | internal/ws/dispatch.go:639-651 | Each step keeps room maps and room pointers in agreement up to the two documented gaps. |
| RoomWorld.KeepsNoLeak | internal/room/room.go:171-193 | Each step keeps every empty, live, unarmed room on some thread's list of things to schedule. |
| RoomProgress.RankNeverRises | internal/room/room.go:198-210 | Unless somebody joins, no step raises an empty room's distance from destruction, and the room stays empty. |
| RoomProgress.RankCanFall | internal/room/room.go:301-303 | From every state satisfying the invariant some enabled step, which is not a join, strictly lowers that distance while the room is not destroyed. |
| RoomProgress.EmptyRoomIsReclaimed | internal/room/registry.go:122-153 | Every run with an empty room extends, in at most rank many steps during which the room stays empty, to one where the room is destroyed. |
| RoomSessions.JoinersWereAdmitted | internal/ws/dispatch.go:420-567 | In every run: whoever calls `Add` created that very room itself, under a name that was free, or found it by its name and then had its password accepted; and these are its last two steps before the `Add`. |
| RoomSessions.RejectedStaysOutside | internal/ws/dispatch.go:510-518 | From every reachable state: a session outside all rooms whose password is wrong is as before, and so is everything else. |
| RoomSessions.UnknownNameStaysOutside | internal/ws/dispatch.go:497-508 | The same for a name that nobody has. |
| RoomSessions.RefusedCreateStaysOutside | internal/room/registry.go:76-90 | The same for a create under no name, under a taken one, or with the registry full. |
| RoomSessions.RefusedStaysOutside | internal/ws/dispatch.go:527-547 | An `Add` that finds its room destroyed or full leaves the session outside all rooms and every room as it was; in a live room with space it succeeds. |
| RoomSessions.JoinsByName | internal/ws/dispatch.go:481-567 | From every reachable state a session outside all rooms that names a room with space, with the right password, is by its own four steps in that room, at rest, and nobody else's membership changes. |
| RoomSessions.CreatesAndJoins | internal/ws/dispatch.go:420-479 | From every reachable state a session outside all rooms that creates under a free name, below the limit, starts the 30 s timer and is by its own steps the only member of that room. |
| RoomSessions.Leaves | internal/ws/dispatch.go:569-577 | From every reachable state a session at rest in a room is by its own steps in no room, with nobody else's membership changed; exactly the last one out starts the 60 s timer. |
| RoomSessions.ConnectAndDisconnect | internal/ws/dispatch.go:639-651 | A session that connects is outside all rooms, and one outside all rooms can go. |
| RoomSessions.JoinStopsTheTimer | internal/room/room.go:142-147 | Right after a successful `Add` no callback of the room is left but those that had fired before it and were waiting for the locks. |
| RoomSessions.CallbackRunsOnce | internal/room/room.go:198-210 | In every run each timer's callback runs at most once. |
| RoomObjects.Room.Add | internal/room/room.go:114-168 | On the object: the new room state and the answer are those of the critical section; the joined peer points back at the room; a refusal changes nothing; the snapshot of others omits the joiner. |
| RoomObjects.Room.Remove | internal/room/room.go:171-187 | Exactly the named peer leaves, its room pointer is cleared, and the last one out starts a timer with a new generation. |
| RoomObjects.Room.OthersThan | internal/room/room.go:148-164 | The snapshot loop yields all members but one. |
| RoomObjects.Room.ScheduleDestroyIfEmpty | internal/room/room.go:198-210 | Arms a new generation exactly when the room is live, empty and unarmed. |
| RoomObjects.Room.FanOutTargets | internal/room/room.go:262-287 | The snapshot loop of `fanOut` collects exactly the recipients, each once, and nobody for an absent or muted source. |
| RoomObjects.Registry.Create | internal/room/registry.go:65-108 | Fails without effect iff the name is empty, taken up to case, or the registry is full, with the error of the first of these that holds; otherwise registers a fresh room with its idle timer armed. |
| RoomRuns.FindMeansLive | internal/room/registry.go:111-115 | In every reachable state `Find` answers with the one room that is not destroyed and was created under a name of the same lower-casing, in any spelling, and with none when there is none. |
| RoomRuns.FindFollowsCreateAndDestroy | internal/room/registry.go:65-153 | Every spelling of a name finds the new room after a create exactly when that create succeeded, and none after a destroy that took effect on the room it found; every other answer stays, through failed creates, destroys without effect, operations on other names, and all other steps. |
| RoomObjects.Registry.Destroy | internal/room/registry.go:122-153 | Takes effect exactly when the room is still its name's entry and the generation is the armed one of an empty room; then the name is freed and the room marked destroyed; otherwise nothing changes. |
| RoomObjects.Registry.CountPeers | internal/room/registry.go:204-212 | The sum of the rooms' sizes, in whatever order the rooms are visited. |
| RoomObjects.Peer.IsSubscribed | internal/room/peer.go:70-77 | True iff no subscription was ever set or the source is in it. |
| RoomObjects.Peer.SetSubscribed | internal/room/peer.go:79-89 | Afterwards exactly the listed sources are heard, or all of them for a nil list. |
| RoomDeltas.DeltasReplayPublicList | internal/room/registry.go:156-194 | For every history of complete operations, replaying all published deltas from the empty list gives exactly `PublicList`, and each delta applies (additions name new rooms, removals and updates listed ones). |
| RoomDeltas.PerformAnnounces | internal/room/registry.go:99-108 | Each complete create, join, leave and expiry keeps the catalog invariant, and the deltas it publishes turn the old public list into the new one. |
| RoomDeltas.CreateDoes | internal/room/registry.go:65-108 | A create succeeds exactly for a name that is not empty and that no live room has, up to case, below the limit; then an empty room is registered under it, announced exactly if public, and no other room changes; otherwise nothing happens. |
| RoomDeltas.JoinDoes | internal/ws/dispatch.go:527-567 | A join by the name of a live room with space puts the peer in that room, and exactly a public room's new size is announced; with no space nothing happens. |
| RoomDeltas.JoinOfNothing | internal/ws/dispatch.go:497-508 | A join by a name that no live room has does nothing. |
| RoomDeltas.LeaveDoes | internal/ws/dispatch.go:569-577 | After a leave the peer is out of its room, which has one peer less and, if empty, an armed timer; exactly a public room's lower count is announced; no other room changes. |
| RoomDeltas.ExpireDoes | internal/room/registry.go:122-153 | A callback takes effect exactly on a live, empty room whose armed generation it is; then the name is free and exactly a public room's removal is announced; otherwise nothing happens. |
| RoomPublishing.SerialPublishingAgrees | internal/room/registry.go:172-194 | Operations interleaved between acting, reading the room's entry and calling the listener: as long as no two on one name overlap, the client has, under every name nobody has yet to publish about, exactly what is listed, and the whole list once all has been published. |
| RoomPublishing.ClientAgreesExactly | internal/room/registry.go:172-194 | In whatever order deltas were published, the client has the public list iff the last delta about each name says what is listed under it. |
| RoomPublishing.StaleCount | internal/room/registry.go:184-194 | A run in which two joins read in one order and publish in the other: all is published, two peers are in the room, the client's list says one. |
| RoomPublishing.DebtsCanBePaid | internal/room/registry.go:184-194 | In every reachable state whoever owes a publication can make it by its own steps; it is the room's entry as it reads it, and nothing else changes. |
| RoomDeltas.ListedNames | internal/room/registry.go:174-182 | A registered room is on the list exactly when it is public, under its own name and only once. |
| FanOut.DeliveredInOrder | internal/room/room.go:240-297 | In every run what one receiver was handed is an in-order subsequence of the frames the room accepted. |
| FanOut.DeliveriesMatchTheRoom | internal/room/room.go:262-297 | Every delivery went through a scan that began while its source was in the room and unmuted, with the receiver, another member, in the room too; and the receiver was subscribed to the source at the moment the scan read its subscription. |
| FanOut.ReleasedOnce | internal/room/room.go:214-260 | `Done` is called at most once per frame, never for a frame still queued, and frames submitted = released + queued + the one in hand. |
| FanOut.EveryoneIsServed | internal/room/room.go:287-296 | When the forwarder is done with a frame it sent, every other member that the scan saw subscribed to the source has been handed it. |
| FanOut.FrameReachesItsRecipients | internal/room/room.go:214-297 | From every reachable state with a running forwarder and room in the queue: a frame of an unmuted member is handed, by the forwarder's own steps, to every other member subscribed to it. |
| FanOut.ServesWhoeverIsThere | internal/room/room.go:262-297 | The same right after any change of members, mutes and subscriptions between two scans: the frame goes by the room as changed. |
| FanOut.SubmitTakesFrameIn | internal/room/room.go:214-224 | In every reachable state `Forward` appends the frame if there is room, and otherwise releases it at once; nothing else changes. |
| FanOut.ClosesDown | internal/room/room.go:231-260 | From every reachable state, once the room is closed the forwarder stops by its own steps, with every frame submitted so far released. |
| FanOut.UndisturbedScan | internal/room/room.go:262-287 | When no mute or subscription changes during it, the scan, in whatever order, sends the frame to exactly the recipients, or releases it for an absent or muted source. |
| FanOut.EveryFrameIsReleased | internal/room/room.go:240-260 | From every reachable state before the forwarder has stopped, its own steps lead to one in which each frame submitted so far, by its number, has been released, once. |
| FanOut.ReleasedUnlessStopped | internal/room/room.go:214-260 | In every reachable state: the next frame submitted is released in some continuation iff the forwarder has not stopped or the queue is full. |
| FanOut.StoppedWithAFrame | internal/room/room.go:214-260 | A run of four steps that ends with a frame in the queue of a stopped forwarder. |
| FanOut.LoadFalls | internal/room/room.go:240-297 | Each forwarder step strictly lowers a lexicographic measure of what is queued and in hand, and no other step but a new frame changes it. |
| FanOut.StopLeavesNothing | internal/room/room.go:246-257 | When the forwarder stops, each frame submitted until then has been released. |
| FanOut.NeverReleasedOnceStopped | internal/room/room.go:214-260 | A frame that `Forward` accepts after that stays in the queue in every continuation, and its `Done` is never called. |
| FanOut.NobodyIsServedTwice | internal/room/room.go:262-297 | No receiver is handed the same frame twice in a run. |
| FanOut.KeepsInv | internal/room/room.go:214-260 | Every step of senders, forwarder, drain and membership keeps queue order, conservation and delivery facts; the queue never exceeds 512. |
| LockOrder.LifeIsDisciplined | internal/room/room.go:114-210 | Whatever sequence of operations a thread runs, each acquisition is above everything it holds and everything is released. |
| LockOrder.ProgramsHoldTheirLocks | internal/room/room.go:114-210 | Each operation does hold, at some point and together, the locks that cover what it does there: `Add` the registry for reading and the room for writing, `destroy` both for writing, a count each room under the registry. |
| LockOrder.StepKeepsInv | internal/room/registry.go:122-146 | Lock steps keep that order for all threads and keep writers alone. |
| LockOrder.SomeThreadCanStep | internal/room/registry.go:204-212 | As long as one thread is unfinished some thread can step, even with waiting writers shutting out new readers. |
| LockOrder.NeverDeadlocked | internal/room/registry.go:122-146 | Any number of threads with any programs under any schedule: never all stuck, and a write-held lock has one holder. |
| Handshake.Agreement | cmd/bridge/main.go:173-253 | Over a lossy, duplicating, reordering network, a bound bridge implies the server at an earlier step bound that peer, with that token, to the bridge's upstream socket, and in the whole run accepts that token from nowhere else and for nobody else. |
| Handshake.OneLocalSource | cmd/bridge/main.go:173-215 | Once chosen, the local source never changes; only its datagrams are ever passed on; whatever is handed back goes to it and came from the configured server. |
| Handshake.HandshakeCompletes | cmd/bridge/main.go:220-253 | From every reachable unbound state, with the token in force and neither end bound elsewhere, a hello, its acceptance and its welcome bind both ends, whatever was lost before. |
| Handshake.LoopbackGoesToTheServer | cmd/bridge/main.go:173-215 | In every reachable state a local datagram is sent to the server, unchanged, from the upstream socket, iff it comes from the source the bridge is bound to or, before it is bound, is the session's hello from no second source; nothing else is sent, and it binds nothing. |
| Handshake.NetworkGoesToTheSource | cmd/bridge/main.go:220-253 | In every reachable state a datagram of the network is delivered, unchanged, iff it comes from the server and the bridge is bound or is bound by it; it binds iff it is the peer's welcome while a source is pending. |
| Handshake.PingThroughTheBridge | cmd/bridge/main.go:173-253 | From every reachable state with both ends bound: the plugin's ping renews the server's lease, and its pong reaches the plugin. |
| Handshake.AudioThroughTheBridge | cmd/bridge/main.go:173-215 | From such a state an audio frame of the plugin within its rate is accepted as its peer's and renews the lease. |
| Handshake.FrameThroughTheBridge | cmd/bridge/main.go:220-253 | A frame the server sends while the lease lives reaches the plugin. |
| Handshake.KeepsInv | cmd/bridge/main.go:173-253 | Every step of bridge, server, network and outsiders keeps: before binding only the session's own hello leaves the upstream socket, every welcome answers an accepted hello from where it goes, and a bound bridge has its acceptance on record. |
| Handshake.EmittedWelcome | internal/udp/server.go:355-363 | A 20-byte welcome leaves the server only in the step that accepts a hello, to that hello's source, naming its peer. |
| Handshake.HistoryIsTheRun | internal/udp/server.go:304-353 | The recorded acceptances are exactly the run's accepted hellos. |
| Handshake.Proxy.OnLoopback | cmd/bridge/main.go:173-215 | The loop body on the proxy's two addresses: next state and forwarding decision are those of the bridge machine, which `LoopbackGoesToTheServer` fixes. |
| Handshake.Proxy.OnNetwork | cmd/bridge/main.go:220-253 | The loop body for upstream datagrams: next state and delivery address are those of the bridge machine, which `NetworkGoesToTheSource` fixes. |
| UdpRuns.OneTokenOneEndpoint | internal/udp/server.go:304-353 | For every run, two accepted hellos with the same token name the same peer and come from the same address, through lost welcomes, sweeps, sender-side expiry, detach, re-attach and re-mint. |
| UdpRuns.RetriesOnlyFromTheSameEndpoint | internal/udp/server.go:338-352 | A hello with a used token is accepted again iff it is within its rate, the token is still in force and it comes from the same address. |
| UdpRuns.LostLeaseCannotBeRetaken | internal/udp/server.go:460-482 | Once the binding an acceptance made is gone or re-made with another token, no hello with the old token is accepted from anywhere. |
| UdpRuns.HeardPeerStaysBound | internal/udp/server.go:223-245 | From any moment an endpoint is heard, no run of less than 15 s without the peer's own detach takes it away, and its sender answers with that address throughout. |
| UdpRuns.PingIsHeardAndAnswered | internal/udp/server.go:265-300 | In every reachable state a bound peer's ping from its endpoint renews its lease and is answered with exactly that peer's pong, to that endpoint. |
| UdpRuns.AudioIsHeard | internal/udp/server.go:391-421 | In every reachable state a bound peer's audio from its endpoint, within its rate, renews its lease, is accepted as that peer's, and is not answered. |
| UdpRuns.HelloIsHeardAndAnswered | internal/udp/server.go:304-363 | In every reachable state an authentic hello within its rate, from a source bound to its peer or both free, binds it and is answered with exactly that peer's welcome, to that source. |
| UdpRuns.NothingElseIsHeard | internal/udp/server.go:265-441 | Every datagram but these three leaves the server as it was and is not answered; an answer goes to its source, which is then bound, names its peer, and is no longer than what it answers. |
| UdpRuns.SendGoesToTheLease | internal/udp/server.go:223-261 | In every reachable state a frame for a peer is sent unchanged to its endpoint iff its lease is under 15 s old, and nothing else is sent. |
| UdpRuns.KeptAlive | internal/udp/server.go:367-385 | A peer whose pings or audio come from its endpoint within every 15 s, and that is not detached, stays bound there for the whole run, however long, and its frames go there. |
| UdpRuns.FreshPeerBinds | internal/udp/server.go:175-196 | From every reachable state: a peer bound nowhere that is attached and minted a fresh token, and says hello with it from a free address, is bound there and answered with its welcome. |
| UdpRuns.OwnStepsPeerByPeer | internal/udp/server.go:175-261 | What mint, attach, detach, send and sweep do to every peer's attachment, token and lease in every reachable state: to the peer named, and for the sweep to all whose lease has run out; to nobody else. |
| UdpRuns.KeepsInv | internal/udp/server.go:175-261 | Every server step keeps the map bijection, tokens tied to the peer they were minted for, and every used token in force held by a binding at its own endpoint. |
| UdpRuns.HistoryIsTheRun | internal/udp/server.go:304-353 | The recorded acceptances are exactly the run's accepted hellos. |
| UdpServer.HandlersKeepBijection | internal/udp/server.go:304-441 | Mint, attach, hello, ping and audio keep: the address map sends a to p's binding exactly when p's address is a, and bound peers are attached. |
| UdpServer.RemovalsKeepBijection | internal/udp/server.go:200-261 | Detach, sender-side expiry and the sweep keep the same bijection. |
| UdpServer.HelloAccepted | internal/udp/server.go:304-353 | A hello binds iff it is authentic, within its rate, and its peer and source are bound to each other or both free; the limiter is consulted for authentic hellos only; refusals change nothing; acceptance touches no other peer. |
| UdpServer.OnlyTheBoundPeerRenews | internal/udp/server.go:367-421 | A ping or audio frame renews a bound peer's lease exactly when it is well formed, comes from that peer's endpoint and names it; no other peer's lease, no endpoint and no token moves; a pong goes out exactly when some lease was renewed. |
| UdpServer.HelloOutcomes | internal/udp/server.go:304-353 | Which refusal a hello meets, each by its exact condition: malformed, unknown peer, wrong token, over its rate, peer bound elsewhere, address bound to another. |
| UdpServer.AudioOutcomes | internal/udp/server.go:391-421 | Which refusal an audio frame meets, each by its exact condition: unknown source, over its rate, malformed, another peer's name. |
| UdpServer.HelloView | internal/udp/server.go:338-353 | An accepted hello gives its own peer a lease at its source, with its token and from now, and moves nothing of anybody else's; a refused one moves nothing. |
| UdpServer.MintAndAttachViews | internal/udp/server.go:175-196 | A minted token is in force for its peer, an attached peer is attached; nothing else moves for anybody. |
| UdpServer.LapseViews | internal/udp/server.go:460-482 | The sweep takes from each peer whose lease has run out, and from nobody else, the lease and the token that made it; the sender does so for its own peer, and answers with the lease that is left. |
| UdpServer.ViewsAreAll | internal/udp/server.go:175-217 | Two states in which every peer has the same attachment, token and lease are equal, so the peer-by-peer results leave nothing out. |
| UdpServer.DetachIsExact | internal/udp/server.go:200-217 | After a detach the peer has no attachment, token, address or binding, and everybody else keeps theirs unchanged. |
| UdpServer.SweepIsExact | internal/udp/server.go:460-482 | After a sweep every remaining lease is under 15 s old; a fresher lease keeps binding, address and token; an older one loses all that it gave. |
| UdpServer.SenderUsesLiveLeaseOrFallsBack | internal/udp/server.go:223-245 | The sender uses a live lease and changes nothing, or leaves the peer without binding, address and matching token and answers none; other peers are untouched. |
| UdpServer.SweepVisits | internal/udp/server.go:462-480 | One turn of the sweep loop removes exactly what the finished sweep would remove for that binding, so the visiting order does not matter. |
| UdpServer.Server.Sweep | internal/udp/server.go:460-482 | The loop that deletes while iterating computes the order-free sweep. |
| UdpServer.Server.OnHello | internal/udp/server.go:304-353 | The handler on the server's maps takes the state and outcome of the hello section. |
| UdpServer.Server.OnPing | internal/udp/server.go:367-384 | The same for pings; the result says whether a pong goes out. |
| UdpServer.Server.OnAudio | internal/udp/server.go:391-421 | The same for audio, with the anti-spoof check after the rate limit and the unpack. |
| UdpServer.Server.PrepareSend | internal/udp/server.go:223-246 | The locked part of the sender takes the state and target of the sender section. |
| UdpServer.Server.AttachPeer | internal/udp/server.go:190-196 | Registers the peer, and touches no token, address or binding. |
| UdpServer.Server.DetachPeer | internal/udp/server.go:200-217 | Removes attachment, token, own binding and address, and nobody else's. |
| UdpServer.Server.MintToken | internal/udp/server.go:175-184 | Installs the drawn token for the peer, or changes nothing when the entropy source fails. |
| RateLimitRefinement.LimiterRefinesReference | internal/ratelimit/limiter.go:31-135 | For every history with non-decreasing clocks every answer equals that of a reference that never deletes anything; live budgets agree and the table never exceeds its cap. |
| RateLimitRefinement.StepRefines | internal/ratelimit/limiter.go:31-93 | One `Allow` or `AllowPair` from agreeing states gives the reference's answer (rejecting for capacity exactly when live plus newly needed keys exceed the cap) and agreeing states again. |
| RateLimitRefinement.CallChargesAllOrNothing | internal/ratelimit/limiter.go:55-93 | A rejected call changes no live budget; an accepted one charges each key it names exactly one unit (a pair both, equal keys once) and no other. |
| RateLimitRefinement.EmptyKeyIsUnknown | internal/ratelimit/limiter.go:95-100 | An empty key is charged as the key `unknown`, in single calls and in either place of a pair. |
| RateLimitRefinement.DisabledLimitPasses | internal/ratelimit/limiter.go:31-34 | A limit of zero or less lets every call pass and changes nothing. |
| RateLimitRefinement.SweptEvery1024Charges | internal/ratelimit/limiter.go:122-135 | Over every history the calls that charged are counted, and right after every 1024th of them the table holds open windows only. |
| RateLimitRefinement.MakeRoomExact | internal/ratelimit/limiter.go:114-120 | Capacity is decided by live keys alone, and making room deletes no live key. |
| RateLimitRefinement.CapHoldsInAnyOrder | internal/ratelimit/limiter.go:114-120 | Whatever the clock values, in any order, the table never exceeds its cap. |
| RateLimitRefinement.ClockOrderMatters | internal/ratelimit/limiter.go:31-59 | Four calls, the last with an older clock value, on which the limiter and the reference differ: with clocks out of order the refinement fails. |
| RateLimitWindow.SlidingBound | internal/ratelimit/limiter.go:31-93 | For a key always used with limit L and window W, at most 2L - 1 charges (L, for a window of one clock unit) are accepted in any half-open interval of length W, over any history on any other keys, sweeps included. |
| RateLimitWindow.SlidingBoundIsReached | internal/ratelimit/limiter.go:31-50 | For every limit and window some history reaches exactly that many, so the bound is exact. |
| RateLimitWindow.ReferenceBound | internal/ratelimit/limiter.go:102-112 | The facts about the current window behind the bound hold after every history. |
| RateLimit.Limiter.Allow | internal/ratelimit/limiter.go:31-50 | The method on its own fields takes the implementation step's state and answer. |
| RateLimit.Limiter.AllowPair | internal/ratelimit/limiter.go:55-93 | The same for pairs, through normalisation, equal keys and both capacity paths. |
| RateLimit.Limiter.CurrentEntry | internal/ratelimit/limiter.go:102-112 | Drops an expired entry and returns the budget to charge. |
| RateLimit.Limiter.EnsureCapacity | internal/ratelimit/limiter.go:114-120 | Answers and cleans up as the capacity section says. |
| RateLimit.Limiter.AfterConsume | internal/ratelimit/limiter.go:122-127 | Counts the call and sweeps on every 1024th. |
| RateLimit.Limiter.CleanupExpired | internal/ratelimit/limiter.go:129-135 | Deleting while iterating, in any order, leaves exactly the live entries. |
| ConnQueue.ControlFramesConserved | internal/ws/conn.go:80-162 | While the connection is open, each control frame was enqueued as often as it is queued, held by a rotating audio writer, held by the drainer, or written: with any number of writers none is lost or doubled. |
| ConnWriters.NothingStartedIsLost | internal/ws/conn.go:80-162 | In every run, while the connection is open: each frame a writer was ever called with waits with its writer or was accepted, as often as it was started; and a control frame waits with a writer still in its first or second select, or is queued, held by a rotating audio writer, held by the drainer, or written. |
| ConnWriters.WritersLeaveByEnqueueing | internal/ws/conn.go:80-140 | In every reachable state and step: a writer keeps its frame, or leaves with the frame at the tail of the queue, or leaves with the connection closed. |
| ConnWriters.ControlWriterSteps | internal/ws/conn.go:80-100 | A control writer can get its frame in whenever there is room; with none and the connection open it can only wait, or time out and close the connection. |
| ConnWriters.ClosedWritersLeave | internal/ws/conn.go:80-140 | On a closed connection every writer leaves by at most two steps of its own. |
| ConnWriters.ClosingReleasesWriters | internal/ws/conn.go:142-169 | So does every writer right after the connection is closed on it, or after a write has failed. |
| ConnWriters.DrainerLives | internal/ws/conn.go:142-162 | In every run the drainer has not exited while the connection is open. |
| ConnWriters.QueueIsWritten | internal/ws/conn.go:142-162 | From every reachable state with an open connection the drainer's own steps, with writes that succeed, write out the frame in its hand and the whole queue, in order. |
| ConnQueue.AudioWrittenInOrder | internal/ws/conn.go:106-162 | In every interleaving, closed or not, the audio written is an in-order subsequence of the audio accepted. |
| ConnQueue.DropsOldest | internal/ws/conn.go:118-132 | Every drop removes the oldest audio frame still queued. |
| ConnQueue.ControlWrittenInOrder | internal/ws/conn.go:80-162 | As long as no audio writer rotates a control frame, the control frames written are an in-order subsequence of those accepted. |
| ConnQueue.ControlOvertakes | internal/ws/conn.go:118-130 | For any two control frames there is a run, on an open connection and with no control frame lost, in which the second one accepted is written first. |
| ConnQueue.ControlOrderAlone | internal/ws/conn.go:106-140 | Run alone, `writeAudio` keeps the order of control frames iff it finds room, or those in front of the oldest audio and those behind it commute; if none occurs twice, iff it finds room, or an audio frame at the head, or no control frame behind the oldest audio. |
| ConnQueue.FullQueueByKind | internal/ws/conn.go:106-140 | Run alone on a full queue, `writeAudio` drops the oldest audio and appends its own, and moves the control frames in front of the oldest audio behind all others. |
| ConnQueue.QueueIsBounded | internal/ws/conn.go:80-140 | The queue never exceeds its depth. |
| ConnQueue.Conn.WriteAudio | internal/ws/conn.go:106-140 | Run alone, the retry loop terminates and leaves the frame at the tail; on a full queue `C ++ [a] ++ rest` it leaves `rest ++ C ++ [frame]`; on a closed connection it fails or still enqueues, changing nothing else. |
| ConnQueue.AudioEndsTheLoop | internal/ws/conn.go:107-139 | With room or queued audio the loop ends after one pass over the leading control frames, in the stated queue. |
| ConnQueue.OnlyAudioEndsTheLoop | internal/ws/conn.go:102-140 | The loop body, repeated on an open connection that nobody else touches, ends iff there is room or an audio frame is queued. |
| ConnQueue.LeavesAloneExactlyWithRoomOrAudio | internal/ws/conn.go:102-140 | On the step machine: in every reachable state with an open connection, a writer about to try can leave `writeAudio` while nobody else steps, neither another writer nor the drainer, iff the queue has room or holds audio. |
| ConnQueue.EndsAlone | internal/ws/conn.go:106-140 | With room or audio such a writer's own steps get its frame in and leave the queue that one undisturbed call leaves. |
| ConnQueue.SpinningRun | internal/ws/conn.go:106-140 | For any full queue of control frames and any n there is a run from the initial state, on an open connection, in which an audio writer has gone round it for n steps. |
| Forwarded.ForwardedIsHomomorphic | internal/ws/client_ip.go:70-109 | If the first lines leave no quote open, the chain of all lines is the concatenation of both chains, valid exactly when both are. |
| Forwarded.XForwardedForIsHomomorphic | internal/ws/client_ip.go:111-122 | The same without any condition for `X-Forwarded-For`. |
| Forwarded.SplitJoin | internal/ws/client_ip.go:190-228 | Two texts, the first with its quotes closed, joined by the separator split into the pieces of both, and fail exactly when one fails. |
| Forwarded.PiecesAreBalanced | internal/ws/client_ip.go:190-228 | Every piece of a successful split has its quotes closed and is not blank. |
| Forwarded.InnerSplitFailsOnBlanksOnly | internal/ws/client_ip.go:75-82 | Splitting an element at semicolons fails exactly when it has a blank piece, never because of quotes. |
| Forwarded.QuoteRoundTrip | internal/ws/client_ip.go:163-188 | Quoting then unquoting is the identity exactly on text without control characters, and fails on all other text. |
| Forwarded.ChainRoundTrip | internal/ws/client_ip.go:70-109 | Any chain of printable texts, written as quoted `for` elements, parses back to exactly the nodes of those texts. |
| Forwarded.ElementRoundTrip | internal/ws/client_ip.go:82-107 | One quoted `for` element parses to the node of its text. |
| ForwardedExact.ElementIsExact | internal/ws/client_ip.go:75-107 | An element parses to a hop iff it splits at semicolons, exactly one of its parameters is a `for`, whose value unquotes to the node of that hop, and all others have names. |
| ForwardedExact.EachIsExact | internal/ws/client_ip.go:70-109 | A list of elements parses to a chain iff they parse to its hops one by one. |
| ForwardedExact.XForwardedForIsExact | internal/ws/client_ip.go:111-122 | Any parts without commas, blank ones included, joined into one `X-Forwarded-For` line are parsed as nodes one by one. |
| ForwardedExact.PiecesAreExact | internal/ws/client_ip.go:190-228 | The pieces of a split, joined again, are the text, and none can be split further. |
| ForwardedExact.CommaSplitIsExact | internal/ws/client_ip.go:111-122 | The same for the plain split at commas: joined again the text, and no comma in any part. |
| ForwardedExact.UnquoteIsExact | internal/ws/client_ip.go:163-188 | A value unquotes to a text iff it is that text without quotes and backslashes, or the text, printable, between quotes with all quotes and backslashes, and any other characters, escaped. |
| ForwardedExact.TrimIsExact | internal/ws/client_ip.go:83-97 | Trimming takes off white space at both ends, leaves none there, and takes nothing else. |
| ForwardedExact.CutIsExact | internal/ws/client_ip.go:83-90 | A parameter is cut at its first equals sign, and not at all iff it has none. |
| ForwardedExact.ForInAnyCase | internal/ws/client_ip.go:91-93 | A parameter is a `for` iff its name is that word in any mix of cases. |
| ClientIp.SplitOutsideQuotes | internal/ws/client_ip.go:190-228 | The loop over two flags and a start index computes the quote-aware split. |
| ClientIp.UnquoteForwardedValue | internal/ws/client_ip.go:163-188 | The index loop computes the unquoted text, with the same failures. |
| ClientIp.ParseParam | internal/ws/client_ip.go:83-104 | One parameter: read past unless it is a `for`, which must be the first, unquote and be a node. |
| ClientIp.ParseElementParams | internal/ws/client_ip.go:82-105 | The parameter loop finds the single `for` and rejects missing, repeated, unnamed or unparsable ones. |
| ClientIp.ParseForwardedHeader | internal/ws/client_ip.go:70-109 | The element loop computes the chain, or fails as a whole. |
| ClientIp.ParseXForwardedForHeader | internal/ws/client_ip.go:111-122 | The same for `X-Forwarded-For`. |
| ClientIp.WalkHops | internal/ws/client_ip.go:37-45 | The right-to-left walk returns the chosen hop. |
| ClientIp.ChosenHop | internal/ws/client_ip.go:37-45 | The chosen hop is the untrusted one after which every hop is trusted. |
| ClientIp.PrefixKeepsChoice | internal/ws/client_ip.go:37-45 | Hops put in front never change the choice once the rest has an untrusted hop. |
| ClientIp.ClientIP | internal/ws/client_ip.go:16-46 | An unparsable or untrusted transport address is the identity whatever both headers say; a trusted one is when the chain (of `Forwarded` if any such line came, else of `X-Forwarded-For`) is absent, invalid or empty; otherwise it is the hop after which every hop is trusted, and the first when all are. |
| OpenQuotes.EarlierLinesCannotChooseTheClient | internal/ws/client_ip.go:10-46 | Let the `Forwarded` lines a trusted proxy appended parse, with an untrusted hop, and let some other untrusted address exist. No lines in front, well-formed or not, change the identity (beyond making the header invalid, when it is the proxy) iff the appended lines are `Guarded`: if they close a quote left open in front of them and what is left still parses, then what is left names the same client. |
| OpenQuotes.EarlierLineChoosesTheClient | internal/ws/client_ip.go:10-46 | Written out with two addresses, a header on which a line in front does change the identity: the appended line alone names its client, and behind the other line the header names another. |
| OpenQuotes.SpelledChooses | internal/ws/client_ip.go:10-46 | The same for any two texts without quotes, backslashes and separators that are nodes. |
| OpenQuotes.SimpleLinesAreGuarded | internal/ws/client_ip.go:190-228 | Appended lines that do not close a quote left open in front of them are guarded, and lines without a backslash are of that kind. |
| OpenQuotes.UnguardedLinesParse | internal/ws/client_ip.go:70-109 | Lines that close the quote and still parse can be preceded by a line such that the header parses to any given hop followed by what is left of them. |
| OpenQuotes.OpenTextIsParsed | internal/ws/client_ip.go:70-109 | The exact chain of a header whose first part leaves a quote open: the elements before, the element that spans both parts, the elements after. |
| ClientIp.EarlierXForwardedFor | internal/ws/client_ip.go:30-45 | When no `Forwarded` line reaches the server: whatever `X-Forwarded-For` lines precede those a trusted proxy appended (valid, with an untrusted hop), the identity is that of the appended lines alone, or the header is invalid and it is the proxy. |
| ClientLines.ClientLinesCannotChooseTheClient | internal/ws/client_ip.go:10-46 | Both headers together. Let the lines a trusted proxy appended to either name a client with an untrusted hop, and let some other untrusted address exist. No lines of the client, of either header, change the identity (beyond making the header invalid, when it is the proxy) iff the proxy takes the client's `Forwarded` lines out, or appends `Forwarded` lines itself and these are `Guarded`. |
| ClientLines.ForwardedLineChoosesTheClient | internal/ws/client_ip.go:30-34 | Written out, a request on which the proxy's `X-Forwarded-For` line names one client and a `Forwarded` line in front of it another. |
| ClientLines.ForwardedOverrides | internal/ws/client_ip.go:30-34 | A `Forwarded` line that gets through names the client, whatever `X-Forwarded-For` says. |
| Wire.AudioRoundTrip | internal/proto/audio_frame.go:42-82 | Unpacking a packed audio frame returns its fields for every payload up to 8192 bytes. |
| Wire.AudioRepack | internal/proto/audio_frame.go:42-82 | Repacking an accepted frame reproduces it exactly when its three reserved bytes are zero. |
| Wire.AudioAcceptance | internal/proto/audio_frame.go:64-82 | Acceptance is exactly: whole header, type byte, declared length in range and equal to what follows. |
| Wire.HelloRoundTrip | internal/proto/udp_frame.go:49-73 | Unpacking a packed hello returns peer and token. |
| Wire.HelloRepack | internal/proto/udp_frame.go:49-73 | Repacking an accepted hello reproduces it exactly when its reserved bytes are zero. |
| Wire.PingRoundTrip | internal/proto/udp_frame.go:96-118 | Unpacking a packed ping returns its peer. |
| Wire.Pack | internal/proto/audio_frame.go:42-59 | Writes into dst's storage when it is large enough and into fresh storage otherwise; every output byte is determined even when payload and dst overlap; with no payload byte under the header it is the frame layout; bytes outside the frame are untouched; an oversized payload is refused without effect. |
| Wire.Unpack | internal/proto/audio_frame.go:64-82 | Agrees with the layout's parser, and the payload it returns aliases the input. |
| Wire.PackHello | internal/proto/udp_frame.go:49-60 | Writes the hello layout into a reused or fresh buffer and nothing outside it. |
| Wire.PackPeerFrame | internal/proto/udp_frame.go:77-130 | The same for welcome, ping and pong, which differ in the type byte only. |

## Findings

Claims of the source that do not hold of its code, each with an input and the exact condition. The model follows the
code.

| claim | source | result |
|---|---|---|
| Client-supplied prefixes cannot override the address a trusted proxy appended. | internal/ws/client_ip.go:10-15, 30-34, 190-228 | Fails in two ways. `X-Forwarded-For` is passed over as soon as one `Forwarded` line arrives (input: `ClientLines.ForwardedLineChoosesTheClient`). And header lines are joined before quotes are looked at, so a line that leaves a quote open takes the beginning of the next line into its string (input: `OpenQuotes.EarlierLineChoosesTheClient`). Holds, over both headers, exactly for a proxy that takes the client's `Forwarded` lines out, or appends `Forwarded` lines that are `OpenQuotes.Guarded` (`ClientLines.ClientLinesCannotChooseTheClient`); lines without a backslash are (`OpenQuotes.SimpleLinesAreGuarded`). |
| A control frame at the head of a full queue is left there. | internal/ws/conn.go:115-117, 118-130 | It is moved to the tail, so control frames can overtake each other. Input: `ConnQueue.ControlOvertakes`. Order is kept exactly as `ConnQueue.ControlOrderAlone` says, and in every run without such a move (`ConnQueue.ControlWrittenInOrder`). |
| `writeAudio` never blocks. | internal/ws/conn.go:102-105 | On a full queue of control frames it goes round for as long as neither another writer nor the drainer steps (input: `ConnQueue.SpinningRun`). By its own steps it ends exactly when there is room or an audio frame is queued (`ConnQueue.LeavesAloneExactlyWithRoomOrAudio`). |
| Every frame's `Done` is called. | internal/room/room.go:33-35, 214-260 | `Forward` still accepts a frame after the forwarder has stopped, and that frame is never released (input: `FanOut.StoppedWithAFrame`). A frame can be released exactly when the forwarder has not stopped at its submission, or the queue was full (`FanOut.ReleasedUnlessStopped`). |

Two more things that hold only in order: the list a client assembles from deltas goes stale when two publications about
one room overtake each other (`RoomPublishing.StaleCount`; `RoomPublishing.SerialPublishingAgrees` and
`RoomPublishing.ClientAgreesExactly` say when it does not), and the limiter's answers differ from the reference's when clock
values enter the lock out of order (`RateLimitRefinement.ClockOrderMatters`).

## Left out

- RateLimitRefinement.LimiterRefinesReference: assumes calls enter the lock with non-decreasing clock values; the source reads the clock before taking the mutex (internal/ratelimit/limiter.go:35 and :59), so out-of-order readings are not covered, and the refinement fails on some (`RateLimitRefinement.ClockOrderMatters`).
- RateLimitWindow.SlidingBound: the same clock assumption; a key used with several limits or windows is not bounded.
- ConnQueue.Conn.WriteAudio: requires room, queued audio or a closed connection, without which the loop does not end (`ConnQueue.OnlyAudioEndsTheLoop`); other writers are covered by the step machine instead.
- RoomDeltas.DeltasReplayPublicList: operations run to completion with their publications; `RoomPublishing` lets them overlap. List entries carry name and sizes, not the password flag and creation time.
- RoomPublishing.SerialPublishingAgrees: the broker's fan-out of a delta to the connections of its subscribers is not modelled; each client hears all deltas in the order the listener was called.
- RoomObjects.Registry.Create: the announcement of a public room is in `RoomDeltas`, not in the method.
- RoomObjects.Room.Add: the snapshot of the other members holds their ids; name, role, mute flag and join time are copied fields.
- RoomObjects.Registry.Destroy: the wait for the forwarder to end (`close`) is in `FanOut` as closing and draining, not as a blocking call.
- UdpServer.Server.DetachPeer: a peer's `udpAddr` field is a map kept by the server class, so aliasing of peer objects is not captured; nor is clearing the peer's send callback.
- UdpServer.Server.OnAudio: the mute check, the current-room lookup and the hand-over to the forwarder after the lock are not in it; `FanOut` starts from the hand-over.
- UdpServer.Server.PrepareSend: a server without a socket, and write errors, are not modelled; both only send the frame over WebSocket instead.
- Handshake.Agreement: the token and peer the bridge expects are given; the JSON welcome that carries them and the rewriting of it are not modelled.
- Handshake.OneLocalSource: one proxy of one session, whose upstream socket is not the server's; a network that forges either address is excluded.
- LockOrder.NeverDeadlocked: the peer, UDP and limiter mutexes, held for a few assignments inside other sections, and the wait in `close` are not in it. A waiting writer shuts out all new readers, which is no kinder than Go's lock.
- Rooms without a registry, which only the source's own unit tests build.
- Endpoint comparison: `sameUDPAddr` and address strings are one equality on endpoints.
- Trimming is of ASCII white space; letter case outside ASCII and the parsing of IP addresses and ports are parameters.
- 64-bit generations, clocks and counters are unbounded integers.
- The maximum datagram size, socket buffers, and sockets as such: only datagrams sent and received.
- WebSocket upgrade, TLS, JSON messages, keepalive pings, flushing at shutdown, logging, metrics, configuration and signals.
- Password hashing and its semaphore, the connection counter, label and name validation, and the keys `allowPeer` builds: single-branch facts.
- The Windows listener reclaim, the install and update scripts, and the test clients.
