# Verified models of the online mod's state machines

Most of what can go wrong in this repository goes wrong late: a sequence number wraps, a ring overruns
between two frames, a handle outlives its slot, a rename fails after another one succeeded. Each module here
takes one such piece of state, says what the program may do to it, and proves what remains true after any
number of those steps, in any order; the last ones put two or three programs together and follow one message
or one player through them. An object that the source changes in place is a class whose methods are proved
against functions of its state, and the lemmas speak about those functions.

- `Serial`, `Ring`, `Sequences`, `Options`, `Characters`, `GamePointers`: 32-bit serial numbers, ring
  buffers and other values shared by the modules.
- `CommandQueue`, `CommandQueueRuns`: the bridge's drop-oldest command queue and what its history says of it.
- `ActorRegistry`, `CollisionIndex`, `CollisionSeqlock`: the generation-stamped actor table; the published
  index, once in place and once as a state machine of one writer's words and one reader's loads.
- `ActorList`, `OnlineWorldPolicy`, `OnlineWorldSanitizer`: validation of the game's doubly linked actor
  list, the sanitizer that removes stock actors from it, and when it runs.
- `RateLimiter`, `CoordinatorSession`: membership, rate limit, fan-out and snapshots of the coordinator.
- `NetworkAdapter`: the sidecar's peers and the command stream it writes.
- `ActorBackend`: the bridge's slot table, in step with registry and published index.
- `SidecarMembership`, `ActorStream`, `DrainedStates`: coordinator and sidecar put together, sidecar and
  bridge, command queue and slots.
- `MatrixQuaternion`: orientation matrices and quaternions, over the reals.
- `Bytes`, `XaiEditor`, `AnmEditor`: in-place edits of the native profile's chunk streams.
- `IniText`, `Endpoint`, `LauncherConfig`: the launcher's settings file.
- `StagingManifest`, `StagingCommit`: the staged runtime's manifest and its rename-based transaction.
- `PoseBuckets`, `PoseTrajectory`, `PoseClock`, `PoseTimeline`, `PoseTimelineClass`: remote playback;
  `PoseCases` has the runs on which it does not do what is expected of it.

`dafny verify dfyconfig.toml` checks the whole project.

Foreign code appears as parameters or as arbitrary answers: message validation is a Boolean argument or
field, time stamps are arguments, every file and pipe operation may fail at any call, and every call into
the game may answer anything, except that a kill without a fault unlinks exactly its node. The square root,
the exponential, `quat_slerp`, `quat_extrapolate` and `quat_angle_between` are function values with the
facts each lemma names. Floats are reals; sequence numbers, generations and seqlock versions wrap modulo
2^32 as in the source.

## Where the code and what is said about it differ

For each point the exact condition is proved under which the expectation holds, and a lemma reaches the failing
side.

- The `sequence` of an output is documented as the newest sample at or before the target. A target that
  falls exactly on a sample strictly inside the buffer reports the sample before it
  (`PoseTrajectory.SequenceIsNewestAt`; reached in `PoseCases.SequenceFallsBehind`).
- A second `Evaluate` at the same instant can change the orientation: a correction that fades away in the
  first one still normalises the curve's orientation there (`PoseTimeline.EvaluateTwice`; reached in
  `PoseCases.RepeatedFrameDiffers`).
- A steady playback error is not always worked off (`PoseClock.SteadyIdealReachedExactly`): frames too short
  for a whole microsecond of slewing never reduce it (`PoseClock.FineFramesNeverConverge`; with the default
  settings `PoseClock.DefaultFramesStall`).
- A first anchor of the playback clock that is held at once is undone, so the clock is monotone only
  between anchors (`PoseTimeline.PlaybackOfFrame`; reached in `PoseCases.AnchorUndone`).
- The clock offset is the minimum of the last 24 seconds exactly when a sample that attains that minimum has not
  been displaced; when all have been, it is the newest sample's. A bucket belongs to one second modulo 24, and a
  sample of another second with that residue takes it over, whichever is older (`PoseTimeline.OffsetOfRun`).
  Stamps come from the sidecar and are replaced when they are more than five seconds off
  (bridge/remote_actor_backend.cpp:1952-1965): they can go back, but not by a turn, and one ahead of the clock can
  displace samples that are more than 18 seconds old (`PoseTimeline.EstimatesOfStampedRun`; reached in
  `PoseCases.MinimumLost`).
- The command queue and the slots test sequence numbers one after the other, but with drop-oldest in between: a
  slot ignores a state of a drain exactly when the states dropped before it have moved the number on by half the
  number space, modulo the whole (`DrainedStates.DrainedStatesAreTaken`, `DrainedStates.ContinuesExactly`; reached in
  `DrainedStates.LeapIsIgnored`).
- A value of the settings file that ends in a space loses it (`LauncherConfig.SaveLoadRoundTrip`; reached by a
  display name in `LauncherConfig.TrailingSpaceIsLost`).
- A source path of more than 32 KiB, which reaches the program only where long paths are enabled, produces a
  manifest that the program's own parser refuses (`StagingManifest.ManifestRoundTrip`; reached in
  `StagingManifest.DeepSourceIsRefused`).
- Not every state that leaves the world is forwarded: ageing also marks a peer hidden
  (`NetworkAdapter.Adapter.Forward`; reached in `NetworkAdapter.AgedPeerLeavesUnseen`).
- A session admits up to 64 players, but a sidecar fails when it is told of an eighth remote one
  (`SidecarMembership.SidecarsFollow`; reached in `SidecarMembership.NinthMemberBreaksAll`).

The anm editor writes any type index but verifies only those of the catalog; an edited stream passes
verification exactly for the latter (`AnmEditor.EditThenVerify`). Its callers pass a catalog index
(apps/launcher/profile_editor.cpp:846-870).

## Model

| member | source | states |
|---|---|---|
| `Serial.NewerIsRfc1982` | bridge/remote_command_queue.cpp:27-31 | the half-range test on the wrapping difference is "s1 is greater than s2" of section 3.2 of RFC 1982 for 32 bits |
| `Serial.NewerDecidesUnwrapped` | bridge/remote_command_queue.cpp:27-31 | inside half the number space the wire test decides the order of the unwrapped numbers; at exactly half neither is newer |
| `Serial.UnwrapAdvances` | bridge/remote_command_queue.cpp:27-31 | a wire number passes the test exactly when it moves the unwrapped number forward by less than half the space, and it still reads as itself |
| `Serial.AscendingExtends` | bridge/remote_command_queue.cpp:106-109 | testing each number against the last accepted one keeps the whole unwrapped stream strictly increasing |
| `CommandQueue.RemoteCommandQueue.PushSpawn` | bridge/remote_command_queue.cpp:65-76 | the verdict (invalid, overflow, queued) and the new queue: one more control, the states of the player's other incarnations purged |
| `CommandQueue.RemoteCommandQueue.PushDespawn` | bridge/remote_command_queue.cpp:124-137 | as for a spawn, with all states of the player purged |
| `CommandQueue.RemoteCommandQueue.PushState` | bridge/remote_command_queue.cpp:89-122 | the verdict and the new queue for every state: own fifo or first free one, the sequence test, drop-oldest at eight |
| `CommandQueue.RemoteCommandQueue.StoreInSlot` | bridge/remote_command_queue.cpp:110-121 | a full ring drops its oldest entry and counts it; the new entry is last |
| `CommandQueue.RemoteCommandQueue.TryDrain` | bridge/remote_command_queue.cpp:139-156 | the batch holds the controls and all buffered states in fifo order and the rings are empty afterwards, their sequence horizon kept; or the lock is held elsewhere, the answer is false and nothing changed |
| `CommandQueue.RemoteCommandQueue.Clear` | bridge/remote_command_queue.cpp:158-163 | the queue is as new |
| `CommandQueue.RemoteCommandQueue.RemoveStatesForPlayer` | bridge/remote_command_queue.cpp:165-174 | exactly the fifos of the player, but for the excepted incarnation, are blank afterwards; the others are untouched |
| `CommandQueue.RemoteCommandQueue.FindFifo` | bridge/remote_command_queue.cpp:78-87 | the first fifo of a player and incarnation, or none |
| `CommandQueueRuns.RunKeepsInv` | bridge/remote_command_queue.cpp:65-174 | after every run no two fifos share a player and incarnation, and the capacities hold |
| `CommandQueueRuns.FifoRefinesHistory` | bridge/remote_command_queue.cpp:89-122 | after every run a ring holds exactly the newest eight states accepted since the last drain and purge, and its horizon is the last accepted sequence number of the epoch |
| `CommandQueueRuns.StateResultFromHistory` | bridge/remote_command_queue.cpp:89-122 | the verdict on a pushed state computed from the run's history alone; overflow only when seven other keys own a fifo |
| `CommandQueueRuns.EpochIncreases` | bridge/remote_command_queue.cpp:106-120 | between purges the accepted states of a key strictly increase in unwrapped sequence number |
| `CommandQueueRuns.ControlsRefineHistory` | bridge/remote_command_queue.cpp:65-76 | the buffered controls are those accepted since the last drain or clear, in order |
| `CommandQueueRuns.DrainEmitsPending` | bridge/remote_command_queue.cpp:139-156 | a drain emits every accepted control once and in order and, per key, the newest eight states accepted since the last drain and the last despawn; at most 56 states |
| `CommandQueueRuns.StatesAreConserved` | bridge/remote_command_queue.cpp:89-174 | for every state, times accepted = drained + dropped + purged + still buffered, after every run |
| `ActorRegistry.RemoteActorRegistry.Insert` | bridge/remote_actor_registry.cpp:24-47 | the verdict, the new table and the returned binding with its generation |
| `ActorRegistry.RemoteActorRegistry.Erase` | bridge/remote_actor_registry.cpp:49-69 | the verdict and the compacted table |
| `ActorRegistry.ShiftDown` | bridge/remote_actor_registry.cpp:62-65 | the in-place compaction removes one cell and keeps the order of the others |
| `ActorRegistry.RemoteActorRegistry.NextGeneration` | bridge/remote_actor_registry.cpp:103-108 | the counter never issues or rests at zero and wraps from the largest value to one |
| `ActorRegistry.RemoteActorRegistry.Find` | bridge/remote_actor_registry.cpp:71-79 | finds a binding of the key exactly when there is one |
| `ActorRegistry.RemoteActorRegistry.Clear` | bridge/remote_actor_registry.cpp:98-101 | the table is empty, the generation counter goes on |
| `ActorRegistry.InsertKeepsInv` | bridge/remote_actor_registry.cpp:29-46 | no two bindings ever share the player or any of four game identities; insertion succeeds exactly when valid, not full and without conflict |
| `ActorRegistry.EraseKeepsInv` | bridge/remote_actor_registry.cpp:54-67 | erasing keeps that invariant |
| `ActorRegistry.EraseIsExact` | bridge/remote_actor_registry.cpp:49-69 | an erase is answered removed exactly when a binding has that key and generation, and removes exactly it |
| `ActorRegistry.GenerationsFollowTickets` | bridge/remote_actor_registry.cpp:43-46 | over every run each binding carries the generation issued by its own insertion, and that is the player's last insertion |
| `ActorRegistry.GenerationsRepeatOnlyAfterFullCycle` | bridge/remote_actor_registry.cpp:103-108 | two insertions get the same generation only 2^32-1 insertions apart |
| `ActorRegistry.StaleHandleRemovesNothing` | bridge/remote_actor_registry.cpp:54-61 | a handle can remove only the binding of its own insertion, unless a full cycle of generations has passed |
| `CollisionIndex.RemoteCollisionIndex.Publish` | bridge/remote_actor_registry.cpp:110-119 | the words are the table's moving items, zero-padded, and the sequence moves on by two |
| `CollisionIndex.RemoteCollisionIndex.PairTouchesRemote` | bridge/remote_actor_registry.cpp:135-151 | undisturbed, the answer is membership of either non-zero item; during a publication it is false |
| `CollisionIndex.RemoteCollisionIndex.Contains` | bridge/remote_actor_registry.cpp:125-128 | undisturbed, the answer is membership of a non-zero item |
| `CollisionSeqlock.RunKeeps` | bridge/remote_actor_registry.cpp:110-151 | in every interleaving the words are the latest table overwritten from the left, and a reader whose version has not moved has matched exactly that table's prefix |
| `CollisionSeqlock.StableAnswerIsOneTable` | bridge/remote_actor_registry.cpp:139-148 | in every interleaving with fewer than 2^31 publications in one attempt, an answer from the stable path is the membership answer on one single published table, and true comes only from there |
| `CollisionSeqlock.StableAnswerIsCurrent` | bridge/remote_actor_registry.cpp:147-148 | that table is the latest one published when the answer is given |
| `CollisionSeqlock.QuietReadIsExact` | bridge/remote_actor_registry.cpp:135-151 | a read while the writer rests answers in its first attempt, exactly |
| `CollisionSeqlock.FullWrapBreaksTheCheck` | bridge/remote_actor_registry.cpp:139-148 | the bound is needed: with 2^31 publications inside one attempt the check passes on a mixture of tables |
| `ActorList.BacklinksExcludeCycles` | bridge/online_world_policy.cpp:79-104 | the nodes that passed the backlink test are pairwise distinct |
| `ActorList.ChainFitsHeap` | bridge/online_world_policy.cpp:79-104 | so a walk is no longer than the node table, whatever the caller's maximum |
| `ActorList.ChainIsPrefix` | bridge/online_world_policy.cpp:79-104 | a walk that stops short is a proper prefix of any complete list, so stopping proves there is none |
| `OnlineWorldPolicy.FindNode` | bridge/online_world_policy.cpp:81-84 | the search finds the first view of an id, or none when there is none |
| `OnlineWorldPolicy.CheckNode` | bridge/online_world_policy.cpp:85-101 | one node passes exactly the link, self, type and ownership tests |
| `OnlineWorldPolicy.ValidateOnlineActorList` | bridge/online_world_policy.cpp:61-106 | accepts exactly the well-formed doubly linked lists from first to last of at most maximum nodes with one local node, and the summary counts every node once; it terminates without the maximum |
| `OnlineWorldPolicy.OnlineWorldLifecycle.ObserveWorldReady` | bridge/online_world_policy.cpp:37-48 | the new lifecycle state, the generation advancing only on the edge to ready |
| `OnlineWorldPolicy.OnlineWorldLifecycle.NotifyRegistryReset` | bridge/online_world_policy.cpp:50-53 | the world is unready and armed again |
| `OnlineWorldPolicy.OnlineWorldLifecycle.BeginSanitization` | bridge/online_world_policy.cpp:55-59 | begins exactly when ready and armed, and disarms |
| `OnlineWorldPolicy.EachWorldSanitizedOnce` | bridge/online_world_policy.cpp:37-59 | over every run of events each ready world is sanitized at most once and stays armed exactly until then |
| `OnlineWorldSanitizer.ActorWorld.ScanRegistry` | bridge/online_world.cpp:415-477 | succeeds exactly when memory holds a well-formed circular list within the bound, and reports its three counts and its first stock node with its type |
| `OnlineWorldSanitizer.ActorWorld.CheckNode` | bridge/online_world.cpp:438-460 | one node passes exactly the pointer, backlink, self, type and ownership tests |
| `OnlineWorldSanitizer.ActorWorld.KillPlayer` | bridge/online_world.cpp:479-488 | the assumption on the game: a kill without a fault unlinks exactly its node, a fault changes nothing |
| `OnlineWorldSanitizer.UnlinkKeepsCircular` | bridge/online_world.cpp:490-505 | unlinking a node of a well-formed list leaves the list without that node, well-formed |
| `OnlineWorldSanitizer.FirstStockOut` | bridge/online_world.cpp:498-502 | taking out the first stock node removes the front of the stock nodes and nothing of the others |
| `OnlineWorldSanitizer.TallyCounts` | bridge/online_world.cpp:454-466 | the stock count is the number of stock nodes, and the local count does not depend on them |
| `OnlineWorldSanitizer.AtMostOneList` | bridge/online_world.cpp:434-469 | memory holds at most one list that passes the scan |
| `OnlineWorldSanitizer.ActorWorld.KillFirstStock` | bridge/online_world.cpp:492-502 | one round kills exactly the first stock node and keeps the others in order |
| `OnlineWorldSanitizer.ActorWorld.SanitizeRegistry` | bridge/online_world.cpp:490-509 | returns true, within the bound, exactly when the list passes the scan and no kill faults; it kills exactly the stock nodes, in order, never a local or remote-owned one, and the others stay in order |
| `RateLimiter.PopExpired` | apps/coordinator/session.cpp:117-121 | the popping loop drops exactly the leading entries at least 1000 ms old |
| `RateLimiter.OfferKeepsLimit` | apps/coordinator/session.cpp:117-130 | the queue stays a suffix of the acceptance history, any maximum+1 consecutive acceptances span 1000 ms, and a state passes exactly when fewer than maximum were accepted in the last second |
| `RateLimiter.RateIsLimited` | apps/coordinator/session.cpp:117-130 | so for every run under a nondecreasing clock |
| `CoordinatorSession.Session.constructor` | apps/coordinator/session.cpp:21-30 | a setting out of range is moved to the nearest bound, every other one taken over; no members, the first player id is 1, no epoch and no snapshot due yet |
| `CoordinatorSession.Session.Accept` | apps/coordinator/session.cpp:32-80 | refusals in the source's order change nothing and only answer the caller; an admission stores the peer, greets it with the welcome and then with every member once, tells every member of it once and nobody else anything, and keeps all rosters in agreement |
| `CoordinatorSession.OneMoreEvent` | apps/coordinator/session.cpp:32-208 | a call that is one more event of a possible history leads to the state the history describes; every method keeps its object's history so |
| `CoordinatorSession.Session.Admit` | apps/coordinator/session.cpp:59-79 | the admission itself |
| `CoordinatorSession.Introduce` | apps/coordinator/session.cpp:61-74 | the loop of introductions, whatever the order of the peers: the newcomer reads its welcome and then of each member, each member of the newcomer, nobody else anything |
| `CoordinatorSession.Session.Rejected` | apps/coordinator/session.cpp:222-231 | a refusal is one disconnect to the caller |
| `CoordinatorSession.Session.Receive` | apps/coordinator/session.cpp:82-146 | the full answer to every message: ping, disconnect, spoofed or invalid state, throttled, stale, or recorded and routed exactly once to every other member |
| `CoordinatorSession.Session.ReceiveState` | apps/coordinator/session.cpp:117-146 | rate limit, staleness and fan-out of a genuine state |
| `CoordinatorSession.Session.DisconnectPeer` | apps/coordinator/session.cpp:148-163 | exactly the leaver goes; every remaining member is told once and all rosters still agree |
| `CoordinatorSession.Session.CollectFresh` | apps/coordinator/session.cpp:179-189 | the snapshot is exactly the latest states that are not stale, sorted by player |
| `CoordinatorSession.Session.Tick` | apps/coordinator/session.cpp:165-208 | a due tick sends every member the same chunks in order; together they are all fresh states sorted by player; an early tick sends nothing |
| `CoordinatorSession.SendChunks` | apps/coordinator/session.cpp:191-206 | every member gets every chunk exactly once and in order |
| `CoordinatorSession.ChunksCoverSnapshot` | apps/coordinator/session.cpp:195-206 | the chunks join to the snapshot, fit the packet limit, and there is exactly one for an empty room |
| `CoordinatorSession.IntroductionsTeach` | apps/coordinator/session.cpp:69-73 | introductions, one after the other, teach exactly the members they name |
| `CoordinatorSession.NewcomerKeepsRosters` | apps/coordinator/session.cpp:61-74 | replaying PeerJoined and PeerLeft since its welcome still gives each member exactly the others after an admission |
| `CoordinatorSession.LeaverKeepsRosters` | apps/coordinator/session.cpp:153-161 | and after a departure |
| `CoordinatorSession.NeutralKeepsRosters` | apps/coordinator/session.cpp:91-146 | and no other traffic changes a roster |
| `CoordinatorSession.AdmissionKeepsMembership` | apps/coordinator/session.cpp:48-77 | player ids and names stay unique, ids are never reused and the session never exceeds max_players |
| `CoordinatorSession.LeavingKeepsMembership` | apps/coordinator/session.cpp:148-154 | departures keep that too |
| `CoordinatorSession.MemberIsOrdered` | apps/coordinator/session.cpp:117-135 | for every sequence of states a member sends, the accepted ones strictly increase in unwrapped sequence number and the deque is a suffix of their times |
| `CoordinatorSession.MemberIsLimited` | apps/coordinator/session.cpp:117-135 | and under a nondecreasing clock any max+1 consecutive ones span at least 1000 ms |
| `CoordinatorSession.ForwardsExactly` | apps/coordinator/session.cpp:117-128 | a state is forwarded exactly when it is novel and fewer than max were accepted in the last second |
| `NetworkAdapter.StreamsAreInLanguage` | apps/client/network_adapter.cpp:361-601 | while roster and pipe are in step, every player's stream is at every moment a prefix of (Spawn Sample* Despawn)* with increasing samples of one incarnation, and at most seven are open |
| `NetworkAdapter.NarrowNext` | apps/client/network_adapter.cpp:697-741 | with each command written, the players whose actor is open stay at most seven, so at every moment of the stream |
| `NetworkAdapter.OpenedAreOpen` | apps/client/network_adapter.cpp:697-741 | those are exactly the players whose part of the stream is open |
| `NetworkAdapter.BrokenStaysBroken` | apps/client/network_adapter.cpp:697-741 | a stream that left the language never returns to it, so its state at the end speaks for all prefixes |
| `NetworkAdapter.CommandKeeps` | apps/client/network_adapter.cpp:697-741 | a command written together with its change of the peer record keeps all streams in step |
| `NetworkAdapter.JoinKeeps` | apps/client/network_adapter.cpp:495-518 | so does storing a join once the old incarnation is despawned |
| `NetworkAdapter.NoteKeeps` | apps/client/network_adapter.cpp:585-589 | and noting a new state |
| `NetworkAdapter.RemovalKeeps` | apps/client/network_adapter.cpp:533-540 | and removing a despawned peer |
| `NetworkAdapter.TornNext` | apps/client/network_adapter.cpp:372-376 | tearing down one more actor of the roster keeps the others in step |
| `NetworkAdapter.AgingNext` | apps/client/network_adapter.cpp:748-761 | ageing one more peer keeps the others in step |
| `NetworkAdapter.Adapter.EmitSpawn` | apps/client/network_adapter.cpp:697-714 | writes one spawn and marks the peer, or leaves both alone when the pipe fails or commands are off |
| `NetworkAdapter.Adapter.EmitSample` | apps/client/network_adapter.cpp:716-730 | writes one sample carrying the accepted state |
| `NetworkAdapter.Adapter.EmitDespawn` | apps/client/network_adapter.cpp:732-741 | writes one despawn and unmarks the peer, or changes nothing |
| `NetworkAdapter.Adapter.HandleJoined` | apps/client/network_adapter.cpp:462-526 | takes a join exactly under the source's checks, despawning another incarnation first; a refusal changes nothing |
| `NetworkAdapter.Adapter.StoreJoin` | apps/client/network_adapter.cpp:507-519 | the record after a join; a new incarnation forgets the old state |
| `NetworkAdapter.Adapter.HandleLeft` | apps/client/network_adapter.cpp:527-542 | removes exactly the peer with that incarnation, despawned if it was spawned |
| `NetworkAdapter.Adapter.NoteState` | apps/client/network_adapter.cpp:585-589 | the record after a new state, its unwrapped position moving forward |
| `NetworkAdapter.Adapter.Forward` | apps/client/network_adapter.cpp:591-600 | the commands of a state: spawn and sample in the world, one last sample when it leaves it |
| `NetworkAdapter.AgedPeerLeavesUnseen` | apps/client/network_adapter.cpp:591-600 | for every join, state and exit: after three to five silent seconds the exit is taken but writes nothing, before that it writes its sample |
| `NetworkAdapter.Adapter.AcceptState` | apps/client/network_adapter.cpp:544-602 | refuses, ignores or takes a state exactly as the checks say, and what is written when the pipe fails midway is a prefix |
| `NetworkAdapter.Adapter.HandleConnected` | apps/client/network_adapter.cpp:364-377 | a welcome despawns every open actor, closes all streams and empties the roster |
| `NetworkAdapter.Adapter.AgePeer` | apps/client/network_adapter.cpp:748-761 | one peer is despawned after five silent seconds and hidden earlier |
| `NetworkAdapter.Adapter.UpdateLiveness` | apps/client/network_adapter.cpp:743-763 | so for all peers, whatever the order; every actor that stays was heard of within five seconds |
| `NetworkAdapter.Adapter.Stop` | apps/client/network_adapter.cpp:765-779 | the roster is empty and, if no write failed, every stream is closed |
| `NetworkAdapter.Adapter.EnterSafeMode` | apps/client/network_adapter.cpp:409-443 | at most the safe-mode command is added |
| `ActorBackend.EraseIsRemoved` | bridge/remote_actor_backend.cpp:714-727 | with slots and registry in step the ignored result of Erase is always removed, and they stay in step |
| `ActorBackend.AttachKeeps` | bridge/remote_actor_backend.cpp:1060-1070 | inserting the binding of a slot that had none keeps them in step |
| `ActorBackend.VacantKeeps` | bridge/remote_actor_backend.cpp:1112-1126 | changing a slot without a vehicle keeps them in step |
| `ActorBackend.InsertRefusals` | bridge/remote_actor_backend.cpp:1062-1067 | an attach is never refused for a duplicate player or a full registry |
| `ActorBackend.FewBindings` | bridge/remote_actor_backend.cpp:1054-1063 | because a slot without a vehicle leaves room in the registry |
| `ActorBackend.IndexIsMovingItems` | bridge/remote_actor_backend.cpp:601 | the published index holds exactly the moving items of the slots with a vehicle |
| `ActorBackend.ControlRefinesRoster` | bridge/remote_actor_backend.cpp:1105-1136 | a spawn or despawn makes the slot table hold exactly the described roster of at most seven players, one slot each |
| `ActorBackend.ControlsRefineRoster` | bridge/remote_actor_backend.cpp:1105-1136 | and so over whole batches, none of which overflows |
| `ActorBackend.Backend.PublishHookIndices` | bridge/remote_actor_backend.cpp:569-602 | the player ids in slot order, zero-padded, and the index of the registry's table are published |
| `ActorBackend.Backend.EraseBinding` | bridge/remote_actor_backend.cpp:714-727 | exactly one slot loses its vehicle, and its binding goes |
| `ActorBackend.Backend.DestroyGameActor` | bridge/remote_actor_backend.cpp:729-747 | exactly one slot loses its actor; indices are published before and after; safe mode is asked for exactly when the game was asked to kill and failed |
| `ActorBackend.Backend.PurgeAllGameActors` | bridge/remote_actor_backend.cpp:749-754 | every slot loses its actor and the registry and indices are empty; safe mode is asked for exactly when a kill failed |
| `ActorBackend.Backend.CreateActor` | bridge/remote_actor_backend.cpp:775-831 | whatever the game answers, everything stays in step and a created actor has plausible ids |
| `ActorBackend.Backend.AttachVehicleIfReady` | bridge/remote_actor_backend.cpp:1050-1072 | by the game's answer: nothing changes without a confirmed candidate; a refused insertion asks for safe mode and changes nothing else; otherwise exactly the candidate is bound, with the registry's next generation |
| `ActorBackend.Backend.RecoverCandidate` | bridge/remote_actor_backend.cpp:1074-1098 | only the candidate can change |
| `ActorBackend.Backend.VehicleConstructed` | bridge/remote_actor_backend.cpp:1273-1289 | for a published player the vehicle becomes the candidate of its first slot, or safe mode is asked for on another thread; otherwise nothing changes; what is published stays current |
| `ActorBackend.Backend.ApplySpawn` | bridge/remote_actor_backend.cpp:1107-1126 | a spawn evicts the player's other incarnation and takes a free slot; safe mode is asked for exactly when there is none or the eviction's kill failed |
| `ActorBackend.Backend.ApplyDespawn` | bridge/remote_actor_backend.cpp:1127-1135 | a despawn frees exactly the slot of that player and incarnation; safe mode is asked for exactly when its kill failed |
| `ActorBackend.Backend.ApplyState` | bridge/remote_actor_backend.cpp:1137-1160 | a newer state of the slot's own incarnation and appearance is stored; another appearance asks for safe mode |
| `ActorBackend.Backend.ApplyBatch` | bridge/remote_actor_backend.cpp:1100-1161 | a batch is its controls, then its states, in order; it asks for safe mode exactly when a kill failed, a spawn found no slot or a state had another appearance |
| `ActorBackend.Backend.EnterSafeMode` | bridge/remote_actor_backend.cpp:1163-1169 | all slots are free, registry and indices empty |
| `ActorBackend.Backend.DropStranger` | bridge/remote_actor_backend.cpp:2004-2012 | an actor the game no longer lists is forgotten without a kill |
| `ActorBackend.Backend.TickSlot` | bridge/remote_actor_backend.cpp:1998-2042 | one slot's tick keeps everything in step and who is seated; an unready world destroys its actor |
| `ActorBackend.Backend.Tick` | bridge/remote_actor_backend.cpp:1975-2045 | after every tick, whatever the game answers, one slot per player, bindings exactly the slots with a vehicle, the published index current, and the seats those of the batch |
| `SidecarMembership.SidecarsFollow` | apps/coordinator/session.cpp:32-208 | over every run of a session, whatever its members send: a member's sidecar refuses nothing it is told and knows exactly the other members, precisely as long as at most eight have been members at once since it joined; after that it has failed |
| `SidecarMembership.SessionIsFollowed` | apps/coordinator/session.cpp:32-208 | so for the session object itself, whatever its methods were called with so far |
| `SidecarMembership.NinthMemberBreaksAll` | apps/coordinator/session.cpp:48-77 | the failing side is reached: with max_players above eight, nine members can join one after the other, and then every sidecar has failed |
| `SidecarMembership.TrafficIsHarmless` | apps/coordinator/session.cpp:91-208 | no state, snapshot or answer makes a sidecar fail |
| `SidecarMembership.EventKeepsSound` | apps/coordinator/session.cpp:59-154 | every recorded state is genuine for its member, and players and names differ, after every event |
| `SidecarMembership.IntroductionsAreFollowed` | apps/client/network_adapter.cpp:462-526 | a newcomer gets through the introductions exactly when they are at most seven |
| `SidecarMembership.JoinIsFollowed` | apps/client/network_adapter.cpp:475-519 | a member not yet known is taken exactly while fewer than seven are |
| `SidecarMembership.LeavingIsFollowed` | apps/client/network_adapter.cpp:527-542 | a leaver disappears from the sidecar's roster and nobody else does |
| `SidecarMembership.GenuineIsTaken` | apps/client/network_adapter.cpp:544-584 | a genuine state of any member, the own one included, is never refused |
| `ActorStream.BridgeSeatsSpawnedPeers` | bridge/remote_actor_backend.cpp:1100-1136 | whenever sidecar and stream are in step, a bridge that has applied the stream's spawns and despawns seats exactly the peers the sidecar holds spawned, each with its incarnation, and no spawn ever found every slot taken |
| `ActorStream.StreamFits` | bridge/remote_actor_backend.cpp:1100-1136 | what a sidecar writes never describes more than seven players, at any moment |
| `ActorStream.DespawnNamesSeated` | bridge/remote_actor_backend.cpp:1127-1135 | every despawn a sidecar writes names the incarnation that the bridge seats for the player |
| `ActorStream.RosterReads` | bridge/remote_actor_backend.cpp:1105-1136 | the roster read off a stream of the command language is its open players with their incarnations |
| `MatrixQuaternion.Scale` | src/game/observer.cpp:26-47 | no branch divides by less than two, for any real matrix |
| `MatrixQuaternion.NormAtLeastPivot` | src/game/observer.cpp:24-56 | the pivot component is at least one half before normalising |
| `MatrixQuaternion.ResultIsUnit` | src/game/observer.cpp:22-74 | for every real matrix the result is a unit quaternion with w >= 0, and the fallback is unreachable |
| `MatrixQuaternion.Cofactors` | src/game/observer.cpp:22-52 | a proper rotation equals its own cofactors |
| `MatrixQuaternion.RotationRoundTrip` | src/game/observer.cpp:22-74 | for every proper rotation the raw quaternion already has norm one, and its expansion gives the matrix back |
| `MatrixQuaternion.BasisIsRotation` | include/ht2mp/protocol/pose_math.hpp:196-206 | the expansion of a unit quaternion is a proper rotation |
| `MatrixQuaternion.QuaternionRoundTrip` | include/ht2mp/protocol/pose_math.hpp:185-207 | the quaternion of the matrix of a unit quaternion is that quaternion or its negation |
| `Bytes.StoreU32` | apps/launcher/profile_editor.cpp:195-201 | exactly four bytes change |
| `Bytes.PutLoads` | apps/launcher/profile_editor.cpp:187-201 | what is stored is what is loaded back |
| `Bytes.StoreU64` | apps/launcher/profile_editor.cpp:209-213 | exactly eight bytes change |
| `Bytes.PutPattern` | apps/launcher/profile_editor.cpp:203-213 | what is stored is what is loaded back |
| `XaiEditor.ChunkAt` | apps/launcher/profile_editor.cpp:222-235 | an accepted chunk lies inside its enclosing range |
| `XaiEditor.AlignUp` | apps/launcher/profile_editor.cpp:237-243 | the next multiple of four |
| `XaiEditor.SkipU32Vector` | apps/launcher/profile_editor.cpp:279-287 | accepts exactly the vectors that fit and moves behind them |
| `XaiEditor.FindThreshold` | apps/launcher/profile_editor.cpp:294-316 | finds the threshold behind the two vectors exactly when the tail has its fixed size |
| `XaiEditor.EditCampaignResultLatch` | apps/launcher/profile_editor.cpp:289-332 | passes exactly on a known threshold (the acknowledged one when verifying) and, writing, changes exactly its eight bytes |
| `XaiEditor.FindContainers` | apps/launcher/profile_editor.cpp:349-387 | accepts exactly streams with one PLRS and one GLBL container |
| `XaiEditor.EditLocalPlayer` | apps/launcher/profile_editor.cpp:409-445 | passes exactly on a well-formed vehicle record and, writing, changes exactly its two selectors |
| `XaiEditor.EditEntry` | apps/launcher/profile_editor.cpp:398-445 | one PLRS entry: passes, edits and reports the object id as its parse says |
| `XaiEditor.EditPlayers` | apps/launcher/profile_editor.cpp:394-455 | passes exactly with one local player; the in-place edits of the loop never change what it still has to read |
| `XaiEditor.EditNativeVehicle` | apps/launcher/profile_editor.cpp:334-456 | the in-place editor succeeds exactly on streams that parse (and carry the edits when verifying), and its result is the edit of the parsed layout |
| `XaiEditor.TopDisjoint` | apps/launcher/profile_editor.cpp:362-383 | the containers of players and of globals never overlap |
| `XaiEditor.TopFrame` | apps/launcher/profile_editor.cpp:362-383 | the walk over the containers reads nothing inside them |
| `XaiEditor.PlayersFrame` | apps/launcher/profile_editor.cpp:395-451 | the walk over the players reads nothing outside its container |
| `XaiEditor.PlayersSelected` | apps/launcher/profile_editor.cpp:395-455 | selecting another model for the only local player leaves it the only one |
| `XaiEditor.EditedBytes` | apps/launcher/profile_editor.cpp:323-441 | only the eight threshold bytes and the eight selector bytes can differ, and they hold the new values |
| `XaiEditor.EditThenVerify` | apps/launcher/profile_editor.cpp:334-456 | an edited stream parses to the same layout, passes verification with the same object id, and editing it again changes nothing |
| `AnmEditor.SlotsBounds` | apps/launcher/profile_editor.cpp:514-567 | slots are numbered upwards, so at most one of a page holds the target |
| `AnmEditor.PagesBounds` | apps/launcher/profile_editor.cpp:507-582 | matching_objects never exceeds one over the whole stream |
| `AnmEditor.PagesFrame` | apps/launcher/profile_editor.cpp:507-574 | the walk reads only what it has passed |
| `AnmEditor.SlotSelected` | apps/launcher/profile_editor.cpp:543-565 | another type stored over the record keeps it a record exactly when the catalog has that type |
| `AnmEditor.EditSlot` | apps/launcher/profile_editor.cpp:515-566 | one slot: passes and edits as its parse says |
| `AnmEditor.EditSlots` | apps/launcher/profile_editor.cpp:514-567 | the loop over the slots |
| `AnmEditor.EditPage` | apps/launcher/profile_editor.cpp:508-573 | one page with its terminator |
| `AnmEditor.EditPages` | apps/launcher/profile_editor.cpp:507-574 | the loop over the pages |
| `AnmEditor.EditNativeAnmVehicle` | apps/launcher/profile_editor.cpp:482-583 | the in-place editor succeeds exactly on streams that parse with one matching record (and carry the type when verifying), and changes exactly its four bytes |
| `AnmEditor.EditThenVerify` | apps/launcher/profile_editor.cpp:543-583 | an edited stream passes verification, with the same record, exactly when the type index is in the catalog; a second edit changes nothing |
| `IniText.EncodeText` | apps/launcher/config.cpp:29-42 | the loop computes the escaping |
| `IniText.DecodeText` | apps/launcher/config.cpp:51-66 | the loop computes the inverse or fails |
| `IniText.DecodeEncode` | apps/launcher/config.cpp:29-66 | decoding an encoded byte string gives it back, whatever its bytes |
| `IniText.TrimEncoded` | apps/launcher/config.cpp:68-73 | trimming a line that ends in an encoded value trims exactly the value's trailing spaces |
| `IniText.ParseDecimal` | apps/launcher/config.cpp:264-265 | every printed 32-bit number is read back |
| `Endpoint.CheckIpv4` | apps/launcher/config.cpp:75-94 | the loop accepts exactly the valid addresses |
| `Endpoint.CheckDnsName` | apps/launcher/config.cpp:96-113 | the loop accepts exactly the valid names |
| `Endpoint.Ipv4Form` | apps/launcher/config.cpp:75-94 | an address is exactly four octets a.b.c.d joined by dots |
| `Endpoint.DnsForm` | apps/launcher/config.cpp:96-113 | a name is exactly one or more labels joined by dots |
| `Endpoint.NormalizeEndpoint` | apps/launcher/config.cpp:157-193 | computes the normal form or fails |
| `Endpoint.Canonical` | apps/launcher/config.cpp:157-193 | a valid host and port written out are their own normal form |
| `Endpoint.NormalizeIdempotent` | apps/launcher/config.cpp:157-193 | normalising is idempotent, and a result is a valid host, a colon and a port in range |
| `LauncherConfig.UpsertAllKeeps` | apps/launcher/config.cpp:342-352 | saved servers come back as they are exactly when their endpoints are distinct, otherwise there are fewer |
| `LauncherConfig.ConfigReader.FinishServer` | apps/launcher/config.cpp:209-223 | the pending server is normalised and taken over, or loading fails |
| `LauncherConfig.ConfigReader.AssignValue` | apps/launcher/config.cpp:249-275 | one key takes effect as its section says |
| `LauncherConfig.ConfigReader.ReadLine` | apps/launcher/config.cpp:227-276 | one line takes effect |
| `LauncherConfig.LoadConfig` | apps/launcher/config.cpp:195-283 | loading is the effect of all lines, then the identity check |
| `LauncherConfig.NormalizeServers` | apps/launcher/config.cpp:293-303 | all servers normalised, or the save fails |
| `LauncherConfig.ServersOutput` | apps/launcher/config.cpp:321-325 | the loop writes the sections of all servers |
| `LauncherConfig.SaveConfig` | apps/launcher/config.cpp:285-325 | the text that is saved, or a refusal |
| `LauncherConfig.EndpointsHaveNormalForms` | apps/launcher/config.cpp:157-193 | the endpoint normaliser has all the round trip needs |
| `LauncherConfig.LineContentRecognizes` | apps/launcher/config.cpp:227-248 | every line that saving writes is read back as the key, value or header it was |
| `LauncherConfig.LoadOfSaved` | apps/launcher/config.cpp:195-340 | exactly what comes back from a saved file: each value without its trailing spaces, one server per normalised endpoint |
| `LauncherConfig.SaveLoadRoundTrip` | apps/launcher/config.cpp:195-340 | saving and loading restores a configuration exactly when the normalised endpoints are distinct and no value ends in a space |
| `LauncherConfig.TrailingSpaceIsLost` | apps/launcher/config.cpp:195-340 | a display name that ends in a space, which the checks allow, comes back without it |
| `StagingManifest.JsonEscape` | apps/client/staging.cpp:67-88 | the loop computes the escaping |
| `StagingManifest.ManifestParser.SkipWhitespace` | apps/client/staging.cpp:181-187 | skips exactly the leading blanks |
| `StagingManifest.ManifestParser.Consume` | apps/client/staging.cpp:189-193 | takes one expected character or nothing |
| `StagingManifest.ManifestParser.ParseText` | apps/client/staging.cpp:195-227 | reads one string or refuses it |
| `StagingManifest.ManifestParser.ParseU32` | apps/client/staging.cpp:229-246 | reads one 32-bit number or refuses it |
| `StagingManifest.ManifestParser.ParseField` | apps/client/staging.cpp:131-159 | reads the value of one key, refusing a duplicate |
| `StagingManifest.ManifestParser.ParseEntry` | apps/client/staging.cpp:121-159 | reads one key, colon and value |
| `StagingManifest.ManifestParser.ParseEntries` | apps/client/staging.cpp:120-167 | the loop over the members |
| `StagingManifest.ManifestParser.ParseAll` | apps/client/staging.cpp:104-178 | the in-place parser computes the parse of the whole text |
| `StagingManifest.StringRoundTrip` | apps/client/staging.cpp:67-88 | a printed string is read back exactly when every control byte has a short escape (section 7 of RFC 8259) and it holds at most 32 KiB, otherwise it is refused |
| `StagingManifest.ManifestRoundTrip` | apps/client/staging.cpp:1011-1018 | parsing the written manifest gives back every field exactly when instance and source are readable |
| `StagingManifest.DeepSourceIsRefused` | apps/client/staging.cpp:222-224 | a source path of 43 components of 255 three-byte characters, a third of the length Windows allows where long paths are enabled, is the first of its kind that the manifest's own parser refuses |
| `StagingCommit.RuntimeRoot.CreateIncoming` | apps/client/staging.cpp:928-932 | the incoming directory exists afterwards, or nothing changed |
| `StagingCommit.RuntimeRoot.FillIncoming` | apps/client/staging.cpp:945-1022 | a failure anywhere leaves an incomplete incoming tree and nothing else |
| `StagingCommit.RuntimeRoot.BackUpTarget` | apps/client/staging.cpp:1024-1027 | the target moves to the backup, or nothing changed |
| `StagingCommit.RuntimeRoot.CommitIncoming` | apps/client/staging.cpp:1028-1029 | the verified tree moves to the target, or nothing changed |
| `StagingCommit.RuntimeRoot.RestoreBackup` | apps/client/staging.cpp:428-434 | the backup moves back, or nothing changed |
| `StagingCommit.RuntimeRoot.RemoveIncoming` | apps/client/staging.cpp:396-404 | only the incoming tree can change |
| `StagingCommit.RuntimeRoot.RemoveBackup` | apps/client/staging.cpp:1030-1036 | only the backup can change, and only once the new tree is at the target |
| `StagingCommit.RuntimeRoot.Recover` | apps/client/staging.cpp:388-436 | success means the old tree is back at the target; it succeeds exactly when none of its operations fails, its backup is there and the place is free; failure never loses the old tree |
| `StagingCommit.RuntimeRoot.Commit` | apps/client/staging.cpp:1024-1048 | from the rename on: every outcome and how many operations failed for it, a complete tree at target or backup at every step; done exactly when none failed, stranded exactly when two or more did |
| `StagingCommit.RuntimeRoot.Stage` | apps/client/staging.cpp:924-1048 | with every file operation free to fail, a runtime present at the start is complete at target or backup at every step; it succeeds, with the new tree at the target, exactly when no operation fails; after a single failure the old tree is there, or the new one when only the backup could not be removed |
| `StagingCommit.RuntimeRoot.RollBack` | apps/client/staging.cpp:388-436 | the recovery of a failed run: the old layout without the incoming tree exactly when none of its operations fails |
| `PoseBuckets.Record` | bridge/remote_pose_timeline.cpp:90-111 | the in-place bucket update is that of the arrival with its jitter above the current minimum |
| `PoseBuckets.LiveMinimum` | bridge/remote_pose_timeline.cpp:141-151 | the loop over the buckets |
| `PoseBuckets.RecordKeeps` | bridge/remote_pose_timeline.cpp:93-111 | whatever the stamps: each bucket sums up exactly the arrivals of its second that no later one has displaced |
| `PoseBuckets.SteadyBuckets` | bridge/remote_pose_timeline.cpp:93-111 | without a stamp a turn of the buckets back, each bucket sums up exactly its second of the whole history, the newest second of its residue |
| `PoseBuckets.LiveIsLeastKept` | bridge/remote_pose_timeline.cpp:141-151 | the minimum over the live buckets is the least offset of the undisplaced arrivals of the last 24 seconds, if there are any |
| `PoseBuckets.WindowMinimumExactly` | bridge/remote_pose_timeline.cpp:139-151 | whatever the stamps: it is the minimum over all samples of the last 24 seconds exactly when one that attains that minimum is undisplaced, and it is never less |
| `PoseBuckets.WindowMinimum` | bridge/remote_pose_timeline.cpp:139-151 | so one bucket per residue suffices while no sample of the window is displaced |
| `PoseCases.MinimumLost` | bridge/remote_pose_timeline.cpp:90-158 | the failing side is reached: two samples with stamps the bridge lets pass, the second ahead of the clock; at the next frame the first is still in the window and its smaller offset lost |
| `PoseBuckets.JitterAboveFloor` | bridge/remote_pose_timeline.cpp:103-107 | the recorded jitter is the distance above the window minimum exactly when a sample that attains it is undisplaced |
| `PoseBuckets.ArrivalMeasured` | bridge/remote_pose_timeline.cpp:90-111 | so after every arrival, whatever the stamps before it |
| `PoseBuckets.RecentMaxima` | bridge/remote_pose_timeline.cpp:160-182 | the loop, its cap of five and the two sorts |
| `PoseBuckets.RecentsAreLastSeconds` | bridge/remote_pose_timeline.cpp:170-176 | while no sample of the last five seconds is displaced, the recent buckets are, as a multiset, exactly the summaries of the seconds since that had samples |
| `PoseBuckets.MedianSplits` | bridge/remote_pose_timeline.cpp:177-181 | the middle of the sorted values is their upper median |
| `PoseBuckets.UpperMedianIsUnique` | bridge/remote_pose_timeline.cpp:177-181 | a multiset has only one upper median |
| `PoseBuckets.TypicalMaxima` | bridge/remote_pose_timeline.cpp:160-182 | then the results are the upper medians of their per-second maxima; the capacity break cuts something off exactly when they are more than five, which takes stamps ahead of the clock |
| `PoseTrajectory.BufferedKeeps` | bridge/remote_pose_timeline.cpp:114-132 | the ring stays strictly increasing in send time and sequence, in one room, and only its oldest sample can be a teleport |
| `PoseTrajectory.BufferIsNewestOfSegment` | bridge/remote_pose_timeline.cpp:114-132 | the ring holds the newest sixteen accepted samples of the unbroken trajectory |
| `PoseTrajectory.BracketIsUnique` | bridge/remote_pose_timeline.cpp:231-234 | the bracketing pair is unique, and no discontinuity lies between its samples |
| `PoseTrajectory.CurveMeetsSamples` | bridge/remote_pose_timeline.cpp:201-279 | the curve goes through every buffered sample |
| `PoseTrajectory.HeldBeyondReach` | bridge/remote_pose_timeline.cpp:214-229 | playback is held exactly beyond the extrapolation reach |
| `PoseTrajectory.SequenceIsNewestAt` | bridge/remote_pose_timeline.cpp:206-235 | the reported sequence is that of the newest sample at or before the target exactly when the target does not hit a sample strictly inside the buffer; there it is one behind |
| `PoseCases.SequenceFallsBehind` | bridge/remote_pose_timeline.cpp:206-235 | a run of three samples and a frame whose target is the middle one: the frame reports the sequence of the first |
| `PoseTrajectory.HistogramCountsFlips` | bridge/remote_pose_timeline.cpp:184-199 | the histogram grows by exactly the number of flags set |
| `PoseTrajectory.FlaggedKeepsLedger` | bridge/remote_pose_timeline.cpp:121-128 | a push keeps the flags a prefix and the ledger of counted samples exact |
| `PoseTrajectory.ConsumedKeepsLedger` | bridge/remote_pose_timeline.cpp:184-199 | a frame counts each sample it passes for the first time, in order, and none twice |
| `PoseClock.Delay` | bridge/remote_pose_timeline.cpp:302-307 | the delay is the wanted one, truncated, within its bounds |
| `PoseClock.StepWithinWarp` | bridge/remote_pose_timeline.cpp:317-335 | a slewing step moves between (1-w) and (1+w) times the elapsed time |
| `PoseClock.SlewShrinksError` | bridge/remote_pose_timeline.cpp:321-335 | slewing shrinks the error by exactly the limit, never past the ideal |
| `PoseClock.StepTwice` | bridge/remote_pose_timeline.cpp:313-337 | at the same instant the clock stays |
| `PoseClock.ErrorDrains` | bridge/remote_pose_timeline.cpp:317-337 | with a steady ideal the error is gone exactly when the frames' limits add up to it, and keeps its sign until then |
| `PoseClock.SlowErrorDrains` | bridge/remote_pose_timeline.cpp:321-335 | from within the fast threshold the error left is what the slow warp's limits, computed from the frame times alone, do not cover |
| `PoseClock.ErrorInTwoPhases` | bridge/remote_pose_timeline.cpp:321-335 | from above it: the fast warp's limits up to the frame that reaches the threshold, the slow warp's from then on |
| `PoseClock.SwitchExists` | bridge/remote_pose_timeline.cpp:327-332 | that frame is found from the frame times alone |
| `PoseClock.SteadyIdealReachedExactly` | bridge/remote_pose_timeline.cpp:317-337 | so a steady ideal is reached exactly when those limits add up to the error |
| `PoseClock.SteadyIdealIsReached` | bridge/remote_pose_timeline.cpp:317-337 | no later than after twice the error divided by the warp, when every frame is long enough to slew a microsecond |
| `PoseClock.FineFramesNeverConverge` | bridge/remote_pose_timeline.cpp:333-334 | that condition is needed: with shorter frames the error never changes |
| `PoseClock.DefaultFramesStall` | bridge/remote_pose_timeline.cpp:333-334 | frames under twenty microseconds are too short for the default settings |
| `PoseTimeline.EvaluateKeepsBound` | bridge/remote_pose_timeline.cpp:379-418 | no frame makes the correction longer than max_position_correction |
| `PoseTimeline.OutputNearCurve` | bridge/remote_pose_timeline.cpp:376-426 | every position that is not held stays within max_position_correction of the curve at its target |
| `PoseTimeline.IdentityKeepsUnits` | bridge/remote_pose_timeline.cpp:422 | multiplying by the identity keeps exactly the unit quaternions |
| `PoseTimeline.EvaluateTwice` | bridge/remote_pose_timeline.cpp:288-430 | a second Evaluate at the same instant gives the same target, position and state; it gives the same orientation exactly when the correction did not fade away in the first or the curve's orientation is a unit |
| `PoseCases.RepeatedFrameDiffers` | bridge/remote_pose_timeline.cpp:288-430 | a run of two samples whose orientation the bridge accepts but is no unit: its last frame drops the correction, and repeated shows another orientation |
| `PoseTimeline.UnitPosesRepeat` | bridge/remote_pose_timeline.cpp:288-430 | with unit orientations in the buffer the second Evaluate is identical |
| `PoseTimeline.PlaybackOfFrame` | bridge/remote_pose_timeline.cpp:290-357 | a held frame restores the clock, an empty buffer stops it, a first anchor stays exactly when it is not held |
| `PoseCases.AnchorUndone` | bridge/remote_pose_timeline.cpp:296-357 | a run of one sample and a late first frame: the clock runs, but not from the anchor |
| `PoseTimeline.PlaybackOverRun` | bridge/remote_pose_timeline.cpp:296-357 | over any run without resync, re-anchor or stop, whatever is pushed, the clock moves between (1-w) and (1+w) times the time of the frames not held |
| `PoseTimeline.PlaybackNeverGoesBack` | bridge/remote_pose_timeline.cpp:296-357 | so it never goes back while no warp exceeds real time |
| `PoseTimeline.PushKeepsInv` | bridge/remote_pose_timeline.cpp:77-137 | a push keeps ring, buckets, ledger and correction bound |
| `PoseTimeline.EvaluateKeepsInv` | bridge/remote_pose_timeline.cpp:288-430 | so does a frame |
| `PoseTimeline.RunKeepsInv` | bridge/remote_pose_timeline.cpp:58-430 | and so does every run of pushes, frames and drops |
| `PoseTimeline.OffsetOfRun` | bridge/remote_pose_timeline.cpp:139-158 | after every run, whatever the stamps: as long as any accepted sample of the last 24 seconds is undisplaced, the offset of a frame is the minimum over all of them exactly when one that attains it is undisplaced, and otherwise more; with none it is the fallback |
| `PoseTimeline.EstimatesOfRun` | bridge/remote_pose_timeline.cpp:139-182 | after every run: while no sample of the window is displaced the offset is that minimum, and while none of the last five seconds is and at most five seconds since had samples, the two typical values are upper medians |
| `PoseTimeline.EstimatesOfSteadyRun` | bridge/remote_pose_timeline.cpp:139-182 | so after every run without a stamp a turn of the buckets back, at a frame not before any stamp |
| `PoseBuckets.NearStampsAreSteady` | bridge/remote_pose_timeline.cpp:90-111 | stamps within five seconds of a nondecreasing clock, which can go back, never go back by a turn |
| `PoseBuckets.SlackIsKept` | bridge/remote_pose_timeline.cpp:90-111 | stamps ahead of the clock by at most five seconds displace no sample of the last 19 seconds |
| `PoseTimelineClass.RemotePoseTimeline.constructor` | bridge/remote_pose_timeline.cpp:58-62 | a reset timeline |
| `PoseTimelineClass.RemotePoseTimeline.ResetSamples` | bridge/remote_pose_timeline.cpp:64-75 | drops the trajectory and keeps the clock |
| `PoseTimelineClass.RemotePoseTimeline.Push` | bridge/remote_pose_timeline.cpp:77-137 | accepts exactly the finite, newer samples; the state afterwards |
| `PoseTimelineClass.RemotePoseTimeline.Take` | bridge/remote_pose_timeline.cpp:90-136 | the state after an accepted sample |
| `PoseTimelineClass.RemotePoseTimeline.Place` | bridge/remote_pose_timeline.cpp:121-128 | the ring afterwards |
| `PoseTimelineClass.RemotePoseTimeline.OffsetEstimate` | bridge/remote_pose_timeline.cpp:139-158 | the estimate with its two fallbacks |
| `PoseTimelineClass.RemotePoseTimeline.EvaluateRaw` | bridge/remote_pose_timeline.cpp:201-230 | the curve at a target |
| `PoseTimelineClass.RemotePoseTimeline.Interpolate` | bridge/remote_pose_timeline.cpp:231-286 | the search loop finds the bracketing pair and its final fallback is unreachable |
| `PoseTimelineClass.RemotePoseTimeline.RecordLatency` | bridge/remote_pose_timeline.cpp:184-199 | flags and histogram after the loop, which may stop at the first sample beyond the target |
| `PoseTimelineClass.RemotePoseTimeline.AdvanceClock` | bridge/remote_pose_timeline.cpp:311-337 | the clock after a frame and whether the correction was cleared |
| `PoseTimelineClass.RemotePoseTimeline.Begin` | bridge/remote_pose_timeline.cpp:296-351 | clock, curve and latencies of a frame |
| `PoseTimelineClass.RemotePoseTimeline.HoldPose` | bridge/remote_pose_timeline.cpp:353-369 | a held frame |
| `PoseTimelineClass.RemotePoseTimeline.Adopt` | bridge/remote_pose_timeline.cpp:379-400 | the correction that new data asks for |
| `PoseTimelineClass.RemotePoseTimeline.Fade` | bridge/remote_pose_timeline.cpp:406-418 | the faded correction |
| `PoseTimelineClass.RemotePoseTimeline.PlayPose` | bridge/remote_pose_timeline.cpp:379-429 | a frame that is not held |
| `PoseTimelineClass.RemotePoseTimeline.Evaluate` | bridge/remote_pose_timeline.cpp:288-430 | output and state after every frame |
| `PoseTimeline.EstimatesOfStampedRun` | bridge/remote_actor_backend.cpp:1949-1966 | with stamps as the bridge lets them pass, up to five seconds before or ahead of the clock: the offset lies between the minimum of the window and every offset of the last 19 seconds, and is the minimum exactly when a sample that attains it is undisplaced; the typical values are upper medians |
| `DrainedStates.DrainedStatesAreTaken` | bridge/remote_actor_backend.cpp:1100-1161 | over every run of queue and bridge no slot ignores a state that a drain emits for it, exactly as long as, at each drain into a slot that holds a state, the first state emitted is newer than the last one of the drain before |
| `DrainedStates.StatesAreTaken` | bridge/remote_actor_backend.cpp:1137-1160 | a batch changes a slot by its own states alone |
| `DrainedStates.ChainIsTaken` | bridge/remote_actor_backend.cpp:1146-1152 | a slot takes all of a chain of states exactly when it takes the first |
| `DrainedStates.UndroppedStatesAreTaken` | bridge/remote_actor_backend.cpp:1137-1160 | so nothing is ignored while between two drains no more than eight states of a player are accepted |
| `DrainedStates.LeapIsIgnored` | bridge/remote_actor_backend.cpp:1137-1160 | the failing side is reached: nine states half the number space apart, and the slot ignores the first one left |
| `DrainedStates.ContinuesExactly` | bridge/remote_command_queue.cpp:106-121 | in unwrapped numbers: that holds when nothing was dropped since the last drain, and otherwise exactly when the advance over the dropped states is less than half the number space, modulo the whole |
| `DrainedStates.DrainIsTaken` | bridge/remote_command_queue.cpp:139-156 | and so at each single drain |
| `DrainedStates.ControlKeepsHolds` | bridge/remote_command_queue.cpp:65-76 | the controls that end an epoch in the queue take its slot's state away on the bridge |

## Left out

- CollisionSeqlock.StableAnswerIsOneTable: assumes sequentially consistent accesses, not the weaker memory orders of the source.
- OnlineWorldSanitizer.ActorWorld.ScanRegistry: memory does not change under a scan, so the closing re-reads of the sentinel and local-player cells are not modelled.
- OnlineWorldSanitizer.ActorWorld.KillPlayer: a kill that faults leaves the list as it was; the source catches the exception and reads no more.
- CoordinatorSession.Session.constructor: the validation of the environment's settings is not modelled.
- CoordinatorSession.Session.Tick: the environment of a snapshot is reduced to the elapsed time it is advanced by.
- NetworkAdapter.Adapter.AcceptState: the loop over a snapshot's players and the environment message around it are not modelled; each state of a snapshot is one call.
- NetworkAdapter.Adapter.HandleConnected: clock anchors, reconnect scheduling and status output are not modelled.
- NetworkAdapter.Adapter.EnterSafeMode: which client events lead here, their codes and the reset of the client are not modelled.
- ActorBackend.Backend.ApplyState: what happens to the slot's pose timeline is not modelled, here and in ApplyBatch.
- ActorBackend.Backend.Tick: the timeline, wheel, horn and scene-node fields of a slot, and the diagnostic counters, are not modelled.
- ActorBackend.Backend.CreateActor: the calls that set the vehicle's appearance are part of the arbitrary answer.
- XaiEditor.EditNativeVehicle: reading and committing the COM stream is not modelled; when the editor refuses, its caller drops the bytes.
- AnmEditor.EditNativeAnmVehicle: the same.
- LauncherConfig.LoadConfig: works on the text; opening and replacing the file, conversions of paths to UTF-8 and the identity check are parameters.
- LauncherConfig.SaveConfig: the temporary file, its flush and the replacing move are not modelled.
- StagingManifest.ManifestParser.ParseAll: error texts are not modelled.
- StagingCommit.RuntimeRoot.FillIncoming: copying, the three verifications and the manifest are one step that may fail.
- StagingCommit.RuntimeRoot.Stage: containment and reparse-point checks are not modelled.
- PoseTimelineClass.RemotePoseTimeline.Evaluate: wheel speeds and the statistics other than the latency histogram are not modelled, nor is `set_config` (the configuration is fixed).
- PoseTimelineClass.RemotePoseTimeline.EvaluateRaw: wheel speeds are not modelled, here and in Interpolate.
- PoseTrajectory.CurveMeetsSamples: positions only; at a sample's own time the orientation is whatever `quat_slerp` returns at its end.
- SidecarMembership.SidecarsFollow: delivery is complete and in order, the messages pass the shared validation, and pings and disconnects are handled by the transport.
- ActorStream.BridgeSeatsSpawnedPeers: takes the controls as the pipe and the queue deliver them, complete and in order, and the game's kills as done.
- DrainedStates.DrainedStatesAreTaken: a despawn names the incarnation seated (`ActorStream.DespawnNamesSeated`) and states carry the vehicle they were announced with, or else the bridge enters its safe mode.
- MatrixQuaternion.RotationRoundTrip: real arithmetic, so single-precision rounding is not captured.
- Overflow of 64-bit counters and microsecond clocks is not modelled; they are unbounded naturals.
- Hook installation, raw memory access, structured exceptions, the injector, ENet, pipes, the GUI, logging and CSV traces are not modelled.
- Plan builders, option parsing, horn pulses, wheel phases, pattern search and the release tools would only add easy members.
- `ClampStockActorTargets`, `ShouldRearmBackgroundTickWatchdog` and `ShouldSuppressFocusLoss` would only add easy members.
