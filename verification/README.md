# Dragon Shift: verified model

Dragon Shift is a multiplayer workshop game: an Axum server keeps sessions in a store and in a per-replica
cache, browsers attach by websocket and hold a copy of the session. This project models the parts of the
server and of the browser client whose correctness spans several functions, and proves what they promise.
`dafny verify dfyconfig.toml` checks everything.

| file | what it models |
|---|---|
| `SpriteFill`, `SpriteSheet` | background removal of sprites as a fill over a pixel array, cutting a sheet into tiles, re-normalising at broadcast |
| `Failover` | trying model providers in turn |
| `SessionLease` | the write lease of a session code over any number of replicas, in time; the acquisition loop |
| `Workshop`, `SessionCommit`, `PhaseHistory` | the workshop session, the handlers that change the cached copy and then save or undo, and what runs of them keep |
| `ReplicatedSession` | the same over any number of replicas, each with its own cached copy, under the lease |
| `Connections`, `AttachSession`, `RestoreRace` | the local registry and the shared store of connections, attaching with its undo, restoring against disconnecting |
| `DirtyBroadcast` | the debounced dirty set and its drains |
| `Generations`, `Tickets` | the client's generation counters and single-flight operations |
| `ClientReplica` | the client's copy of the game under lost, repeated and reordered messages, and its sockets |
| `Membership` | who may take a seat, and with which character |
| `Voting`, `ActionTraces`, `LocalJudge` | tallies, the judge's action lists, the local judge's scores |
| `CivilDate`, `Rfc3339` | dates to seconds, and reading timestamps (section 5.6 of RFC 3339) |
| `Paging`, `PagingExactness`, `PagingBack` | keyset paging of the open workshops, server and client, when Next shows every row once, and when Prev undoes Next |
| `PercentEncoding` | percent-encoding (sections 2.1 and 2.3 of RFC 3986) |
| `MachineInts`, `Text`, `Wrappers` | Rust's integer and text primitives, Option, Result and distinctness |

Code that changes state in place is a class or a loop here too, proved against a function of the old state;
code that runs concurrently is a state machine whose steps are the critical sections, and its properties are
about every run.

## Where the code does less than promised

Each of these is a theorem that says exactly when the promise holds, with a concrete failing case.

- The cached session is the saved one some ticks later whenever the write lock is free, up to the first step that
  leaves something behind. Besides a judge run that loses its lease, an attach whose undo stops early and a handler that
  is dropped between its change and its save, that step is a refused start of the second phase: the missing notes of
  absent players are filled in before the check that refuses (`SessionCommit.AgreementIsKeptExactly`,
  `StartPhase2LeavesResidueExactly`, `RefusedStartLosesAgreement`).
- At most one lease is active exactly when twice the store round trip plus the timer lateness is below the lease
  minus its renewal interval (`SessionLease.ExclusiveExactly`).
- Working on a cached copy moves a saved phase only forwards exactly when the two phases are equal, or the saved one is
  the second phase and the copy is at the judge, or the saved one is the vote and the copy is at the end
  (`PhaseHistory.SafePairExactly`). On one replica that is so until a dropped handler leaves another copy
  (`PhasesMoveForward`); then a phase is lost (`DroppedHandlerLosesAPhase`).
- With several replicas, in every run a save whose copy is so at that moment moves the phase forwards
  (`ReplicatedSession.PhasesMoveForwardWhileCachesFollow`). Two replicas reach a copy that is not, and a game tick then
  saves the second phase over the vote (`StaleCacheIsReached`, `StaleCacheMovesBack`). Comparing when the copy is changed
  is not enough, since ticks take no lease (`UndisturbedTaskIsGuarded`, `OnlyTicksSlipIn`, `OvertakenTickMovesBack`).
- An open connection that a failing attach evicted from the local registry is seated again exactly when it holds the
  seat's live row itself, or nobody does and this replica had retired it before. If its own row had expired, or another
  connection holds the live row, it stays open and in no registry (`AttachSession.Replica.AttachWsSession`,
  `EvictedSocketIsForgotten`).
- A dead connection keeps a heartbeat after the disconnect exactly when a restore started it between the disconnect's
  stopping of the old one and its dropping of the sender, still found the sender, and no later step stopped it
  (`RestoreRace.HeartbeatLingersExactly`). Every run in that window can end so, and some run gets there
  (`WindowLeadsToHeartbeat`, `HeartbeatMayLinger`).
- The row of a dead connection stays in the store exactly when the store failed to answer a release of it, by the
  disconnect or by a restore, and nothing took the row away since (`RestoreRace.DeadConnectionIsForgotten`,
  `RowMayStay`).
- The client's copy is stable after the final snapshot exactly when no other state carries the final revision
  (`ClientReplica.ConvergenceExactly`). The server does send different states under one revision: loading a session
  sets presence and host without counting a revision (`platform/app-server/src/cache.rs:20-43`), and a copy of such a
  state goes back to an earlier one (`UnsettledCopyMoves`).
- A late response passes its ticket check again after exactly 2^64 - 1 later reservations
  (`Tickets.TicketIsCurrentExactly`, `WrappedTicketPassesAgain`).
- The in-memory store sorts creation times as text with `+00:00` but compares cursors as text with `Z`. Following Next
  shows every row exactly once, in order, exactly when no row that ends a page with more rows behind it has a time that
  is another's with more or fewer digits. Otherwise a row is skipped for good or shown twice
  (`PagingExactness.WalkIsRightExactly`, `SkippedRowExists`, `RepeatedRowExists`).
- In that list, Next shows the following page and Prev then this one again exactly when no time above is the last row's
  with more digits, no time of the following page is the last row's with fewer, and no later time is the following
  page's first with fewer (`PagingBack.PrevUndoesNextExactly`, `PrevFailureExists`).
- A round of provider attempts asks every provider once exactly when the shared counter does not wrap within it or the
  number of providers divides 2^64 (`Failover.RoundIsFairExactly`, `UnevenRoundExists`).
- The three care terms computed in 32 bits are right exactly up to stated counts: 42,949,672 correct actions, 2^30 + 5
  cooldown violations, and a mistake deduction of at most 15 or whose low 32 bits are from 15 to 2^31 + 15
  (`LocalJudge.ShareIsRightExactly`, `CooldownIsRightExactly`, `MistakesAreRightExactly`; `PerfectCareOverflows` and
  `WorstCareOverflows` go past each bound).
- A day past the end of its month is not refused but rolls over (`CivilDate.OverlongDayRollsOver`).

## Model

| member | source | states |
|---|---|---|
| `SpriteFill.ClearBackground` | platform/app-server/src/llm.rs:1327-1376 | for every size and image the fill ends and clears alpha on exactly the near-white pixels joined to the border by a 4-connected near-white path; other alpha and all colours stay; only an empty sprite is refused |
| `SpriteFill.BorderFill.Enqueue` | platform/app-server/src/llm.rs:1340-1351 | a near-white position is visited and queued once; twice the unvisited positions plus the queue does not grow |
| `SpriteFill.BorderFill.SeedRows` | platform/app-server/src/llm.rs:1353-1356 | both border rows are visited where near-white |
| `SpriteFill.BorderFill.SeedColumns` | platform/app-server/src/llm.rs:1357-1360 | both border columns are visited where near-white |
| `SpriteFill.BorderFill.Turn` | platform/app-server/src/llm.rs:1362-1376 | one turn clears a background pixel, keeps the cleared set closed under near-white neighbours and makes the measure fall |
| `SpriteFill.BorderFill.Run` | platform/app-server/src/llm.rs:1353-1376 | the loop terminates in the normal form of the sprite |
| `SpriteFill.ClosedSetHoldsPath` | platform/app-server/src/llm.rs:1362-1376 | a set closed under the fill holds every border path: nothing reachable is missed |
| `SpriteFill.FilledSetIsBackground` | platform/app-server/src/llm.rs:1353-1376 | a closed set of reachable positions is exactly the background |
| `SpriteFill.BackgroundIgnoresAlpha` | platform/app-server/src/llm.rs:1337-1338 | reachability depends on colours only |
| `SpriteFill.NormalFormIsUnique` | platform/app-server/src/llm.rs:1307-1382 | a sprite has one normal form |
| `SpriteFill.NormalizingIsIdempotent` | platform/app-server/src/llm.rs:1337-1363 | normalising twice gives the same pixels as once |
| `SpriteSheet.TilesPartitionSheet` | platform/app-server/src/llm.rs:1418-1443 | for every sheet of at least 2x2 the four crops are non-empty, inside it and pairwise disjoint |
| `SpriteSheet.TileSitsInItsQuadrant` | platform/app-server/src/llm.rs:1386-1391 | each crop is centred in its own quadrant and keeps at least nine tenths of it each way |
| `SpriteSheet.SliceSheet` | platform/app-server/src/llm.rs:1396-1450 | each emotion is the normal form of its own quadrant; a sheet is refused exactly when it has no 2x2 grid |
| `SpriteSheet.NormalizedSpriteSet` | platform/app-server/src/helpers.rs:30-43 | every inline sprite is sent in normal form, a reference or undecodable one as it is |
| `SpriteSheet.BroadcastSetIsStable` | platform/app-server/src/helpers.rs:30-43 | broadcasting a broadcast set changes no sprite |
| `SpriteSheet.SlicedTileIsBroadcastUnchanged` | platform/app-server/src/helpers.rs:30-43 | broadcasting a tile cut from a sheet is a pixel no-op |
| `Failover.TryProviders` | platform/app-server/src/llm.rs:756-816 | a round stops at the first answer or fatal error, and is exhausted only after failing over at every attempt, reporting the last error |
| `Failover.RoundIsFairExactly` | platform/app-server/src/llm.rs:701-705 | a round asks each provider once if and only if its counter does not wrap within it or the number of providers divides 2^64 |
| `Failover.UnevenRoundExists` | platform/app-server/src/llm.rs:701-705 | three providers and a counter about to wrap: one is asked twice |
| `Failover.FairRoundReaches` | platform/app-server/src/llm.rs:701-705 | such a round reaches every provider |
| `Failover.FairRoundFindsTheAnswer` | platform/app-server/src/llm.rs:870-913 | if one provider would answer, such a round does not fail over at every attempt |
| `SessionLease.ExclusiveExactly` | platform/app-server/src/cache.rs:150-264 | over all runs of any number of attempts, at most one lease is active at any instant if and only if 2 x round trip + lateness < TTL - TTL/2 |
| `SessionLease.StepKeepsInv` | platform/app-server/src/cache.rs:223-264 | every step of acquiring, renewing, dropping or a late store call keeps each active lease the owner of an unexpired row |
| `SessionLease.RenewalIsNeverRefused` | platform/app-server/src/cache.rs:239-264 | with such a timing an active lease always owns an unexpired row, so the store never refuses its renewal |
| `SessionLease.SlowTimingBreaksExclusion` | platform/app-server/src/cache.rs:239-264 | for every other timing a run with two active leases is constructed |
| `SessionLease.DeployedLeaseIsExclusive` | platform/app-server/src/cache.rs:16-18 | the five-second lease is exclusive while 2 x round trip + lateness is below 2.5 seconds |
| `SessionLease.Acquire` | platform/app-server/src/cache.rs:150-210 | acquiring stops within 81 attempts, retries exactly refusals before the deadline, and returns what the last answer means |
| `SessionLease.InstantRefusalsReachTheBound` | platform/app-server/src/cache.rs:16-18 | the bound of 81 attempts is met |
| `Connections.AttachIsExclusive` | platform/crates/realtime/src/lib.rs:40-77 | attaching leaves the connection the only one of its seat, reports whom it displaced, touches nobody else |
| `Connections.DetachForgets` | platform/crates/realtime/src/lib.rs:86-96 | detaching forgets that connection and keeps both tables inverse |
| `Connections.ClaimTakesTheSeat` | platform/crates/persistence/src/lib.rs:2912-2992 | a claim retires the seat's live holder, drops every stale row, and leaves the rest |
| `Connections.RestoreGivesTheSeatBack` | platform/crates/persistence/src/lib.rs:2993-3091 | a restore succeeds exactly for a connection its own replica retired whose seat no other live connection holds |
| `Connections.ReleaseKeepsConsistencyExactly` | platform/crates/persistence/src/lib.rs:3092-3128 | a release keeps the two tables inverse exactly when the row is the caller's own or absent |
| `Connections.ReleasedClaimIsUndoable` | platform/crates/persistence/src/lib.rs:2912-3128 | releasing a claim makes whom it displaced restorable; whom it did not displace, exactly if retired before |
| `AttachSession.Replica.AttachWsSession` | platform/app-server/src/ws.rs:1233-1576 | attaching succeeds exactly when no fault stops it and is all or nothing after the claim: the player's only registration is the new one, or the session is as reloaded, nothing is saved and the new connection is gone; when the undo works, an evicted open connection is seated again exactly in two of the three cases for the live row of the seat |
| `AttachSession.Replica.ClaimAndEstablish` | platform/app-server/src/ws.rs:1366-1576 | the same from the claim on: an evicted open connection comes back exactly if the live row is its own here, or there is none and this replica had retired it; never if the live row is another's |
| `AttachSession.Replica.Undo` | platform/app-server/src/ws.rs:1405-1545 | the undo removes the new connection everywhere and puts the cached session back, and the displaced connection is seated again whenever it is restorable |
| `AttachSession.Replica.RestoreReplacedRegistration` | platform/app-server/src/ws.rs:735-782 | a restore seats exactly the displaced connection and touches no other |
| `AttachSession.EvictedSocketIsForgotten` | platform/app-server/src/ws.rs:1422-1475 | two concrete calls: after a failing attach an open connection, its row expired or the seat held elsewhere, keeps its sender and is in no registry |
| `RestoreRace.DeadConnectionIsForgotten` | platform/app-server/src/ws.rs:636-660 | in every interleaving of restores, the disconnect and the rest, once all have finished the dead connection has no sender and is not in the registry; it is in the store if and only if some release of its row failed and nothing took it away since |
| `RestoreRace.RunKeepsInv` | platform/app-server/src/ws.rs:735-782 | at every point of every run, whoever may still hold the dead connection is going to remove it, but for a row that a failed release left |
| `RestoreRace.HeartbeatLingersExactly` | platform/app-server/src/ws.rs:735-782 | in every finished run the dead connection has a heartbeat if and only if some restore started it after the old one was stopped and before the sender was dropped, then found the sender, and nothing stopped it since |
| `RestoreRace.WindowLeadsToHeartbeat` | platform/app-server/src/ws.rs:735-782 | whatever a run did before and whatever else is under way, from any state with some restore in that window it can finish with the heartbeat left behind |
| `RestoreRace.HeartbeatMayLinger` | platform/app-server/src/ws.rs:636-660 | and a run reaches that window |
| `RestoreRace.RowMayStay` | platform/app-server/src/ws.rs:1092-1113 | concrete run: a disconnect whose release is not answered ends with the row in the store |
| `SessionCommit.AgreementIsKeptExactly` | platform/app-server/src/http.rs:1683-1699 | a step keeps cache and store in agreement if and only if it leaves no residue |
| `SessionCommit.CacheAgreesUntilResidue` | platform/app-server/src/http.rs:2288-2327 | in every run of commands, joins, attaches, timers, ticks, failed saves, dropped handlers and restarts the cached workshop is the saved one some ticks later whenever the lock is free, up to the first residue, which breaks it |
| `SessionCommit.WhatTicksDo` | platform/crates/domain/src/lib.rs:905-925 | ticks only move time, care and revision, in the two care phases |
| `SessionCommit.OnlyStartPhase2RefusesWithResidue` | platform/app-server/src/http.rs:2034-2060 | no other task changes the workshop and is then refused |
| `SessionCommit.Phase2IsEnteredExactly` | platform/crates/domain/src/lib.rs:542-600 | phase 2 is entered exactly when the time is over or nobody present is still short of notes |
| `SessionCommit.StartPhase2LeavesResidueExactly` | platform/crates/domain/src/lib.rs:532-600 | starting phase 2 is refused with notes already filled in exactly when the host asks in time, somebody present still writes and somebody absent was short of notes |
| `SessionCommit.RefusedStartLosesAgreement` | platform/app-server/src/http.rs:2034-2060 | concrete run: such a refusal ends with cache and store in disagreement |
| `SessionCommit.SessionHolder.RunTask` | platform/app-server/src/http.rs:1534-1700 | one task saves what it changed or undoes it, and afterwards the cache agrees with the store exactly when nothing was left behind |
| `PhaseHistory.PhasesMoveForward` | platform/crates/domain/src/lib.rs:1498-1515 | over every run of one replica, until a dropped handler leaves a copy outside the listed pairs, the saved phase stays, follows the transition table, or goes to the lobby by a reset, and award rounds stay right |
| `PhaseHistory.SaveMovesForward` | platform/app-server/src/ws.rs:182-202 | a save that ends phase 2 without a reset carries exactly one award round, even when host, timer and judge race |
| `PhaseHistory.TaskMovesForward` | platform/app-server/src/http.rs:763-785 | each writer, accepted or refused, moves the phase only forwards and keeps the award count |
| `PhaseHistory.DroppedHandlerLosesAPhase` | platform/app-server/src/http.rs:2304-2327 | concrete run: the handler that ends phase 2 is dropped before its save and the next command saves the end: the vote is never saved |
| `PhaseHistory.SafePairExactly` | platform/app-server/src/ws.rs:159-202 | over all copies and tasks, no task on a copy of one phase moves a saved workshop of another back if and only if the pair of phases is one of the listed ones |
| `ReplicatedSession.PhasesMoveForwardWhileCachesFollow` | platform/crates/domain/src/lib.rs:1498-1515 | in every run of any number of replicas, a save whose copy follows the saved phase at that moment moves it forwards or resets it, and nothing else moves it |
| `ReplicatedSession.AwardsStayRight` | platform/app-server/src/ws.rs:182-202 | in every run of any number of replicas, stale copies included, what is saved has exactly the award rounds of its phase |
| `ReplicatedSession.UndisturbedTaskIsGuarded` | platform/app-server/src/ws.rs:159-202 | comparing before the change suffices when nothing is saved before its own save |
| `ReplicatedSession.OnlyTicksSlipIn` | platform/app-server/src/ws.rs:1615-1659 | while a handler works on one replica, only a game tick of another can change what is saved |
| `ReplicatedSession.UntouchedCopyIsRefused` | platform/crates/persistence/src/lib.rs:2513-2560 | a task that touches nothing is not saved over a workshop that is newer than its copy, or as old |
| `ReplicatedSession.StaleCacheIsReached` | platform/app-server/src/cache.rs:46-79 | two replicas reach a state where one has saved the vote and the other still holds the second phase |
| `ReplicatedSession.StaleCacheMovesBack` | platform/app-server/src/ws.rs:1615-1659 | from there a game tick saves the second phase over the vote |
| `ReplicatedSession.OvertakenTickMovesBack` | platform/app-server/src/ws.rs:1615-1659 | the same when every task so far found a copy that follows: the tick is overtaken between change and save |
| `DirtyBroadcast.NoMarkIsLost` | platform/app-server/src/ws.rs:875-917 | in every run the dirty set is non-empty exactly when one drain is scheduled, drains never outnumber marks, and every mark is covered or still due |
| `DirtyBroadcast.StepKeepsCover` | platform/app-server/src/ws.rs:896-932 | a mark stays covered: dirty, being sent, or sent from a snapshot read after it |
| `DirtyBroadcast.DrainsComeToRest` | platform/app-server/src/ws.rs:879-904 | in whatever order they are taken, the steps of the scheduled work number at most a stated bound; they can go on exactly until all is quiet, and then every mark was broadcast |
| `DirtyBroadcast.Broadcaster.MarkSessionDirty` | platform/app-server/src/ws.rs:879-894 | a mark adds its code and asks for a drain exactly when nothing was dirty |
| `DirtyBroadcast.Broadcaster.DrainDirtySessionsOnce` | platform/app-server/src/ws.rs:896-904 | a drain empties the set and sends each marked session once, as it is cached or else loaded when its turn comes; only one that is neither cached nor stored and readable is dropped |
| `Generations.SameGenerationExactly` | platform/app-web/src/state.rs:213-215 | two generations of a counter coincide exactly a multiple of 2^64 - 1 bumps apart |
| `Generations.GenerationsDiffer` | platform/app-web/src/realtime.rs:30-38 | no generation comes back within 2^64 - 2 bumps |
| `Tickets.RunKeepsInv` | platform/app-web/src/state.rs:217-298 | in every interleaving of reservations, responses, snapshots, logout and leaving, at most one of flow, command and archive request is pending |
| `Tickets.StaleResponseChangesNothing` | platform/app-web/src/flows.rs:294-336 | a response whose reservation was released changes nothing, for fewer than 2^64 - 1 later reservations |
| `Tickets.CurrentResponseFreesTheClient` | platform/app-web/src/flows.rs:294-336 | a response still in force leaves the client free; starting a logout changes nothing else |
| `Tickets.TicketIsCurrentExactly` | platform/app-web/src/state.rs:236-238 | a ticket passes exactly when its slot holds the same value a whole number of counter rounds later |
| `Tickets.WrappedTicketPassesAgain` | platform/app-web/src/state.rs:264-270 | concrete run: after 2^64 - 1 later commands a released ticket passes again |
| `Tickets.OperationState.ReservePendingFlow` | platform/app-web/src/state.rs:217-234 | a flow is reserved exactly when nothing is pending, and its ticket is then current |
| `Tickets.OperationState.ReservePendingCommand` | platform/app-web/src/state.rs:246-262 | the same for a command |
| `Tickets.OperationState.ReservePendingJudgeBundle` | platform/app-web/src/state.rs:278-293 | the same for an archive request |
| `Tickets.OperationState.FinishCommand` | platform/app-web/src/flows.rs:294-336 | a response is applied exactly if the session is the same and its ticket is current; either way only its own reservation is released |
| `Tickets.OperationState.FinishJudgeBundle` | platform/app-web/src/flows.rs:456-520 | the same for an archive response |
| `Tickets.OperationState.FinishFlow` | platform/app-web/src/flows.rs:590-650 | a flow response is applied exactly if its ticket is current |
| `Tickets.OperationState.ApplyStateUpdate` | platform/app-web/src/state.rs:1292-1338 | a snapshot releases the command it confirms and, before the end, an archive request |
| `Tickets.OperationState.StartLogout` | platform/app-web/src/flows.rs:679-714 | logging out drops the other pending operations only while its own flow is current |
| `Tickets.OperationState.LeaveSession` | platform/app-web/src/flows.rs:1958-1970 | leaving frees the client and keeps the generations |
| `ClientReplica.ReadsAreMonotone` | platform/app-web/src/state.rs:1286-1394 | under any loss, repetition and reordering a confirmed game is never dropped and no player, dragon, phase or time is replaced by an older version |
| `ClientReplica.RunKeepsInv` | platform/app-web/src/state.rs:1286-1430 | at every point each value shown is the one of a server state no newer than the copy's revision |
| `ClientReplica.FinalSnapshotConverges` | platform/app-web/src/state.rs:1085-1109 | once the snapshot of the highest revision arrives the copy equals it and stays equal whatever follows |
| `ClientReplica.ConvergenceExactly` | platform/app-web/src/state.rs:1085-1109 | that stability holds exactly when no other server state has the final revision |
| `ClientReplica.UnsettledCopyMoves` | platform/app-web/src/state.rs:1085-1109 | concrete case: a copy of the final state is replaced by an earlier one of its revision |
| `ClientReplica.CallbackActsExactly` | platform/app-web/src/realtime.rs:40-51 | a socket callback acts exactly when its socket is the latest, up to a whole round of the counter |
| `ClientReplica.StaleSocketChangesNothing` | platform/app-web/src/realtime.rs:84-145 | callbacks of an earlier socket change nothing |
| `ClientReplica.Replica.ApplyServerMessage` | platform/app-web/src/state.rs:1286-1430 | the in-place message handler has the effect the theorems are about, for every message |
| `ClientReplica.Replica.OnEvent` | platform/app-web/src/realtime.rs:84-245 | every socket callback is dropped unless its generation is current |
| `ClientReplica.Replica.Bootstrap` | platform/app-web/src/realtime.rs:73-113 | opening a socket invalidates the previous one even when it then fails |
| `Membership.RunKeepsInv` | platform/app-server/src/http.rs:1115-1545 | every session reached by creating, joining, coming back, choosing and resetting has one seat per account, distinct names ignoring ASCII case, and distinct characters |
| `Membership.CreatedIsSound` | platform/app-server/src/http.rs:914-1000 | a session starts so, with or without its creator's seat |
| `Membership.JoinKeepsSound` | platform/app-server/src/http.rs:1407-1510 | a join adds a seat that differs from all others |
| `Membership.ComeBackKeepsSound` | platform/app-server/src/http.rs:1287-1357 | coming back, with or without new sprites, keeps seats distinct |
| `Membership.SelectKeepsSound` | platform/app-server/src/http.rs:1747-1791 | choosing a character keeps characters distinct although owned ones are not compared |
| `Membership.ResolvedIsFree` | platform/app-server/src/http.rs:354-409 | the character resolved for an account is its own or taken by no other seat |
| `Membership.PickedIsFree` | platform/app-server/src/http.rs:414-470 | a lent or starter character is taken by no other seat |
| `Membership.Seats.AssignCharacter` | platform/crates/domain/src/lib.rs:379-392 | both character fields are set together, for a known player only |
| `Membership.Seats.Select` | platform/app-server/src/http.rs:1747-1791 | the in-place command accepts and refuses as the run theorem's step does |
| `Voting.TallyVotes` | platform/app-server/src/helpers.rs:138-144 | the loop counts, for every dragon, the players that voted for it |
| `Voting.ClientVotingState` | platform/app-server/src/helpers.rs:133-167 | a client sees results exactly after the reveal of a real vote, each the number of its voters |
| `Voting.JudgeVoteCounts` | platform/app-server/src/helpers.rs:438-482 | the judge's counts are the numbers of voters by dragon id |
| `Voting.ResultsAddUpExactly` | platform/app-server/src/helpers.rs:133-167 | results sum to the submitted count if and only if every vote names a shown dragon |
| `Voting.ClientAndJudgeAgreeExactly` | platform/app-server/src/helpers.rs:438-482 | client results and judge counts are equal exactly when each dragon's id is its key |
| `Voting.HiddenVotesDoNotShow` | platform/app-server/src/helpers.rs:160-166 | until the reveal a view depends on the number of votes and the own vote only |
| `Voting.EveryVoteIsShown` | platform/crates/domain/src/lib.rs:1235-1268 | whatever tasks ran on a session that began without a ballot, results add up to the votes cast |
| `ActionTraces.BuildTraces` | platform/app-server/src/helpers.rs:343-432 | the loop groups exactly the second-phase actions that name a dragon, by dragon |
| `ActionTraces.TraceIsAtItsRank` | platform/app-server/src/helpers.rs:343-432 | each such action is in its dragon's list, at its rank: order is kept |
| `ActionTraces.EntryHasOneAction` | platform/app-server/src/helpers.rs:343-432 | each entry comes from exactly one action |
| `LocalJudge.CareSumNeedsNoClamp` | platform/app-server/src/http.rs:589-622 | the care sum is in 0..100 before it is clamped |
| `LocalJudge.BetterCareScoresNoLess` | platform/app-server/src/http.rs:589-622 | it never falls as correct actions or a final stat rises, never rises with mistakes, penalties or cooldown violations |
| `LocalJudge.ShareIsRightExactly` | platform/app-server/src/http.rs:609-613 | for all 32-bit counts the share of correct actions is right if and only if at most 42,949,672 are correct |
| `LocalJudge.MistakesAreRightExactly` | platform/app-server/src/http.rs:614-619 | the mistake term is right if and only if the deduction is at most 15 or its low 32 bits are from 15 to 2^31 + 15 |
| `LocalJudge.CooldownIsRightExactly` | platform/app-server/src/http.rs:620 | the cooldown term is right if and only if there are at most 2^30 + 5 violations |
| `LocalJudge.PerfectCareOverflows` | platform/app-server/src/http.rs:609-613 | one action past the bound, all correct, gives a share of -49 instead of 50 |
| `LocalJudge.WorstCareOverflows` | platform/app-server/src/http.rs:614-620 | counts past the other two bounds give full scores instead of none |
| `LocalJudge.RightTermsAddUp` | platform/app-server/src/http.rs:608-622 | with all three right the 32-bit sum is the care sum |
| `LocalJudge.ObservationIsAtMost84` | platform/app-server/src/http.rs:555-587 | the observation score is at most 84, reached exactly with three habits, three tags and two observations |
| `LocalJudge.WordIsInOneNote` | platform/app-server/src/http.rs:543-558 | joining the notes neither makes nor breaks a keyword |
| `LocalJudge.MoreNotesScoreNoLess` | platform/app-server/src/http.rs:529-587 | more notes about the same dragon never lower the observation score |
| `CivilDate.SecondsCountDays` | platform/app-web/src/helpers.rs:280-295 | for every year, negative ones included, the era arithmetic equals 86400 x the days counted by year and month lengths, and refuses exactly months outside 1..12 and days outside 1..31 |
| `CivilDate.SuccessorAddsOne` | platform/app-web/src/helpers.rs:280-295 | the next date counts one day more |
| `CivilDate.LaterDatesCountMore` | platform/app-web/src/helpers.rs:280-295 | dates and their seconds are in the same strict order |
| `CivilDate.ConversionIsInvertible` | platform/app-web/src/helpers.rs:280-295 | counting back from the seconds returns the date |
| `CivilDate.OverlongDayRollsOver` | platform/app-web/src/helpers.rs:280-283 | a day past the end of its month is accepted as a date of the next |
| `Rfc3339.PrintedTimestampReadsBack` | platform/app-web/src/helpers.rs:246-277 | a UTC timestamp printed as in section 5.6 of RFC 3339, padded or not, with or without a fraction, is read as its second |
| `Rfc3339.DateReadsBack` | platform/app-web/src/helpers.rs:258-266 | a printed date is read as its fields |
| `Rfc3339.TimeReadsBack` | platform/app-web/src/helpers.rs:268-277 | a printed time is read as its fields, the fraction dropped |
| `Paging.WalkVisitsEveryRow` | platform/app-server/src/http.rs:4159-4202 | over a list in cursor order, following next from the first page visits every row exactly once, in order, and ends |
| `Paging.Pager.ClickNext` | platform/app-web/src/flows.rs:1265-1290 | Next shows the following page if there is one |
| `Paging.Pager.ClickPrev` | platform/app-web/src/flows.rs:1265-1290 | Prev shows the preceding page: it undoes Next on every page |
| `Paging.Pager.RequestAndSync` | platform/app-web/src/flows.rs:1334-1342 | a previous page with nothing before it is shown as the first page |
| `Paging.Pager.Refresh` | platform/app-web/src/flows.rs:1204-1208 | refreshing keeps the page |
| `Paging.OrderedListSplits` | platform/crates/persistence/src/lib.rs:482-502 | the two cursor filters split a list in cursor order at the cursor |
| `Paging.RequestGivesPage` | platform/crates/persistence/src/lib.rs:3553-3668 | each request the client makes is answered with the page it stands for |
| `Paging.SortedListIsOrderedExactly` | platform/crates/persistence/src/lib.rs:3592-3600 | the list the store sorts is in cursor order exactly when no time in it is another with more digits |
| `PagingExactness.CursorSeesExactly` | platform/crates/persistence/src/lib.rs:482-512 | a cursor on a row of the sorted list lets through, below it, all but the times its own extends, and above it just those that extend its own |
| `PagingExactness.WalkIsRightExactly` | platform/crates/persistence/src/lib.rs:3553-3668 | for every list the store sorts, following next from the first page gives the list if and only if no row that ends a page with rows behind it has a time that is another's with more or fewer digits |
| `PagingExactness.SkippedRowExists` | platform/crates/persistence/src/lib.rs:3592-3622 | five workshops within four seconds: the fifth is never shown |
| `PagingExactness.RepeatedRowExists` | platform/crates/persistence/src/lib.rs:3592-3622 | five workshops within four seconds: the third is shown twice |
| `PagingBack.NextIsRightExactly` | platform/crates/persistence/src/lib.rs:482-492 | in the sorted list, After the last row of a page gives the rows that follow if and only if no time above extends its time and its own extends none of the next page |
| `PagingBack.PrevIsRightExactly` | platform/crates/persistence/src/lib.rs:493-512 | Before a row that nothing above extends gives the page before it if and only if its time extends no later one |
| `PagingBack.PrevUndoesNextExactly` | platform/app-web/src/flows.rs:1265-1342 | for every page of the sorted list with rows behind it, Next and then Prev show the following page and this one again if and only if both conditions hold |
| `PagingBack.PrevFailureExists` | platform/crates/persistence/src/lib.rs:3592-3622 | six workshops: Next is right and Prev does not come back |
| `PercentEncoding.PercentEncodeComponent` | platform/app-web/src/api.rs:37-48 | the loop is the encoding that the laws below are about |
| `PercentEncoding.DecodeUndoesEncode` | platform/app-web/src/api.rs:37-48 | decoding the escapes returns the original bytes |
| `PercentEncoding.EncodeIsInjective` | platform/app-web/src/api.rs:37-48 | no two byte strings are encoded alike |
| `PercentEncoding.EncodeEscapes` | platform/app-web/src/api.rs:37-48 | the output holds only unreserved characters and upper-case triples |
| `PercentEncoding.EncodeUndoesDecode` | platform/app-web/src/api.rs:37-48 | every such text without needless escapes is the encoding of what it decodes to |

## Left out

- Input and output: PNG and base64 codecs, HTTP, websocket frames, SQL and Postgres, provider calls, clocks and
  randomness. Pixel arrays, store answers, instants and drawn ids are inputs.
- SpriteSheet.TilesPartitionSheet: the five percent margin is computed in floating point; here it is any integer m with
  0 <= 20 m <= tile.
- SessionLease.ExclusiveExactly: with `SESSION_LEASE_ENABLED=false` there is no lease, so it does not apply; clocks of
  the replicas are one clock.
- SessionLease.Acquire: the clock and the store are given as functions of the attempt number.
- AttachSession.Replica.AttachWsSession: re-attaching an already attached socket and the close signal of a displaced
  socket are not modelled; when a restore call of the undo fails the source returns early, and then only what the
  contract names is undone.
- RestoreRace.DeadConnectionIsForgotten: assumes nobody registers the dead connection id anew or starts a heartbeat for
  it but a restore; the heartbeat handle is the subject of `RestoreRace.HeartbeatLingersExactly`. A failed store call is
  taken as not done.
- SessionCommit.CacheAgreesUntilResidue: one replica (`ReplicatedSession` has several). Not included: the disconnect's
  rollback to a copy read before the lock, the sprite-sheet handler's reload outside the lock, the insertion of a
  created session, notification eviction, and rewriting of sprite references on saving. A save that fails is taken as
  not committed; presence, host, warning flag and timestamps are runtime data outside the comparison.
- SessionCommit.SessionHolder.RunTask: leaves out ticks, which never undo, and dropped handlers, which are the step
  `HandlerDropped` of the runs.
- PhaseHistory.PhasesMoveForward: one replica (`ReplicatedSession` has several); who the host is comes with each load,
  and reassigning dragons and all care and achievement rules are arbitrary functions (`Workshop.Rules`).
- ReplicatedSession.PhasesMoveForwardWhileCachesFollow: a handler keeps its lease to its end, and equal change times
  count as stale on saving; which ticks are saved is left open in the runs, the constructed ones save ticks that the
  server saves.
- DirtyBroadcast.NoMarkIsLost: a broadcast whose session cannot be loaded counts as one; what sending to a connection
  does, and force-closing slow connections, is left out.
- Tickets.RunKeepsInv: notices and the loading flags of the lists are left out; the generation guard of the workshop
  list is the same check once more.
- ClientReplica.ReadsAreMonotone: about one session attached on one server history; joining again replaces the game
  whatever its revision, and a server that restarts may count again from an older saved revision.
- ClientReplica.Replica.ApplyServerMessage: screens, notices and browser storage are left out; the pending command and
  archive request of a snapshot are in `Tickets.ApplyUpdate`.
- Membership.RunKeepsInv: redrawing a character's sprites and the host flags are left out; account names do not change.
- Membership.Seats.Select: creating and joining are functions only, since their random draws are inputs.
- Voting.ClientVotingState: counts are unbounded; the source stores them as 32-bit numbers.
- LocalJudge.CareSumNeedsNoClamp: the creativity score, the feedback texts and the averages are left
  out. The exact bounds of the three terms are those of a release build, which wraps on overflow.
- CivilDate.SecondsCountDays: years are unbounded; the source takes a 32-bit year and computes in 64 bits without
  overflow.
- Rfc3339.PrintedTimestampReadsBack: lower-case separators, other offsets and years past 9999 are not printed here; the
  parser's wrapping sum of out-of-range clock fields is modelled (`Rfc3339.EpochOf`) but nothing is claimed about it.
- Paging.WalkVisitsEveryRow: over an unchanged list; visibility filtering and the parsing of query parameters are left
  out.
- Paging.SortedListIsOrderedExactly: about times printed by the server itself, whose normal form only shortens the zone;
  the Postgres store compares timestamps and is not part of this model.
- Failover.TryProviders: the replies of the attempts are given; the retries of a whole image round with backoff are left
  out, and so is a debug build, which stops on overflow instead of wrapping.
- The countdown display, rate limits, passwords, cookies, configuration and the components of the user interface would
  only add easy members.
- The sessions' other contents (scores, achievements, judge texts, sprites) are opaque values.
