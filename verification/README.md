# WoodGate, verified

WoodGate runs school check-in: iPads act as Stations, a Go server keeps the
directory, the roles and the Station sessions in PostgreSQL, and a web client
lists what the server knows. This project models the parts of that system whose
guarantees span several operations, several processes or whole runs, and proves
them for every input and every reachable state.

| modules | what they model |
|---|---|
| `StationTables`, `StationStore`, `StationRuns` | the Station, session and rejection tables; each store transaction as a function on the tables and as the statements of a method on a class; whole runs of transactions, with the status shown for a Station characterised by the history of the run |
| `SessionLocks`, `SessionHistory` | the same transactions split into their statements, interleaved freely under READ COMMITTED with `FOR SHARE`, `UPDATE` and `DELETE` row locks; then every such interleaving reduced to its commits, run one after the other, and the status that follows |
| `Outbox`, `Hub`, `HubSystem`, `HubHistory` | the bounded send queue, the hub and the administrative service as classes; then any number of replicas, hubs and connections, each connection a program counter through `serve` beside its write loop, any of whose queries may run without its caller learning of it; and what such a run is to the database |
| `DirectoryTables`, `ProviderSync`, `SyncRuns`, `DirectoryStore` | the provider snapshot reconciliation, statement by statement and row by row in any visiting order, its "replace" specification, runs of syncs and user mutations, and the class that executes them |
| `Roles`, `Eligibility` | the readers of effective roles and of roster eligibility |
| `SortTokens`, `Ordering`, `QueryBuilder`, `Listing` | sort tokens on both sides of the wire, `ORDER BY`, the `WHERE` builder, paging, and the client's reassembly of all pages |
| `ControlConnection` | the iPad's control connection: a generation fence on the main actor, every `await` an interleaving point |
| `Memberships`, `EntraSync` | the worklist that pages group memberships out of Microsoft Graph, and a sync from the fetch to the directory it leaves |

A class whose methods change its fields has one method per critical section,
statement or segment, proved against a function on values; the theorems are
about runs of those functions. A run is a list of steps each enabled where it is
taken, so a theorem about `Runs` and `AfterAll` is about every reachable state.

## Assumptions

- The digest of a Station key is injective (`SecretHash` keeps the trimmed key),
  and connection ids are fresh (`randtoken`).
- The database clock does not go back. `now()` is the start of the transaction.
- Foreign keys, unique indexes and check constraints are those of
  `internal/postgres/migrations/002_shared_foundations.sql` and
  `003_stations.sql`: client rows, memberships, group roles and location groups
  cascade; the email and principal-name indexes cover active provider rows.
- One whitespace set (space, tab, newline, carriage return, vertical tab, form
  feed) stands for Go's `TrimSpace` and JavaScript's `trim`.
- An order expression has an integer rank or NULL on each row; a clause is
  whatever its text says once its placeholders are replaced.
- A Graph chain of pages is finite and a batch either answers a request or fails.

## What the proofs found

- A lease that has run out can still be renewed. A renewal whose transaction
  started inside the lease compares the lease with its own `now()`, so it can
  commit later. `LostLeaseRenewsIffInFlight` gives the exact condition;
  `ExpiredLeaseCanRenew` is an interleaving from empty tables after which the
  lapsed connection holds a live lease again.
- A claim that looked before a concurrent rejection committed leaves that
  rejection beside its session: both hold `FOR SHARE`. `CommitIsAtomic` shows
  that a commit has the effect of its transaction run as a whole if and only if
  this has not happened; `ClaimCanMissRejection` is a run in which it does.
- An administrator can be told of an error although the change was committed, and
  the hub then hears nothing: the station is read back after the commit, and the
  hub follows the row as read. The contracts of `Service.Update` and
  `Service.RotateKey` say what the hub is told in every case. The connection of a
  station disabled or rotated this way still ends, because its session row is
  gone (`DispossessedForever`).
- Renewing in time does not keep a Station online. A renewal counts from its start
  but shows from its commit, so a late commit leaves a gap. `StaysOnlineIff` gives
  the exact condition for being online in every state of a run.
- A sync that removes every group a location lists opens the location to every
  active user, because the cascade leaves it with no groups.
  `SyncOpensLocation` gives the exact condition, `SyncCanOpenLocation` a
  directory, a snapshot and an outsider who becomes eligible.
- A sort id survives printing and parsing exactly when it has no comma, no leading
  whitespace and, on the client, is not empty; trailing whitespace and dots are
  harmless (`SortRoundTrip`).
- The email indexes are named after `lower(email)` but index `email` itself; the
  model follows the index.

## Model

| member | source | states |
|---|---|---|
| `Text.TrimCuts` | internal/station/store.go:312 | trimming cuts blanks from both ends and nothing else, down to a piece that is bare at both edges |
| `Text.TrimIsThePiece` | internal/station/store.go:312 | and that determines it: however a string is written as blanks, a bare piece and blanks, the piece is what trimming gives |
| `StationTables.SameDigestIff` | internal/station/store.go:311-318 | two keys have the same digest exactly when they are equal up to surrounding blanks; exactly a blank key has none |
| `StationTables.OpensIff` | internal/station/store.go:275-286 | a key opens a station exactly when the station is enabled and the key is its own up to surrounding blanks |
| `StationStore.Store.LockStationCredential` | internal/station/store.go:275-286 | succeeds exactly when the station is enabled and the presented key is, up to surrounding blanks, the one its digest was made from |
| `StationStore.Store.CreateStation` | internal/station/store.go:116-126 | a blank name or digest is invalid, a taken one exists already, a missing location is not found, and then nothing changes; otherwise the row is there, and the answer is the read-back's, which may be an error of its own |
| `StationStore.Store.UpdateStation` | internal/station/store.go:128-150 | a missing station or location, a blank or a taken name changes nothing; a committed update has the new row, without client rows when disabled, whatever the read-back after it answers |
| `StationStore.Store.RotateKey` | internal/station/store.go:158-175 | a failed transaction changes nothing; a committed one has the new digest and no client rows, whatever the read-back after it answers |
| `StationStore.Store.DeleteStation` | internal/station/store.go:152-156 | the station and, by cascade, its client rows are gone |
| `StationStore.Store.Authenticate` | internal/station/store.go:177-193 | names a station exactly when it is enabled and the presented key is, up to surrounding blanks, the one its digest was made from; failure means no enabled station holds it |
| `StationStore.Store.ObserveRejectedClient` | internal/station/store.go:196-217 | exactly with the station's own key, and while it is enabled, the rejection row with its five-minute expiry; otherwise nothing changes |
| `StationStore.Store.ClaimClientSession` | internal/station/store.go:219-247 | exactly with the station's own key, while it is enabled, and with a connection id, the session row with its lease and no rejection; otherwise nothing changes |
| `StationStore.Store.RenewClientSession` | internal/station/store.go:249-266 | extends the lease of a matching, unexpired row of an enabled station, otherwise reports an invalid session |
| `StationStore.Store.ReleaseClientSession` | internal/station/store.go:268-273 | deletes the row only if it is still this connection's |
| `StationTables.CreatedStation` | internal/station/store.go:116-126 | a created station has its name, location and switch, opens with exactly the key it was given, and has no client |
| `StationTables.UpdatedStation` | internal/station/store.go:128-150 | an update sets name, location and switch, keeps the key, and clears the client rows exactly when it disables |
| `StationTables.RotatedStation` | internal/station/store.go:158-175 | after a rotation exactly the new key opens the station; all else about it stays and its clients go |
| `StationTables.DeletedStation` | internal/station/store.go:152-156 | exactly an existing station is deleted, with its client rows |
| `StationTables.ClaimedSession` | internal/station/store.go:219-247 | a claim records connection, protocol, version and fifteen seconds, and forgets the rejection |
| `StationTables.RecordedRejection` | internal/station/store.go:196-217 | a rejection records protocol, version and five minutes, beside the session |
| `StationTables.RenewedSession` | internal/station/store.go:249-266 | a renewal moves the end of the lease to fifteen seconds from now, on its exact conditions, and changes nothing else |
| `StationTables.CommitFrame` | internal/station/store.go:116-294 | no transaction touches the rows of another station |
| `StationTables.CommitKeepsConsistent` | internal/station/store.go:116-294 | every transaction keeps keys and names distinct, and every client row under an enabled station and its current key |
| `StationTables.RenewImpliesAuthority` | internal/station/store.go:249-266 | renewal never reads the key, yet in consistent tables it succeeds exactly for the holder of an unexpired lease, and then the key it claimed with is still current |
| `StationRuns.SessionHasHeartbeats` | internal/station/store.go:219-273 | every session row stems from an accepted claim followed by renewals less than a lease apart, and its lease runs from the last of them |
| `StationRuns.HeartbeatsKeepSession` | internal/station/store.go:219-273 | conversely, such a history keeps the row in place over any run |
| `StationRuns.OnlineIffHeartbeats` | internal/station/store.go:50-66 | with transactions in time order, a station shows online exactly when a claim that nothing ended has been kept alive until now |
| `StationRuns.ExhaustiveFixesSession` | internal/station/store.go:219-273 | a history with every timely renewal in it fixes the row's holder and the end of its lease, even when commit times run backwards |
| `StationRuns.OnlineIffBeats` | internal/station/store.go:50-66 | without any assumption on the times, online exactly when the timely renewals since a claim that nothing ended reach until now |
| `StationRuns.ContinuouslyOnline` | internal/station/store.go:50-66 | between the claim and a lease after the last heartbeat it is online at every moment, not just after each event |
| `StationRuns.IncompatibleIffRejectionStands` | internal/station/store.go:50-66 | it shows incompatible exactly when it is not online and a rejection under five minutes old follows its latest claim and wipe |
| `StationRuns.LapsedClaimFallsOffline` | internal/station/store.go:50-66 | without a rejection after the latest claim, a session that lapses falls to offline |
| `StationRuns.LossIsStable` | internal/station/store.go:219-294 | no transaction but its own claim gives a connection a live session |
| `StationRuns.FencedForever` | internal/station/store.go:219-273 | once replaced, cleared, released or expired, a connection never renews again in any further run of atomic transactions |
| `SessionLocks.CommitIsAtomic` | internal/station/store.go:128-273 | a commit of interleaved statements has the effect of the whole transaction run at that moment if and only if it is not a claim that missed a rejection; such a claim leaves the rejections as they are |
| `SessionLocks.ClaimCanMissRejection` | internal/station/store.go:219-247 | from empty tables, a claim and a rejection side by side end with both a session and a rejection row |
| `SessionLocks.CommitKeepsOther` | internal/station/store.go:275-294 | what any other open transaction has read and will write still stands after a commit, because the row locks are compatible |
| `SessionLocks.StepKeepsInv` | internal/station/store.go:128-294 | begin, every statement, commit, abort and creation keep the lock invariant |
| `SessionLocks.AloneIsWhole` | internal/station/store.go:128-273 | run alone, the statements of a transaction reach its commit exactly when the transaction as a whole succeeds, and the commit has its effect |
| `SessionLocks.ClientRowsAlwaysCurrent` | internal/station/store.go:128-294 | in every interleaving each committed client row belongs to an enabled station and was written with its current key |
| `SessionLocks.RenewalHasAuthority` | internal/station/store.go:249-266 | a renewal that reaches its commit is by the station's latest claimer, on the current key, with a lease unexpired at its start |
| `SessionLocks.FencedIsStable` | internal/station/store.go:219-273 | no statement of any transaction lifts the fence around a connection that has lost its session |
| `SessionLocks.FencedNeverRenews` | internal/station/store.go:249-273 | a fenced connection stays fenced over every further run and none of its renewals gets to commit |
| `SessionLocks.DriveRenewal` | internal/station/store.go:249-266 | a renewal under way in time can be run to its commit when no one else holds the row |
| `SessionLocks.LostLeaseRenewsIffInFlight` | internal/station/store.go:249-266 | a connection without a live lease can renew in some continuation if and only if a renewal begun inside the lease is still under way |
| `SessionLocks.ExpiredLeaseCanRenew` | internal/station/store.go:249-266 | the case is reachable from empty tables: a renewal begun inside the lease commits after it has run out, and the lapsed connection has a live lease again |
| `SessionHistory.TablesAreReplayed` | internal/station/store.go:128-294 | after any interleaving of statements the tables are those of the committed transactions run one after the other in commit order, a claim that missed a rejection leaving it |
| `SessionHistory.ReplayHasSessions` | internal/station/store.go:219-273 | stations and sessions are then those of plain atomic transactions: no outcome depends on the rejections |
| `SessionHistory.NothingMissed` | internal/station/store.go:128-294 | and all three tables are, when no claim missed a rejection |
| `SessionHistory.RejectionHasCommit` | internal/station/store.go:196-247 | a rejection row stems from the last committed rejection, which no wipe and no claim that saw it has removed |
| `SessionHistory.StandingIsKept` | internal/station/store.go:196-247 | conversely, such a rejection's row is there and expires five minutes after it |
| `SessionHistory.StatusOfHistory` | internal/station/store.go:50-66 | after any interleaving of statements a station shows online exactly when its committed history keeps a claim alive, and incompatible exactly when it does not and a rejection under five minutes old stands |
| `SessionHistory.StaysOnlineIff` | internal/station/store.go:249-266 | over any interleaving a station is online in every state from its claim to the end exactly when each timely renewal also commits before the lease of the one before runs out, and the last lease reaches the end |
| `Outbox.LosslessOrClosed` | internal/station/hub.go:170-205 | however enqueues and writes interleave, written, in hand and buffered messages concatenate to all that was enqueued, and at most four wait, until the close is requested |
| `Outbox.DropRequestsClose` | internal/station/hub.go:291-297 | a message is dropped exactly when four wait, and the drop requests the close |
| `Outbox.RoundsDeliver` | internal/station/hub.go:183-186 | left to itself and not asked to close, the write loop writes everything that was enqueued, in order |
| `Outbox.TakesOldest` | internal/station/hub.go:183-186 | it takes the oldest of at most four waiting messages and writes the one in hand |
| `Hub.ControlConnection.Enqueue` | internal/station/hub.go:291-297 | the message joins the buffer, or a full buffer closes the socket |
| `Hub.ControlConnection.WriteNext` | internal/station/hub.go:183-186 | the oldest buffered message is written, or stays in hand when the write fails |
| `Hub.Hub.Register` | internal/station/hub.go:211-225 | refused by a closed hub; otherwise the connection is filed under its station, the one it replaced is asked to close, and no other socket is touched |
| `Hub.Hub.Unregister` | internal/station/hub.go:227-232 | removes the entry only while it is this very connection |
| `Hub.Hub.Disconnect` | internal/station/hub.go:270-280 | the station's entry goes and exactly its socket is asked to close |
| `Hub.Hub.ConfigurationChanged` | internal/station/hub.go:243-253 | exactly the station's connection takes the new location and is offered one message |
| `Hub.Hub.ConfigurationChangedForLocation` | internal/station/hub.go:255-268 | exactly the connections bound to the location are offered one message each, in any visiting order |
| `Hub.Hub.Close` | internal/station/hub.go:63-80 | the hub is closed and empty and every socket it held is asked to close |
| `Hub.Service.Update` | internal/station/service.go:114-138 | commit first, then the read-back, then the hub: told only if both succeed, it disconnects a station read as disabled and tells one read as enabled to refresh at the location read |
| `Hub.Service.RotateKey` | internal/station/service.go:152-165 | a committed rotation leaves no client row; the socket is asked to close exactly when the read-back succeeds too |
| `Hub.Service.Delete` | internal/station/service.go:141-149 | after a successful delete the station's entry is gone and its socket asked to close |
| `HubSystem.EntryEnters` | internal/station/hub.go:211-225 | an entry enters a map only by its own connection's register, and never a closed hub's |
| `HubSystem.EntryLeaves` | internal/station/hub.go:63-80 | an entry leaves only by its own connection's unregister or into the sockets about to be closed |
| `HubSystem.RowEnters` | internal/station/store.go:219-273 | a session row changes hands only to a connection of that station whose claim this step commits |
| `HubSystem.StepKeepsInv` | internal/station/hub.go:82-280 | every step of every replica, connection and administrator keeps the system invariant |
| `HubSystem.NoOrphanSockets` | internal/station/hub.go:63-80 | in every reachable state a connection that registered and has not run unregister is in its hub's map, closed, or about to be closed |
| `HubSystem.OneConnectionPerStation` | internal/station/hub.go:211-225 | in every reachable state, of two registered connections of one station on one hub at least one is closed or about to be |
| `HubSystem.ClosedHubStaysEmpty` | internal/station/hub.go:62-80 | a closed hub's map is empty and stays so over every further run |
| `HubSystem.ReleasedExactlyOnce` | internal/station/hub.go:111-117 | a claimed connection has attempted its release exactly once when it has returned, on every exit path, and never before |
| `HubSystem.CleanupIsOwn` | internal/station/hub.go:227-241 | late cleanup leaves every other connection's map entry and session row alone |
| `HubSystem.ReleasedNeverReturns` | internal/station/store.go:249-273 | after a successful release no session row carries the connection again, though its write loop may still tick |
| `HubSystem.DispossessedForever` | internal/station/hub.go:144-209 | a replaced or cleared connection stays so across all replicas; its next presence ends its read loop and its next tick its write loop, changing no table |
| `HubSystem.RowsAccountedFor` | internal/station/hub.go:82-142 | every session row belongs to a connection still served, to one whose single release failed, or to one whose commit was never acknowledged |
| `HubHistory.ClaimsAreFresh` | internal/station/hub.go:93-102 | no two claims of a run of the system carry the same connection |
| `HubHistory.SystemRunsTransactions` | internal/station/hub.go:82-280 | the tables after any run of hubs, connections and administrators are those of its transactions, in time order and with fresh claims |
| `HubHistory.StatusOfSystem` | internal/station/store.go:50-66 | in every reachable state of the system a station shows online exactly when timely heartbeats have kept an unended claim alive, and incompatible exactly when they have not and a recent rejection follows its latest claim |
| `HubHistory.LapsedForever` | internal/station/hub.go:144-209 | a connection whose lease was replaced, cleared, released or has run out never renews again, whatever runs later: its next presence ends its read loop and its next tick its write loop |
| `HubHistory.PresenceRenews` | internal/station/hub.go:163-166 | in every reachable state a presence message of a connection holding its unexpired session extends the lease to fifteen seconds from now, and the read loop goes on |
| `HubHistory.TickRenews` | internal/station/hub.go:187-203 | and so does a tick of its write loop, which goes on |
| `HubHistory.ClaimSucceedsIff` | internal/station/hub.go:97-102 | an answered claim leads to registering exactly with a key that opens the station, and the row is this client's; otherwise the socket closes and nothing changes |
| `HubHistory.RegisterJoins` | internal/station/hub.go:111-117 | on an open hub the connection is filed and the one it replaces is about to be closed; on a closed hub it goes straight to its release |
| `HubHistory.CleanupWaits` | internal/station/hub.go:138-141 | after its read loop a connection goes on to its cleanup only once its write loop has stopped |
| `HubHistory.ServingBegins` | internal/station/hub.go:82-138 | on an open hub a new connection presenting a key that opens its station comes to be read, written, filed and holding the session, and the station shows online |
| `HubHistory.ServingEnds` | internal/station/hub.go:138-142 | when its socket fails it leaves its hub, gives its session back and returns |
| `HubHistory.LostHasRun` | internal/station/hub.go:111-117 | a claim, renewal or release whose answer is lost has run all the same, one that did not run changes no table, and either way its caller stops |
| `HubHistory.AdministrationActs` | internal/station/hub.go:62-80 | committing, disconnecting, closing a hub, closing a socket and the clock each have their effect and no other |
| `ProviderSync.CurrentUsersLast` | internal/directory/provider_store.go:190-203 | the last staged row of an external id wins |
| `ProviderSync.CurrentGroupsLast` | internal/directory/provider_store.go:133-141 | the same for groups |
| `ProviderSync.UpsertsProgress` | internal/directory/provider_store.go:173-213 | after the upsert of any rows in any order: those written as staged, new ones with fresh ids, identity and credentials kept, all other rows as before |
| `ProviderSync.ClashOnlyWithinSnapshot` | internal/directory/provider_store.go:161-213 | because the generation is tombstoned first, active provider rows clash exactly when their staged users do, whatever the table held |
| `ProviderSync.NoIntermediateClash` | internal/directory/provider_store.go:160-215 | at every intermediate row of the upsert, in any order, no two active rows share an email or principal name exactly when the rows staged so far are distinct, even when emails swap |
| `ProviderSync.RebuiltMemberships` | internal/directory/provider_store.go:217-248 | between the source's own users and groups exactly the staged memberships remain; all others are untouched |
| `ProviderSync.StagedClashIff` | internal/directory/provider_store.go:110-111 | two staged users cannot be active together exactly when both are enabled and share a non-empty email, that is mail or else principal name, trimmed, or a non-empty principal name |
| `ProviderSync.SyncReplacesView` | internal/directory/provider_store.go:14-34 | the reconciliation refines "replace": afterwards the source's active users, groups and memberships are exactly the snapshot's |
| `ProviderSync.SyncShowsFields` | internal/directory/provider_store.go:173-213 | every column of the source's rows holds its field of the last-wins user or group: the trimmed mail or else the trimmed principal name, empty values as NULL, disabled and missing users as tombstones |
| `ProviderSync.SyncFrames` | internal/directory/provider_store.go:125-248 | identity, passwords, API keys, direct roles and other sources' rows stay; links go exactly with the groups the sync deleted |
| `SyncRuns.SyncKeepsValid` | internal/directory/provider_store.go:14-34 | an insertable snapshot keeps every table constraint |
| `SyncRuns.OpKeepsIdentity` | internal/directory/user_store.go:218-377 | a sync, update or delete keeps the constraints and every provider row's id, source and external id |
| `SyncRuns.UpdatedUser` | internal/directory/user_store.go:218-251 | an update of an active user with known roles sets a local user's name and password, leaves a provider user's row, makes the direct roles exactly the given ones, and touches no one else |
| `SyncRuns.DeletedUser` | internal/directory/user_store.go:341-377 | a delete removes a local user with its links and tombstones a provider user, and touches no one else |
| `SyncRuns.IdentityIsStable` | internal/directory/provider_store.go:160-215 | over any run the row id of a provider identity never changes and is never given to another |
| `SyncRuns.LastSyncDecides` | internal/directory/provider_store.go:14-34 | the source's view depends on the last snapshot alone, whatever ran before |
| `SyncRuns.GroupOutlives` | internal/directory/provider_store.go:149-157 | a group row outlives a sync exactly when it is not the source's or the snapshot still has it |
| `SyncRuns.SyncOpensLocation` | internal/checkin/store.go:566-573 | a sync opens a location to every active user exactly when it leaves none of the groups it listed |
| `SyncRuns.SyncCanOpenLocation` | internal/checkin/store.go:566-573 | an empty snapshot deletes the one group a location lists, and an active outsider becomes eligible there |
| `SyncRuns.EligibleAfterSync` | internal/checkin/store.go:566-573 | at a location whose groups are a non-empty part of the snapshot's, the source's people eligible afterwards are exactly the last-wins enabled users naming a listed group |
| `DirectoryStore.Store.UpsertStagedUser` | internal/directory/provider_store.go:173-213 | one row of the upsert, and the unique indexes checked against the other rows decide whether any two rows clash |
| `DirectoryStore.Store.UpsertStagedUsers` | internal/directory/provider_store.go:173-213 | the row loop fails exactly when two staged users cannot be active together |
| `DirectoryStore.Store.ReconcileGroups` | internal/directory/provider_store.go:125-158 | upsert, then delete with its cascades |
| `DirectoryStore.Store.ReconcileUsers` | internal/directory/provider_store.go:160-215 | tombstone, then upsert; succeeds exactly on a distinct snapshot |
| `DirectoryStore.Store.ReconcileMemberships` | internal/directory/provider_store.go:217-248 | delete the source's internal memberships, then insert the staged ones |
| `DirectoryStore.Store.Reconcile` | internal/directory/provider_store.go:26-32 | groups, users, memberships in turn; stopped exactly by a snapshot whose users cannot be active together |
| `DirectoryStore.Store.ApplyProviderSnapshot` | internal/directory/provider_store.go:14-34 | refuses the local source; otherwise commits exactly the insertable snapshots, leaving the snapshot's view, every column as the snapshot says and valid tables, and rolls everything back with the database's own error |
| `DirectoryStore.Store.ReplaceUserRoles` | internal/directory/roles.go:117-128 | the user's direct roles become the given ones exactly when all of them exist |
| `DirectoryStore.Store.UpdateUser` | internal/directory/user_store.go:218-251 | name and password of local users only, roles of any active user, all or nothing; an unknown role is not found |
| `DirectoryStore.Store.DeleteUser` | internal/directory/user_store.go:341-377 | local users go with their links unless a check-in still references them, which reads as not found; provider users become tombstones |
| `Roles.IndexUsers` | internal/directory/roles.go:37-44 | the map points at the last element with each id, and every list is emptied |
| `Roles.AttachUserRoles` | internal/directory/roles.go:33-82 | the last element of each id has its rows' roles in row order, the direct ones apart; other copies stay empty |
| `Roles.ListsInOrder` | internal/directory/roles.go:68-80 | both lists follow the row order: a row adds its role for its user, to the direct list if it is direct, behind the rows before it |
| `Roles.AttachedRoles` | internal/directory/roles.go:45-63 | EffectiveRoles are the direct and inherited roles, each once; Roles are exactly the direct part of them |
| `Roles.ReadRoleValues` | internal/directory/user_store.go:443-453 | the numeric values in order, and whether "none" was asked for |
| `Roles.RoleFilterSql` | internal/directory/user_store.go:443-471 | the clause, with its one array argument used twice, says: some role among the ids, or no role at all |
| `Roles.FilterIsReadable` | internal/directory/user_store.go:454-470 | the clause determines the ids and the "none" it was made from |
| `Roles.FilterAgreesWithLists` | internal/directory/user_store.go:429-471 | the filter matches a user exactly when a requested id is among EffectiveRoles, or "none" was requested and EffectiveRoles is empty |
| `Roles.FilterReads` | internal/directory/user_store.go:454-470 | the clause, read with its two array positions apart, holds of a user exactly when some direct or inherited role is among the ids, or none was asked for and there is none |
| `Roles.FilterSelects` | internal/directory/user_store.go:443-471 | from the requested values: the clause matches a user exactly when a value is the id of one of its EffectiveRoles, or "none" is a value and it has none |
| `Roles.ReplacePermissions` | internal/rbac/store.go:130-149 | fails exactly on an unknown access; otherwise the role's rows are the given ones without None, in any map order, and other roles' rows are untouched |
| `Roles.ReplacedReadsBack` | internal/rbac/store.go:151-185 | reading a role back gives what was written without None; other roles read as before |
| `Roles.GrantsAreEffective` | internal/rbac/store.go:188-200 | the rows of the grants query, decoded, are as a set the stored permissions of the effective roles |
| `Roles.Grants` | internal/rbac/store.go:188-222 | fails exactly on a stored level that does not decode; otherwise returns, as a set, the stored permissions of the direct and inherited roles |
| `Roles.GrantsAgreeWithLists` | internal/rbac/store.go:188-222 | those are exactly the stored permissions of the roles in the user's attached EffectiveRoles |
| `Eligibility.LocationMeansEligible` | internal/checkin/store.go:566-573 | the clause, read back with its placeholders bound, is eligibility at the location |
| `Eligibility.EligiblePeopleWhere` | internal/checkin/store.go:566-573 | the shared builder says: active, and the location open or a listed group joined |
| `Eligibility.PersonEligible` | internal/checkin/store.go:554-564 | true exactly for an eligible person |
| `Eligibility.ListPeople` | internal/checkin/store.go:595-599 | the roster is exactly the eligible people |
| `Eligibility.ListEligiblePeople` | internal/checkin/store.go:575-587 | the picker is the eligible people that match the search, all of them without one |
| `SortTokens.ParsersAgree` | web/src/components/data-table/sorting.ts:13-36 | for every string the client reads an item exactly when the server reads that column with a non-empty id, and otherwise nothing |
| `SortTokens.SortRoundTrip` | web/src/components/data-table/sorting.ts:8-36 | printing and parsing gives the first column back exactly for printable ids on the client, and exactly for printable or empty ids on the server |
| `SortTokens.ServerReads` | internal/postgres/list_query.go:150-172 | a blank sort is none, a comma is refused, and otherwise the column read is the one the token names: an id with `.asc` or `.desc` behind it, or a bare id ascending |
| `Ordering.OrderBy` | internal/postgres/list_query.go:113-143 | a blank sort gives the default order, a comma is refused, a named column is accepted exactly when allowed and then leads the clause in the direction asked for with its own null placement; no expression comes twice |
| `Ordering.AcceptedIff` | internal/postgres/list_query.go:122-129 | what the requested part of the clause is, for every token |
| `Ordering.NamedColumnLeads` | internal/postgres/list_query.go:122-137 | the named column stays in front when the default order is appended |
| `Ordering.PartsAre` | internal/postgres/list_query.go:131-137 | the default order is each default expression in turn, in its own direction and null placement |
| `Ordering.CompleteKeepsOrder` | internal/postgres/list_query.go:131-137 | skipping used columns leaves the row order that of the requested column followed by the whole default order |
| `Ordering.CompleteUses` | internal/postgres/list_query.go:131-137 | the completed clause uses exactly the requested and the default expressions |
| `Ordering.BeforeTransitive` | internal/postgres/list_query.go:113-143 | the printed clause orders rows transitively, NULLs included |
| `Ordering.BeforeAsymmetric` | internal/postgres/list_query.go:113-143 | no two rows each come before the other |
| `Ordering.BeforeTotal` | internal/postgres/list_query.go:113-143 | with an expression that tells rows apart, any two rows are ordered |
| `Ordering.CompletedDistinguishes` | internal/postgres/list_query.go:113-143 | if the default order has such an expression, so has the clause for every accepted sort token |
| `QueryBuilder.BindStable` | internal/postgres/list_query.go:61-64 | arguments registered later leave every earlier clause meaning what it meant |
| `QueryBuilder.FormatMeansFill` | internal/postgres/list_query.go:53-59 | a formatted clause, its placeholders bound, says the format with each value in the place of its verb |
| `QueryBuilder.FillInOrder` | internal/postgres/list_query.go:53-59 | what the caller of Addf says, piece by piece: the text as it stands and the next value for each verb |
| `QueryBuilder.BuildPreservesMeaning` | internal/postgres/list_query.go:46-71 | after any sequence of Arg, Add and Addf a row passes the built WHERE exactly when it satisfies every condition as it was stated |
| `QueryBuilder.WhereBuilder.Add` | internal/postgres/list_query.go:46-51 | a non-empty clause is appended with its meaning over the arguments so far |
| `QueryBuilder.WhereBuilder.Arg` | internal/postgres/list_query.go:61-64 | the new argument is denoted by the returned placeholder and disturbs no clause |
| `QueryBuilder.WhereBuilder.Addf` | internal/postgres/list_query.go:53-59 | the appended clause says the format filled with the given values |
| `QueryBuilder.WhereBuilder.Build` | internal/postgres/list_query.go:66-71 | the clauses and arguments returned still mean what was said when they were added |
| `Listing.Build` | internal/postgres/list_query.go:73-92 | accepts exactly valid pages and sort tokens; a named column leads the order in its direction; limit and offset denote page size and page offset, earlier clauses keep their meaning, and the product fits 64 bits |
| `Listing.RequestedPage` | internal/api/response.go:108-119 | a wire request is valid exactly for sizes up to 1000, zero meaning the default, and what the server skips is the pages before the one asked for, none meaning the first |
| `Listing.AnswerLength` | internal/postgres/list_query.go:73-92 | every answer is as long as the set of rows it selects |
| `Listing.ServedPage` | internal/postgres/list_exec.go:10-36 | what the built query and the count query return is a page of one answer over the rows passing the WHERE, and the count is the length of that answer |
| `Listing.AnswerUnique` | internal/postgres/list_query.go:113-143 | with an order that tells rows apart the database has one possible answer |
| `Listing.PagesArePrefix` | internal/postgres/list_query.go:82-91 | the first k pages are the first k times the page size rows, in order |
| `Listing.PagesCover` | internal/postgres/list_query.go:82-91 | enough pages are the whole answer, as long together as the count served with each of them |
| `Listing.PagesDisjoint` | internal/postgres/list_query.go:82-91 | no row is on two pages |
| `Listing.OneAnswer` | web/src/lib/pagination.ts:15-28 | though each page is a separate query, for every accepted sort token all of them come from one answer in the order asked for, if the default order tells the selected rows apart |
| `Listing.LastPage` | web/src/lib/pagination.ts:19-20 | the rounded-up page count reaches the end, and at most one page means the first is all |
| `Listing.LeadingTermSorts` | internal/postgres/list_query.go:113-143 | an answer is sorted by the leading term of its clause: ranks no smaller ascending, no larger descending, NULLs where the term puts them |
| `Listing.AnswerAsAsked` | internal/postgres/list_query.go:113-143 | so an answer is in the order its sort token names, and without one in the default order |
| `Listing.CollectAllPages` | web/src/lib/pagination.ts:15-28 | from the list query through the built queries, the counts and the pages: over unchanged rows the reassembled list is exactly the selected rows, sorted by the column named in the direction named |
| `ControlConnection.StepKeepsInv` | app/WoodGate/State/ModelData.swift:402-465 | every segment between suspensions keeps the fence invariant |
| `ControlConnection.FieldsAreCurrent` | app/WoodGate/State/ModelData.swift:402-465 | across all suspensions the control task is the only live task, belongs to the current generation, and the control socket is its socket |
| `ControlConnection.NoSocketLeaks` | app/WoodGate/State/ModelData.swift:421-465 | a socket is open exactly when it is the control socket: every other one has been cancelled |
| `ControlConnection.SupersededIsHarmless` | app/WoodGate/State/ModelData.swift:421-465 | whatever a superseded task does next, its catch and defer touch nothing of the newer connection, its own socket is already cancelled, and it ends |
| `ControlConnection.StopThenStart` | app/WoodGate/State/ModelData.swift:402-419 | pairing again leaves the new task the only live one and the old socket cancelled |
| `ControlConnection.CurrentConnects` | app/WoodGate/State/ModelData.swift:431-438 | the control task, new or waiting after a failure, opens a socket, makes it the control socket and sends presence; without pairing or a client it ends, and when opening fails it waits |
| `ControlConnection.CurrentDrops` | app/WoodGate/State/ModelData.swift:451-463 | a send or receive that fails closes the socket and leaves the control task waiting to try again |
| `ControlConnection.CurrentReads` | app/WoodGate/State/ModelData.swift:440-450 | hello is answered, a changed configuration refreshed, anything else read past, and nothing else changes |
| `ControlConnection.DroppedReconnects` | app/WoodGate/State/ModelData.swift:431-463 | a dropped connection comes back: the same task is connected on a new socket |
| `ControlConnection.FirstConnects` | app/WoodGate/State/ModelData.swift:402-438 | from nothing, a session, a pairing and a start reach a connected state |
| `ControlConnection.StartsIff` | app/WoodGate/State/ModelData.swift:402-411 | starting takes effect exactly without a control task and with session and pairing |
| `ControlConnection.Stops` | app/WoodGate/State/ModelData.swift:413-419 | stopping leaves no live task, no open socket and a newer generation |
| `ControlConnection.ModelData.Start` | app/WoodGate/State/ModelData.swift:402-411 | a new generation and task, unless one runs or session or pairing is missing |
| `ControlConnection.ModelData.Stop` | app/WoodGate/State/ModelData.swift:413-419 | the generation moves on, task and socket are cancelled and forgotten |
| `ControlConnection.ModelData.LeaveScope` | app/WoodGate/State/ModelData.swift:423-429 | the deferred block: own socket cancelled, fields cleared only while current |
| `ControlConnection.ModelData.HandleError` | app/WoodGate/State/ModelData.swift:451-457 | the catch block up to its sleep or its return |
| `ControlConnection.ModelData.RunLoop` | app/WoodGate/State/ModelData.swift:431-438 | the outer loop from its test to its first suspension |
| `Memberships.ApplyMembershipBatch` | internal/directory/entra/client.go:193-246 | fails exactly when a request fails; otherwise every request is visited once, in some order, its groups appended and its next link followed up |
| `Memberships.FollowupCounts` | internal/directory/entra/client.go:238-243 | a follow-up is asked for exactly as often as the page before it was visited |
| `Memberships.CollectedOnce` | internal/directory/entra/client.go:222-237 | wherever in the visiting order it comes, a user gains its page once |
| `Memberships.CollectedElements` | internal/directory/entra/client.go:222-237 | however often it is visited, a user gains as a set its page's elements |
| `Memberships.FlattenInOrder` | internal/directory/entra/client.go:235-237 | a user's pages follow one another in chain order |
| `Memberships.RoundStep` | internal/directory/entra/client.go:181-187 | one round takes what is pending, fetched and collected from page k to page k + 1 |
| `Memberships.FetchUsersGroupIds` | internal/directory/entra/client.go:171-189 | terminates; fails exactly when some page of some user fails; otherwise every page is fetched once per listed user and each user has its pages, in chain order when users are distinct and as a set always |
| `EntraSync.Fetch` | internal/directory/entra/client.go:62-83 | fails exactly when a membership request fails; otherwise the snapshot has the listed groups and users, each user with exactly the groups of its chain |
| `EntraSync.SnapshotIsGraph` | internal/directory/entra/client.go:74-82 | whatever order the chains were fetched in, the snapshot shows the last-wins users, the groups, and the users' chains as sets restricted to those groups |
| `EntraSync.Sync` | internal/directory/entra/service.go:47-74 | succeeds exactly when every request is answered and the listed users can be active together; then the source's users, groups and memberships, column by column, are what Graph says, otherwise the directory is as it was |

## Left out

- ApplyProviderSnapshot: the unique index is checked after each row of the upsert, as PostgreSQL does; that `UNIQUE (source, external_id)` and the sequence never fail, and the timestamp columns, are not modelled.
- CreateStation: whether the location exists is a parameter of the mutation, here and in UpdateStation; `requireLocation` in the service asks the same before the transaction.
- UpdateStation: what the read-back finds is a parameter: the committed row, a later state of the station, or an error.
- DeleteUser: whether a check-in still references a local user is a parameter.
- ReplaceUserRoles: takes a set, because `normalizeRoleIDs` has already sorted and compacted the ids; that helper and `replaceGroupRoles` would add easy members.
- NoOrphanSockets: the closes still pending after a critical section are one shared set, not one per caller, so the model does not say who performs them.
- AttachUserRoles: stated for any slice, though every caller passes rows with distinct ids. The order of the query's rows (builtin roles first, then by name) is not modelled; the lists keep whatever order the rows have.
- SortRoundTrip: leaves out Unicode whitespace beyond the six characters named above, where the two trims differ, and an undefined search value in the client.
- SessionLocks.StepKeepsInv: a statement that would wait for a unique index entry of an uncommitted row is simply not enabled; which of the two wins is not modelled.
- HubSystem.StepKeepsInv: each store transaction is one step here; `SessionLocks` is where it is split.
- Addf: a format with a different number of verbs than values, for which Go prints a marker into the SQL text.
- RoleFilterSql: `strconv.ParseInt` is a parameter; the text between placeholders stands for the SQL it names.
- FetchUsersGroupIds: building a request, a batch response that is missing and Graph's splitting of large batches are the same failure of a request.
- Sync: the paging of the user and group lists, the result's duration and the log line.
- StateAt: the version and protocol number shown beside the status.
- FieldsAreCurrent: a refresh in flight while bootstrap or forgetPairing runs, and the contents of the session, are not part of the fence.
- The location a connection is filed under may be stale when a station moves between authentication and registration, `hello` need not be the first message, and a hub's map may hold a connection other than the owner of the session row; the code does not prevent these and nothing here claims otherwise.
- HTTP, WebSocket framing, JSON, logging, configuration loading, the OpenAPI registration and the user interfaces.
- The permission-combining rule, attachments and object storage, background jobs and the advisory lock of the sync: their libraries are not part of the repository.
- Creating users and accounts, password and API key setters, role assignment by email, the accounts list, and role CRUD other than permissions: they would only add easy members.
- `ILIKE`, collation and `lower()`: order expressions and clauses are abstract.
- Check-in, location and app-key tables beyond the location groups eligibility reads.
