# HoloMUSH protocols in Dafny

HoloMUSH is a MUSH server written in Go. This project models the parts of it in which
several operations, processes or files have to agree with each other, and proves what
every run of them keeps:

| files | what they model |
|---|---|
| `CharacterDb`, `GuestProtocol`, `InterleavedReap`, `CharacterRuns`, `CharacterServices`, `GenesisRun`, `GuestCreation` | guest character genesis and reaping: a transition system in which any number of genesis transactions, reap runs, edits and failures interleave; the same services statement by statement on one store; guest creation with its compensation |
| `ClusterRegistry`, `ClusterService`, `ClusterProperties`, `ClusterPeers`, `ClusterPills` | the cluster membership registry: heartbeats, byes, sweeps, probes and pills |
| `TextRuns`, `CommandWords`, `AliasGraph`, `AliasCache`, `AliasResolution` | the alias cache: cycle-checked updates of a player-over-system overlay, and resolution as head rewriting |
| `RateLimiting` | the per-session token bucket with eviction |
| `AuditWal` | the audit log's WAL fallback and replay |
| `KeyfileProvisioning` | first-boot creation of the key file by any number of processes |
| `TextLines`, `MarkedRegions`, `MarkedFills`, `InvariantTables`, `TableCells`, `TableColumns`, `InvariantsRender` | regeneration of the marked regions of `invariants.md` |
| `ContentRouting` | merged and paged listing over several content backends |

Concurrent protocols are total step functions over a state: an action that is blocked or
does not apply leaves the state as it is, so that every sequence of actions is a run and
the theorems quantify over all of them. Objects whose methods change fields are classes.
The methods of the registry, the alias cache, the limiter and the audit logger are proved
equal to one step each; `Create` and `ensureKeyfile`, which take several steps, are tied
to runs of theirs by `GenesisRun.CreateIsRun` and `KeyfileProvisioning.EnsureIsRun`, and
`DeleteGuestPlayer` shares its effect with `GuestProtocol.QuietReapRuns`. External calls
may fail; which ones do is an argument.

## What the proofs found

- `EnsureNotReaping` passes when the player row is missing. If the row appears between
  that guard and the insert, a reap can delete the player with the character uncounted,
  and the foreign key removes a character that has no tombstone
  (`GuestProtocol.EarlyGenesisCanCascade`). A genesis is safe from this exactly when its
  player has been created before it begins (`GuestProtocol.SafeIffPlayerFirst`), as
  `CreateGuest` does.
- `SetSystemAlias`, `RemovePlayerAlias` and a validated player load can close a loop in a
  player's overlay (`AliasCaching.SystemUpdateCanCloseLoop`, `RemovalCanCloseLoop`,
  `PlayerLoadCanCloseLoop`); the exact conditions are `SetSystemKeepsOverlayIff`,
  `RemovePlayerKeepsOverlayIff` and `LoadPlayerKeepsOverlayIff`. Aliases stored under the
  zero player id blind the system check (`ZeroPlayerBlindsCheck`); what it misses is
  `SetSystemKeepsSystemIff`.
- Joining two accepted chains is accepted, and resolution then stops at a word that is
  still an alias (`AliasResolution.AcceptedChainCanExceedBound`). It is complete exactly
  when the chain ends within ten hops (`ResolutionCompleteIff`), and an accepted system
  alias keeps all chains within the bound exactly when every alias that leads to it
  leaves enough hops (`AliasCaching.SetSystemKeepsBoundIff`).
- A poison pill announces `left` even for a target that is not a member
  (`ClusterProperties.StrangerCanBeAnnounced`, exactly when: `LeftNamesPeerIff`).
- An append through a WAL handle that a partial replay has made stale is acknowledged and
  lost, and a line appended behind an unfinished one is glued to it; the exact condition
  is `AuditWal.AckedAppendIff`, losing runs are `AuditWal.StaleHandleLoses` and
  `GluedLineLoses`.
- A key-file placeholder whose creator crashed or failed to generate a key is never
  cleared, and no later boot succeeds (`KeyfileProvisioning.AbandonmentHappens`,
  `AbandonedForever`). These are exactly the worlds without a way back (`StuckIff`); what
  a lone boot does in each is `SoloBootIff`.
- `Render` is documented as idempotent. It is not when the tables region encloses the
  scope index (`InvariantsRender.NestedRendersOnce`), nor when a scope name carries an END
  marker on a line of its own (`MarkedNameNeverSettles`). A name that carries the BEGIN
  marker of the tables makes them swallow the prose in front of them
  (`OpeningNameSwallows`). `RenderAgainIff` says for every registry and document exactly
  when a rendered document renders to itself, `RenderIdempotentIff` the same for generated
  text without markers. A pipe in an id or a scope name adds a column to its row
  (`TableColumns.RowColumnsIff`, `ScopeRowColumnsIff`).
- A listing's copy of an item need not be the one that `Get` returns: `FileStore` lists
  items without their body (`ContentRouting.ListedCopyCanLackBody`). List and Get use the
  same backend exactly under `SourcesAgreeIff`.
- A cursor whose key is gone restarts a content listing from the front
  (`ContentRouting.CursorContinuesIff`).
- Limiter eviction is invisible exactly when `maxAge` times the rate covers the burst
  capacity (`RateLimiting.EvictionUnobservableIff`).

## Model

| member | source | states |
|---|---|---|
| `GuestProtocol.FeedIsLawful` | internal/auth/character_reaping.go:239-276 | In every run each character's feed is empty, genesis, or genesis then one deletion; a row has genesis only; a genesis-only feed without a row was cascaded, and only a character begun before its player existed ever is |
| `GuestProtocol.CascadeOnlyTakesEarly` | internal/auth/character_reaping.go:194-230 | When a reap is about to delete the player row, the player owns no character other than ones begun before the player existed |
| `GuestProtocol.PlayersFirstNeverCascade` | internal/auth/character_genesis.go:162-195 | If callers create the player before asking for a character, no run cascades, and a row exists exactly when its feed is genesis only |
| `GuestProtocol.PlayersFirstNeverEarly` | internal/auth/character_genesis.go:162-195 | Such callers never begin a genesis for a player that does not exist yet |
| `GuestProtocol.SafeIffPlayerFirst` | internal/world/postgres/reaping_guard.go:63-83 | At any point of any run, a genesis begun now is safe from the cascade whatever follows, exactly when its player has been created by now |
| `GuestProtocol.EarlyGenesisCanCascade` | internal/world/postgres/reaping_guard.go:63-83 | A run in which the guard's missing-row branch lets the cascade remove a character without tombstone |
| `GuestProtocol.RunKeepsInv` | internal/auth/character_genesis.go:162-195 | Every interleaving keeps identifiers, feeds, row locks, marks and listings consistent |
| `GuestProtocol.MarkIsFinal` | internal/auth/postgres/player_repo.go:347-370 | From the mark on: the mark stays while the row does, the feed only grows, and the player gains no character but early ones |
| `GuestProtocol.QuietReapFinishes` | internal/auth/character_reaping.go:194-230 | After any history, a reap in one stretch without failure or open genesis of the player deletes the player, exactly its characters with their bindings and properties, tombstones each, cascades to nothing, and leaves every other row as it was |
| `InterleavedReap.InterleavedReapFinishes` | internal/auth/character_reaping.go:194-230 | The same among other activity: with any actions in between that spare the player's rows and this run, the reap deletes the player, its characters are gone with everything attached and tombstoned, and none is cascaded |
| `InterleavedReap.OwnStepsGoThrough` | internal/auth/character_reaping.go:213-230 | From any point of such a reap its own steps alone carry it through |
| `InterleavedReap.GoneStays` | internal/auth/character_reaping.go:239-276 | A reaped character never comes back, nor does anything attached to it, whatever happens later |
| `GuestProtocol.QuietReapRuns` | internal/auth/character_reaping.go:194-230 | The undisturbed reap, step by step, reaches the database that marking, reaping all and deleting would |
| `GuestProtocol.ReapedEffect` | internal/auth/character_reaping.go:194-230 | The net effect of an undisturbed reap on every table |
| `GuestProtocol.CommitKeepsCovered` | internal/auth/character_genesis.go:170-194 | A genesis that commits under the row lock cannot slip past a listing |
| `GuestProtocol.ListingIds` | internal/world/postgres/character_repo.go:175-192 | A complete listing names exactly the player's characters |
| `CharacterRuns.ReapNextIff` | internal/world/postgres/character_repo.go:121-153 | A listed character is taken exactly when its row is stored at the listed version: the row and what hangs off it go and one tombstone is appended; else the database stays and the run ends |
| `CharacterRuns.EditEndsReap` | internal/auth/character_reaping.go:213-220 | An edit between listing and delete bumps the version; the delete then leaves the database of the edit and the run ends |
| `CharacterRuns.EditedStaysNewer` | internal/world/postgres/character_repo.go:121-153 | In every run a character that is newer than its listing stays newer while its row is there |
| `CharacterRuns.CommitWrites` | internal/auth/character_genesis.go:162-195 | What a genesis commits on every table: the row at version 1, the binding exactly when asked for, the genesis envelope of the owner |
| `CharacterRuns.BoundWhileThere` | internal/auth/character_genesis.go:181-186 | In every run a character whose genesis was begun with a binding has it for as long as its row exists |
| `CharacterDb.ReapAllEffect` | internal/auth/character_reaping.go:213-220 | Reaping a list removes exactly those rows and what hangs off them, and appends one tombstone each in order |
| `CharacterServices.CharacterStore.Create` | internal/auth/character_genesis.go:162-195 | On the tables: the row at version 1, the binding exactly when a reason is given, and the genesis envelope, together or not at all; when it succeeds, and which error each refusal gives |
| `GenesisRun.CreateIsRun` | internal/auth/character_genesis.go:162-195 | A call of Create is a run of the protocol's begin, guard, insert, envelope and commit, given up at the first fault |
| `CharacterServices.CharacterStore.ReapCharacter` | internal/auth/character_reaping.go:239-276 | On the tables: the row, its bindings and properties go and one tombstone is appended, or nothing changes; not found without the row, concurrent edit when the stored version is not the given one |
| `CharacterServices.CharacterStore.ListByPlayer` | internal/world/postgres/character_repo.go:175-192 | Lists every character of the player once, at its stored version |
| `CharacterServices.CharacterStore.ReapCharacters` | internal/auth/character_reaping.go:213-220 | Reaps a prefix of the list, all of it on success; succeeds when nothing fails and nothing was disturbed |
| `CharacterServices.CharacterStore.DeletePlayerRow` | internal/auth/postgres/player_repo.go:331-345 | Deletes the row with its foreign-key cascades |
| `CharacterServices.CharacterStore.DeleteGuestPlayer` | internal/auth/character_reaping.go:194-230 | On success the player and all its characters are gone and tombstoned; an abort keeps the mark and exactly the tombstones so far; a run without failures always finishes |
| `GuestCreation.GuestService.AcquireUniqueName` | internal/auth/guest_service.go:218-243 | Holds exactly the returned name and no other: the first free draw before any failing one within ten; exhaustion exactly when ten draws are taken |
| `GuestCreation.GuestService.CleanupGuestPlayer` | internal/auth/guest_service.go:207-212 | Leaves what a finished or an aborted reap leaves |
| `GuestCreation.GuestService.CreateGuest` | internal/auth/guest_service.go:115-196 | Returns a guest exactly when no call fails and a name is found; then its player, character, binding and genesis are there and its name is held. On failure no name is, and with a clean cleanup no row of the guest remains and a committed genesis has its tombstone |
| `GuestCreation.CleanedVanishes` | internal/auth/guest_service.go:207-212 | A cleanup that succeeds restores every table, and pairs a committed genesis with its tombstone |
| `GuestCreation.UncleanedOrphans` | internal/auth/guest_service.go:198-212 | A cleanup that gives up leaves the player row, and the feed still agrees with the character row |
| `GuestCreation.ListingOfAtMostOne` | internal/auth/guest_service.go:115-196 | A guest that owns at most one character is listed with at most that one |
| `ClusterRegistry.Defaults` | internal/cluster/types.go:139-156 | Which numbers replace values that are not positive; positive ones are kept |
| `ClusterService.Registry.constructor` | internal/cluster/registry.go:102-131 | A new registry knows itself, alive, and nothing else |
| `ClusterService.Registry.HandleAlive` | internal/cluster/heartbeat.go:306-385 | A first heartbeat joins its sender with the start time, version and stamps it tells; a later one with that start time refreshes its times; foreign, own and duplicate-id heartbeats change nothing |
| `ClusterService.Registry.HandleBye` | internal/cluster/heartbeat.go:388-410 | One bye step, announced only for a known peer |
| `ClusterProperties.TriggeredAreOwnPoisons` | internal/cluster/heartbeat.go:434-445 | In every run the pill action is triggered once for each poison of this cluster, in order, and by nothing else |
| `ClusterService.Registry.SweepEvictions` | internal/cluster/heartbeat.go:463-481 | Removes exactly the expired peers and announces each once, in map order |
| `ClusterService.Registry.DropExpired` | internal/cluster/heartbeat.go:463-475 | The locked walk finds exactly the expired peers, each once |
| `ClusterService.Registry.ClaimPill` | internal/cluster/probe_pill.go:61-91 | Refuses self, and a key whose last claim is less than the rate limit ago; admits and records every other claim |
| `ClusterService.Registry.FinishProbe` | internal/cluster/probe_pill.go:97-192 | A reply refreshes, an error changes nothing, silence publishes one poison and evicts |
| `ClusterService.Registry.LiveMembers` | internal/cluster/registry.go:204-214 | Lists the live members, as many as the live count |
| `ClusterService.Registry.LiveCount` | internal/cluster/registry.go:226-236 | The number of live members |
| `ClusterProperties.SelfAlwaysLive` | internal/cluster/registry.go:125-128 | In every run self is live, everyone known is live, the live count is one plus the peers, and no pill targets self |
| `ClusterProperties.CallbacksRebuildPeers` | internal/cluster/registry.go:257-276 | Folding the callbacks from any point on rebuilds exactly the peer set |
| `ClusterProperties.NoJoinTwice` | internal/cluster/heartbeat.go:347-385 | Between two joins of one id there is a left |
| `ClusterProperties.LeftNamesPeerIff` | internal/cluster/probe_pill.go:160-192 | A left callback names a peer, except exactly when a pill was issued for a stranger |
| `ClusterProperties.StrangerCanBeAnnounced` | internal/cluster/probe_pill.go:160-192 | From a new registry, an unanswered probe of an unknown id announces that it left |
| `ClusterProperties.StepErases` | internal/cluster/heartbeat.go:306-385 | Each step commutes with forgetting the remote publication stamps |
| `ClusterProperties.RemoteClocksDoNotMatter` | internal/cluster/heartbeat.go:306-385 | Runs whose heartbeats differ only in publication stamps agree on members, statuses, local times, callbacks, claims and pills |
| `ClusterProperties.HeartbeatTimeIsLastHeard` | internal/cluster/heartbeat.go:347-385 | The stored heartbeat time is the last time the member was heard |
| `ClusterProperties.HeardPeersStay` | internal/cluster/heartbeat.go:463-481 | A peer heard from within the eviction span before every sweep is never timed out |
| `ClusterProperties.NoLongSilentPeer` | internal/cluster/heartbeat.go:463-481 | After a sweep within the last interval no peer is silent for more than EvictAfterMissed + 1 intervals |
| `ClusterProperties.IdentitySticks` | internal/cluster/heartbeat.go:325-385 | While a member has not left, its start time stays the first-seen one |
| `ClusterProperties.DuplicatesAreInvisible` | internal/cluster/heartbeat.go:325-346 | Heartbeats of a known id with another start time, anywhere in a run, leave the run as it is without them |
| `ClusterPeers.PeerIsWhoJoined` | internal/cluster/heartbeat.go:347-385 | In every run a peer's start time is that of the heartbeat which its last joined callback answers |
| `ClusterPeers.TimelyPeerStays` | internal/cluster/heartbeat.go:463-481 | A peer whose heartbeats tell one start time, with one within EvictAfterMissed heartbeat intervals before each sweep, is never reported as timed out |
| `ClusterPeers.TimelyPeerIsMember` | internal/cluster/heartbeat.go:306-385 | Such a peer is a member from its first heartbeat on, with that start time, unless it is dismissed or probed |
| `ClusterPills.PillRateBound` | internal/cluster/probe_pill.go:53-138 | However calls overlap, claims for one (member, reason) are PillRateLimit apart, each poison is charged to its own claim, and poisons by a time number at most 1 + (time - first claim) / PillRateLimit |
| `ClusterPills.SpacedSpan` | internal/cluster/probe_pill.go:71-91 | n spaced claims span at least n - 1 rate limits |
| `CommandWords.SplitIsFirstWord` | internal/command/alias.go:670-683 | The split takes off exactly the first word of the line and keeps the others |
| `CommandWords.WordsJoin` | internal/command/alias.go:574-594 | Putting a blank between two texts concatenates their words |
| `CommandWords.WordsIff` | internal/command/alias.go:670-683 | The words of a line are its longest stretches without a blank, in order, and no other list is |
| `AliasGraph.HopIsFirstWord` | internal/command/alias.go:655-664 | A hop leads to the first of the words that the alias stands for, and nowhere without any |
| `AliasGraph.AcyclicIffAllHalt` | internal/command/alias.go:187-239 | A table has no cycle exactly when every chain ends |
| `AliasGraph.UpdateKeepsAllHalt` | internal/command/alias.go:108-134 | Checking the changed alias alone keeps every chain of the table finite |
| `AliasGraph.RemoveKeepsAllHalt` | internal/command/alias.go:169-175 | Removing an alias creates no cycle |
| `AliasGraph.UpdateAcyclicIff` | internal/command/alias.go:108-134 | An update keeps a table acyclic exactly when the new target does not lead back |
| `AliasGraph.UpdateHaltsIff` | internal/command/alias.go:196-239 | After an update a chain ends within n hops exactly when enough hops are left wherever it meets the changed alias |
| `AliasGraph.MergeAcyclicIff` | internal/command/alias.go:79-88 | Merging a table into a cycle-free one keeps it cycle-free exactly when no merged alias leads back to itself |
| `AliasGraph.CycleNeverHalts` | internal/command/alias.go:200-205 | A revisited alias proves that the walk would never end |
| `AliasCaching.CheckPassesIff` | internal/command/alias.go:642-668 | The check passes exactly when no ten hops can be made |
| `AliasCaching.ValidatedIff` | internal/command/alias.go:605-668 | What a validated load accepts: no blank key or command, and no chain of ten hops |
| `AliasCaching.DetectCycleInSet` | internal/command/alias.go:642-668 | Reports a cycle exactly when the chain does not end within nine hops |
| `AliasCaching.ValidateAliasSet` | internal/command/alias.go:632-639 | Accepts a set exactly when all its chains end within the bound |
| `AliasCaching.ValidateAliasEntries` | internal/command/alias.go:605-620 | Accepts exactly the sets without blank names or commands |
| `AliasCaching.AliasCache.WouldBeCircular` | internal/command/alias.go:196-239 | Answers whether the overlay's chain from the alias fails to end within the bound |
| `AliasCaching.AliasCache.SetSystemAlias` | internal/command/alias.go:110-134 | Accepted exactly when the check passes; then the alias has the new command, whatever it had before, and nothing else changes; a rejected set leaves everything as it was |
| `AliasCaching.AliasCache.SetPlayerAlias` | internal/command/alias.go:138-167 | Accepted exactly when the check passes; then the player's alias has the new command, whatever it had before, and nothing else changes; a rejected set rolls back |
| `AliasCaching.AliasCache.RemovePlayerAlias` | internal/command/alias.go:178-185 | Removes that alias of that player only |
| `AliasCaching.AliasCache.LoadSystemAliasesValidated` | internal/command/alias.go:59-69 | Replaces the system table when both validations pass, else nothing |
| `AliasCaching.AliasCache.LoadPlayerAliasesValidated` | internal/command/alias.go:96-106 | Merges into the player's table when both validations pass, else nothing |
| `AliasCaching.SystemStaysAcyclic` | internal/command/alias.go:108-134 | From an empty cache every run of checked operations keeps the system graph acyclic |
| `AliasCaching.SetPlayerKeepsOverlay` | internal/command/alias.go:138-167 | An accepted player alias keeps that overlay acyclic; a rejected one changes no mapping of anyone |
| `AliasCaching.SetSystemKeepsOverlayIff` | internal/command/alias.go:110-134 | When exactly an accepted system alias keeps a player's overlay acyclic |
| `AliasCaching.SetSystemKeepsSystemIff` | internal/command/alias.go:110-134 | When exactly an accepted system alias keeps the system table acyclic, whatever aliases the zero player has |
| `AliasCaching.SetSystemKeepsBoundIff` | internal/command/alias.go:110-134 | An accepted system alias keeps every chain within the bound exactly when each alias that leads to it, in k hops, leaves the new command 9 - k |
| `AliasCaching.RemovePlayerKeepsOverlayIff` | internal/command/alias.go:178-185 | When exactly removing a player alias keeps the overlay acyclic |
| `AliasCaching.LoadPlayerKeepsOverlayIff` | internal/command/alias.go:96-106 | A validated player load keeps the overlay acyclic exactly when no loaded alias leads back to itself in the merged overlay |
| `AliasCaching.SystemUpdateCanCloseLoop` | internal/command/alias.go:110-134 | From the empty cache, an accepted system alias that closes a loop in a player's overlay |
| `AliasCaching.RemovalCanCloseLoop` | internal/command/alias.go:178-185 | From the empty cache, three accepted updates and a removal that closes a loop |
| `AliasCaching.PlayerLoadCanCloseLoop` | internal/command/alias.go:96-106 | From the empty cache, a validated load that closes a loop with a system alias |
| `AliasCaching.ZeroPlayerBlindsCheck` | internal/command/alias.go:118-130 | From the empty cache, an alias under the zero id lets a self-referring system alias through |
| `AliasResolution.ResolveIsRewriting` | internal/command/alias.go:564-601 | In every state resolution yields the words of at most ten head-rewriting steps |
| `AliasResolution.FinishedIsStable` | internal/command/alias.go:564-601 | A rewriting that has come to its end does not depend on the bound |
| `AliasResolution.HaltingFinishes` | internal/command/alias.go:642-668 | A chain that ends within n hops finishes rewriting within n + 1 steps |
| `AliasResolution.BoundNeverReached` | internal/command/alias.go:564-601 | For a chain that the check accepts, resolution equals rewriting with any larger bound |
| `AliasResolution.ValidatedSetIsUnbounded` | internal/command/alias.go:622-668 | For a validated set, resolution of any word is unbounded rewriting |
| `AliasResolution.ResolutionCompleteIff` | internal/command/alias.go:564-601 | Resolution equals rewriting with any larger bound exactly when the chain ends within ten hops at a word that is no alias; over any table, a chain that does not fit is cut off at a word that is still an alias, and over a cycle-free table the result then differs from one more step |
| `AliasResolution.FinishesIff` | internal/command/alias.go:564-601 | Rewriting comes to its own end within n steps exactly when the chain ends within n hops, not at an alias |
| `AliasResolution.AcceptedChainCanExceedBound` | internal/command/alias.go:110-134 | Two validated chains joined by an accepted set, reached from the empty cache, are resolved only in part (when exactly: ResolutionCompleteIff and SetSystemKeepsBoundIff) |
| `AliasResolution.ResolveMeaning` | internal/command/alias.go:368-515 | What a line means: commands are left alone, an alias is rewritten with its arguments carried along, a one-letter prefix is split off and expanded once |
| `RateLimiting.Clamped` | internal/command/ratelimit.go:104-123 | Which limits a configuration gives: defaults for values that are not positive, the minimum for rates below it, all others kept |
| `RateLimiting.RateLimiter.Allow` | internal/command/ratelimit.go:166-202 | Answers from the session's refilled level, takes one token when allowed, and stores the level either way |
| `RateLimiting.CallMeans` | internal/command/ratelimit.go:166-202 | One call on the fields: a full bucket for an unknown session, the refill since the last call up to the burst, one token spent when allowed, and the wait for the missing part of a token |
| `RateLimiting.RateLimiter.Cleanup` | internal/command/ratelimit.go:215-230 | Evicts exactly the sessions not checked since the threshold |
| `RateLimiting.EvictionUnobservableIff` | internal/command/ratelimit.go:215-230 | No caller can tell a limiter that cleans up from one that does not, exactly when maxAge times rate covers the burst |
| `RateLimiting.EvictionUnseen` | internal/command/ratelimit.go:166-230 | With clean-ups inserted anywhere, every answer is the one without them |
| `RateLimiting.EvictionSeen` | internal/command/ratelimit.go:215-230 | With a smaller maxAge, draining twice around a clean-up tells the two apart |
| `RateLimiting.WindowBound` | internal/command/ratelimit.go:166-202 | In any window one session is allowed at most burst + rate * length calls |
| `RateLimiting.Budget` | internal/command/ratelimit.go:182-194 | Allowed calls never exceed the level at the start plus the refill |
| `RateLimiting.CooldownExact` | internal/command/ratelimit.go:196-201 | The reported cooldown is the true waiting time, cut off to milliseconds |
| `RateLimiting.DenialsAreFree` | internal/command/ratelimit.go:182-201 | Denied polls do not change what the session can draw later |
| `RateLimiting.CooldownIsHonest` | internal/command/ratelimit.go:182-201 | After a denial reporting c ms and any denied polls, calls before c ms are denied and calls from c + 1 ms on are allowed |
| `AuditWal.SplitLines` | internal/audit/logger.go:480-493 | Yields the lines of a text; a last line needs no newline |
| `AuditWal.LinesOfJoin` | internal/audit/logger.go:480-493 | Lines written one by one are read back as they were |
| `AuditWal.JoinOfLines` | internal/audit/logger.go:480-493 | The lines of any text, each finished with a newline, are the text; an unfinished last line counts |
| `AuditWal.LinesAppend` | internal/audit/logger.go:480-493 | Behind a finished line, appended text adds exactly its own lines |
| `AuditWal.AuditLogger.WriteToWAL` | internal/audit/logger.go:329-354 | Opens on demand and appends through the handle, which may not be the file at the path |
| `AuditWal.AuditLogger.Log` | internal/audit/logger.go:150-199 | Returns nil exactly when the database takes the event, or it marshals and the WAL is open or opens and takes the line; what each answer leaves in the database, the files and the handle |
| `AuditWal.AuditLogger.ReplayWAL` | internal/audit/logger.go:373-451 | What a replay leaves in the database, at the path and of the handle: nothing without a WAL, the retained lines in a new file after failures, a truncated file else |
| `AuditWal.ReplaySplits` | internal/audit/logger.go:392-422 | For any lines and any failing writes, the non-empty lines are split in order into those whose events are written and those that are retained, readable or not; unreadable lines stay as they are, and the counts add up |
| `AuditWal.ReplayTraces` | internal/audit/logger.go:392-422 | Which lines are sent and which are kept: written events are the events of the one, retained lines are the other line by line |
| `AuditWal.ReplayWrites` | internal/audit/logger.go:392-422 | Written are the events of exactly the readable lines whose write does not fail, in order |
| `AuditWal.ReplayKeeps` | internal/audit/logger.go:392-422 | Kept are exactly the other non-empty lines, in order |
| `AuditWal.ReplayConserves` | internal/audit/logger.go:373-451 | The same for the files and the database of a replay that returns no error: the rewritten WAL has the retained lines in the order they had |
| `AuditWal.AckedAppendIff` | internal/audit/logger.go:329-354 | An acknowledged append makes the event durable exactly when the handle is current and the glued line reads back |
| `AuditWal.AckedNeverLost` | internal/audit/logger.go:140-199 | In every run with clean appends, each acknowledged event is in the database or in the WAL |
| `AuditWal.CurrentHandleNeverLoses` | internal/audit/logger.go:140-199 | In every run whose failing appends leave nothing behind and whose acknowledged appends go through a current handle, each acknowledged event is in the database or in the WAL |
| `AuditWal.StaleHandleLoses` | internal/audit/logger.go:424-441 | After a partial replay an acknowledged event can be lost |
| `AuditWal.GluedLineLoses` | internal/audit/logger.go:329-354 | Behind a torn append an acknowledged event is lost when the glued line does not read back |
| `KeyfileProvisioning.Keyfile.EnsureKeyfile` | cmd/holomush/kek_provision.go:56-112 | Never touches a file it did not create; which outcome and which file each failure and each state of the file give |
| `KeyfileProvisioning.RunKeepsInv` | cmd/holomush/kek_provision.go:56-112 | In every interleaving at most one boot owns the placeholder, and a sealed key is never changed |
| `KeyfileProvisioning.BootsAgree` | cmd/holomush/kek_provision.go:56-142 | A sealed key is never overwritten or removed, and all boots that come up hold the same key |
| `KeyfileProvisioning.AbandonedForever` | cmd/holomush/kek_provision.go:74-112 | An abandoned placeholder is never cleared and no boot succeeds after it |
| `KeyfileProvisioning.AbandonmentHappens` | cmd/holomush/kek_provision.go:74-112 | Runs that leave such a placeholder: a crash, a failed key generation, a failed persist with a failed removal |
| `KeyfileProvisioning.StuckIff` | cmd/holomush/kek_provision.go:56-142 | From a world on no boot ever comes up, whatever happens, exactly when the file is an abandoned placeholder |
| `KeyfileProvisioning.SoloBootIff` | cmd/holomush/kek_provision.go:56-142 | A lone boot comes up exactly when the file is sealed under its passphrase, or absent with generation permitted |
| `KeyfileProvisioning.EnsureIsRun` | cmd/holomush/kek_provision.go:56-112 | A call of ensureKeyfile is a run of the protocol's steps: whatever the other boots do, it leaves the same file and outcome |
| `TextLines.SplitJoin` | cmd/inv-render/render.go:152-176 | Joining newline-free lines and splitting again is the identity |
| `TextLines.JoinSplit` | cmd/inv-render/render.go:152-176 | Splitting a text and joining again is the identity |
| `TextLines.TrimSpaceTrims` | cmd/inv-render/render.go:125-130 | Trimming takes all white space off both ends and nothing else |
| `TextLines.TrimNewlinesTrims` | cmd/inv-render/render.go:51-51 | Trimming takes all newlines off the end and nothing else |
| `TextLines.CellNewlineFree` | cmd/inv-render/render.go:135-138 | A table cell never contains a newline |
| `InvariantTables.RenderScopeIndex` | cmd/inv-render/render.go:43-52 | The header lines and one row per scope in order, without newlines at the end |
| `InvariantTables.RenderInvariantTables` | cmd/inv-render/render.go:65-105 | The tables exactly when every entry's scope is declared, else all entries of undeclared scopes; the placeholder when there are no entries |
| `InvariantTables.NoOrphanIsDeclared` | cmd/inv-render/render.go:66-82 | There is no orphan exactly when every entry's scope is declared |
| `InvariantTables.OrphansAt` | cmd/inv-render/render.go:71-82 | The orphans are exactly the entries whose scope is not declared, in registry order |
| `InvariantTables.RenderedIff` | cmd/inv-render/render.go:66-82 | The tables are rendered exactly when every entry's scope is declared at least once |
| `InvariantTables.ShownCount` | cmd/inv-render/render.go:83-100 | Every entry is shown once per declaration of its scope |
| `InvariantTables.NothingVanishesIff` | cmd/inv-render/render.go:54-105 | The tables show the registry's entries, each as often as it holds them, exactly when every scope in use is declared once |
| `InvariantTables.TableRows` | cmd/inv-render/render.go:83-100 | Read back, the rows of the tables are the rows of the shown entries in order |
| `InvariantTables.TableOfScope` | cmd/inv-render/render.go:85-100 | Each scope with entries has one table at its place: heading with its name, header, its rows, a blank line |
| `InvariantTables.EntriesAt` | cmd/inv-render/render.go:71-79 | A scope has exactly the entries that name it, in registry order |
| `InvariantTables.TablesInOrder` | cmd/inv-render/render.go:54-105 | The rows of the rendered text, read back as lines, are those of every entry under each declaration of its scope, scopes in the order of declaration and entries in registry order |
| `InvariantTables.IndexInOrder` | cmd/inv-render/render.go:43-52 | The rows of the rendered scope index, read back as lines, are those of the scopes in order |
| `InvariantTables.BodiesAreTableLines` | cmd/inv-render/render.go:43-138 | With newline-free names and ids every generated line is empty or starts like a table, a heading or the placeholder |
| `TableCells.CellEscaped` | cmd/inv-render/render.go:132-138 | In a cell, white space collapsed, every pipe is still escaped |
| `TableCells.CellIff` | cmd/inv-render/render.go:132-138 | A cell is the one string without an unescaped pipe that, read back without the backslash before each pipe and cut at single spaces, gives the white-space separated words of its text |
| `TableColumns.PipedColumns` | cmd/inv-render/render.go:132-138 | A row of escaped cells, cut at its unescaped pipes, yields the cells |
| `TableColumns.PipedColumnsIff` | cmd/inv-render/render.go:132-138 | A row shows its cells, one to a column, exactly when every cell is escaped |
| `TableColumns.RowColumnsIff` | cmd/inv-render/render.go:94-97 | Cut at its unescaped pipes, a row has the id, a cell that shows the entry's summary, the legacy ids up to their '@' in backticks or a dash, and a cell that shows the binding or a dash when it is blank: exactly when the id has no unescaped pipe |
| `TableColumns.ScopeRowColumnsIff` | cmd/inv-render/render.go:47-50 | The same for the name, description and boundary of a scope and its name |
| `InvariantsRender.FindRegion` | cmd/inv-render/render.go:152-165 | Finds the first BEGIN and the first END after it, or tells which is missing |
| `InvariantsRender.RegionMeans` | cmd/inv-render/render.go:148-165 | A region on the text of its lines: the first line that starts with the BEGIN marker and the first line after it that is the END marker, white space aside |
| `InvariantsRender.ReplaceRegion` | cmd/inv-render/render.go:148-177 | Read as lines, the result has the body between the markers and every other line as it was |
| `InvariantsRender.Render` | cmd/inv-render/render.go:26-40 | Succeeds exactly when both regions are found and no entry is an orphan, with both regions refilled; which error comes when more than one applies |
| `InvariantsRender.Check` | cmd/inv-render/main.go:39-63 | Reports the document as current exactly when it renders to itself |
| `InvariantsRender.DisjointRender` | cmd/inv-render/render.go:20-40 | For disjoint regions and newline-free names and ids rendering succeeds, keeps every line outside of the regions, and is idempotent |
| `InvariantsRender.IndexFirstRender` | cmd/inv-render/render.go:20-40 | For any registry and a scope index in front of the tables: what comes out, and exactly when it renders to itself, which depends on the registry alone |
| `InvariantsRender.TablesFirstRender` | cmd/inv-render/render.go:20-40 | For any registry and the tables in front: every line outside of the regions stays, and exactly when the result renders to itself |
| `InvariantsRender.MarkedNameNeverSettles` | cmd/inv-render/render.go:20-40 | Registries with an END marker on a line of a scope name, for which no rendered document renders to itself |
| `InvariantsRender.OpeningNameSwallows` | cmd/inv-render/render.go:26-40 | A scope name that holds the BEGIN marker of the tables: the prose between the regions and the END marker of the scope index are lost, and the result does not render to itself |
| `InvariantsRender.OneLineNamesAreMarkerFree` | cmd/inv-render/render.go:43-105 | With newline-free names and ids no generated line is a marker of either region |
| `InvariantsRender.RenderAgainIff` | cmd/inv-render/render.go:20-40 | For every document and every registry: exactly when a rendered document renders to itself |
| `InvariantsRender.RenderIdempotentIff` | cmd/inv-render/render.go:20-40 | The same for generated lines that are no markers: exactly when the tables do not begin in front of the scope index, or an up-to-date scope index follows them |
| `InvariantsRender.NestedRendersOnce` | cmd/inv-render/render.go:20-40 | With nested regions the first render succeeds and its result cannot be rendered |
| `MarkedFills.RefillAgainIff` | cmd/inv-render/render.go:26-40 | For any sequence with two kinds of marks and any two fills, marks included: exactly when refilling the result changes nothing |
| `MarkedFills.FrontRefillIff` | cmd/inv-render/render.go:148-177 | The first region in front: what comes out and whether it stays, for any fills |
| `MarkedFills.BackRefillIff` | cmd/inv-render/render.go:148-177 | The first region behind: what comes out and whether it stays, for any fills |
| `ContentRouting.SortSorts` | internal/content/routing_store.go:66-71 | The sort yields the same keys in ascending order |
| `ContentRouting.LessIff` | internal/content/routing_store.go:153-154 | Keys are ordered by their first differing character, a proper prefix first |
| `ContentRouting.AscendingUnique` | internal/content/routing_store.go:153-159 | There is one way to sort a set of keys |
| `ContentRouting.StoreOrderUnique` | internal/content/routing_store.go:66-91 | The backend order does not depend on map iteration |
| `ContentRouting.StoreOrderMeans` | internal/content/routing_store.go:66-91 | Every routed backend and the fallback once each, by their least patterns, a fallback without a route last |
| `ContentRouting.RoutingStore.AllStores` | internal/content/routing_store.go:66-91 | Each backend once, by its first pattern, the fallback last |
| `ContentRouting.RoutingStore.Get` | internal/content/routing_store.go:107-118 | The copy of the first backend that has the key; fails exactly when a failing backend comes before it |
| `ContentRouting.GetFromIff` | internal/content/routing_store.go:107-118 | What Get answers is what the first backend in order that has the key has |
| `ContentRouting.MeetsDownIff` | internal/content/routing_store.go:107-118 | Get fails exactly when a failing backend comes before every one that has the key |
| `ContentRouting.RoutingStore.List` | internal/content/routing_store.go:133-183 | One page of the merge of what the backends list; succeeds exactly when no backend fails |
| `ContentRouting.MergeUnique` | internal/content/routing_store.go:133-159 | What the merge promises determines it |
| `ContentRouting.ListingAgreesWithGet` | internal/content/routing_store.go:107-151 | For backends that list exactly the keys they get, the listing takes each key from the backend that Get answers from; for backends that list the items they get, it shows the item that Get returns |
| `ContentRouting.ListingKeepsFirst` | internal/content/routing_store.go:139-151 | The merge keeps, of each key with the prefix, the copy of the first backend that lists it |
| `ContentRouting.ListedCopyIff` | internal/content/routing_store.go:139-151 | The listed copy is the first one in the listing of the first backend in order that lists the key |
| `ContentRouting.SourcesAgreeIff` | internal/content/routing_store.go:107-151 | For any backends, List takes a key from the backend that Get answers from exactly when the first one that lists or gets it does both |
| `ContentRouting.PageMeans` | internal/content/routing_store.go:161-183 | A page starts at the cursor's item or at the front, has as many items as there are up to a positive limit, and only a cut page has a next cursor, the key behind it |
| `ContentRouting.ListedCopyCanLackBody` | internal/content/file_store.go:206-231 | A backend that lists items without their body: same source, same keys, another item than Get returns |
| `ContentRouting.NextCursorContinues` | internal/content/routing_store.go:161-183 | A page's cursor leads to the item right after the page |
| `ContentRouting.PagesAddUp` | internal/content/routing_store.go:133-183 | Following the cursors from any page on ends and yields the rest of the merge |
| `ContentRouting.PagesAreTheMerge` | internal/content/routing_store.go:133-183 | From the empty cursor the pages are the sorted, deduplicated merge, each key in the copy of the first backend that lists it; with backends that list their keys these are exactly the keys that Get knows, from the backends it answers from |
| `ContentRouting.CursorContinuesIff` | internal/content/routing_store.go:161-171 | A cursor continues at its key exactly when the key is still there, else the listing restarts |

## Left out

- SQL and PostgreSQL: replaced by tables with atomic units of work; row locks, the pin of a foreign-key check and the cascades are modelled as the repositories' queries use them.
- The nil-character check of genesis, the default-character update of a player and session cascades: they touch no modelled table.
- Property inserts inside a running reap transaction, and the operator's own character delete: other services.
- Argon2, JSON, ULID, SHA-256 and regular expressions: abstract values; a marshalled event is assumed to be one non-empty line that reads back.
- Partial effects of `Persist`: it ends in a rename and is one step.
- The passphrase lookup and the prompt before a boot: no property of their own.
- Asynchronous audit logging, `Close` and the choice of mode in `Log`: the select may still pick the channel after shutdown has begun, so no delivery guarantee follows.
- Cluster activation, stop, tickers, message parsing, publishing, metrics and skew warnings: wiring.
- Interleaving of observer callbacks after the registry lock is released: each handler is one step, with its callbacks.
- Glob routing, `Put` and `Delete` of the content store: single calls to one backend.
- Floating-point rounding in the limiter: tokens and times are reals.
- Bytes of a character: text is a sequence of code points, and alias resolution splits off a prefix only where that is one byte, as in the source; keys that are not valid UTF-8 are not modelled.
- Readers and shadowing warnings of the alias cache, and the metrics of resolution: they change nothing.
- YAML parsing of the registry and the file writes of the renderer: input and output.
- ClusterProperties.NoLongSilentPeer: the sweeps' spacing is stated as the age of the last sweep, for every moment of a run.
