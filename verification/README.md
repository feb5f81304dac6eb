# Verification of the hotel daemon's state machines

This Dafny project models the parts of the Philotic hotel daemon (`aiua`) whose correctness spans
several calls or whole runs, and proves what they keep. `dafny verify dfyconfig.toml` checks it.

| files | what they model |
|---|---|
| `Ledger`, `LedgerSafety`, `Delivery` | the durable event ledger: two tables, the single writer thread, the dispatcher and one peer |
| `MeshAuth`, `ReplayGuard`, `Bytes` | packet signatures, the time window, the nonce table and its sweeper |
| `Framing` | length-prefixed frames over a stream that arrives in arbitrary chunks |
| `Similarity`, `Clustering`, `DreamSweep` | cosine similarity, greedy leader clustering, the nightly sweep of a vault |
| `Ports` | the search for a free run of listener ports |
| `Cron` | a cron job driven by the local ticker, which reads and later writes, by peers' broadcasts and by synced records |
| `Graph`, `Vault`, `KeyMigration`, `Provision` | config values, the vault registry, the secret store, the migration of plaintext keys, vault provisioning |
| `Membership`, `MembershipRuns`, `MembershipFaults` | acceptance of a remote hotel, and membership over whole runs, without and with failing writes |
| `RoleSeed` | reseeding of orchestrator roles |
| `RosterSignal` | the dirty-signal task that rebuilds the hotel roster |

How it is put together. Handlers that change state are classes with methods whose contracts equate the
new state with a function of the old one; the theorems are lemmas about those functions, over every run.
Failing storage calls are inputs: a record of which calls fail (`Faults`), or a budget of calls that
still succeed, which makes every crash point an input. A failed call changes nothing. Clocks,
randomness, probes, the answers of remote services, the cipher, the MAC, the signature checks, the key
agreement, the square root and `next_fire_after` are parameters, constrained only by what a lemma needs
(`Sound`, `Ideal`, `IsSqrt`, `StrictlyLater`, fresh mints and nonces).

## Where the code falls short of a plain reading

Each of these is proved, as an if-and-only-if or by a concrete run.

- The writer treats an ack as covering all lower seqs, while the dispatcher sends one event per message and
  goes on after each; a lost message followed by an acknowledged one loses its event. Order of receipt is
  exactly what is needed (`AcksAreSafeIffInOrder`, `GapLosesAnEvent`).
- An ack that runs ahead of the ledger hides the next events from the dispatcher for good (`AppendedIsPending`).
- `append_event` returns the old seq for a known event id, so its result rises exactly for new ids (`AppendRisesIff`).
- Events without a target are treated as local and never stored (`BroadcastsAreNotStored`), although the cron
  ticker's documentation (`crates/aiua/src/service/cron_ticker.rs:12`) relies on `CronFired` broadcasts reaching peers.
- Events are signed under a 64-bit seq and sent with 32 bits of it (`DispatchedValidatesIff`).
- The 60 s future allowance lets a packet in a second time after its nonce is swept, and never a third
  (`ReplayableIffFutureDated`, `NeverThreeAcceptances`).
- A failed admission removes an earlier pin (`FailureRestoresIff`); a failed last write leaves the invite usable
  by another hotel (`InviteStaysOpenIff`); a node id is not pinned to a hotel, so a join
  can replace another hotel's auth key (`JoinReplacesAuthKeyIff`, `NodeTakeoverHappens`).
- The key migration drops a plaintext key when any ref is stored, whether or not it opens (`KeySurvivesIff`).
- The provisioning loop skips a registered vault without looking at its secret, so a successful run may leave it
  without one that opens (`SuccessServesIff`).
- The ticker writes back the record it read before delivery. If a broadcast came in between, the epoch is fired twice
  (`FiredOnceIffGuarded`, `BroadcastDuringDeliveryRepeats`), and after two the schedule goes back (`StaleWriteRewindsIff`).
- A synced record is adopted unread; exactly when it waits for an epoch already fired here, one can fire again
  (`SyncRepeatsIff`). When a schedule ends, the last epoch equals the next fire time and the job is disabled.
- A failed read during a reseed loses operator settings (`FailedReadIsHarmlessIff`), and a reseed always clears
  the home node (`AddendumNeverChanges`).
- A failed roster read publishes an empty list (`QuietIsCurrentIff`); a change without a signal is not published
  if it shows at all (`SilentChangeIsMissedIff`). Only guest registration and disconnection send signals.

## Model

| member | source | states |
|---|---|---|
| `Ledger.EventStorage.AppendEvent` | crates/ansible-mesh-core/src/sqlite_storage.rs:75-138 | a new event id gets the next seq and one row; a known id yields the seq of its row and changes nothing; a failed call changes nothing; ids stay unique |
| `Ledger.EventStorage.DeleteDeliveredEvents` | crates/ansible-mesh-core/src/sqlite_storage.rs:217-224 | exactly the rows addressed to that node with seq at or below the bound go, unless the call fails |
| `Ledger.EventStorage.QueryUnackedEvents` | crates/ansible-mesh-core/src/sqlite_storage.rs:149-215 | at most `limit` seqs, ascending, all pending for the node past the cursor (broadcasts included), and none lower is skipped |
| `Ledger.CursorTracker.GetCursor` | crates/ansible-mesh-core/src/cursor.rs:35-45 | the stored ack of the node, or 0 when it has none or the read fails |
| `Ledger.CursorTracker.AdvanceCursor` | crates/ansible-mesh-core/src/cursor.rs:47-58 | upsert with the maximum of old and new ack, dated now; other nodes untouched; a failure changes nothing |
| `Ledger.LedgerWriter.Handle` | crates/aiua/src/main.rs:7851-7937 | one command of the writer loop, with any of its storage calls failing, leaves exactly the tables the specification gives |
| `Ledger.LedgerWriter.CommitBatch` | crates/aiua/src/main.rs:7871-7905 | the batch loop with its running local maximum equals the recursive batch, then the vacuum of this node's rows |
| `LedgerSafety.StepKeepsInv` | crates/aiua/src/main.rs:7851-7937 | every command, whatever fails in it, keeps the outbox invariant; log and cursors only grow and removed rows never return |
| `LedgerSafety.RunKeepsInv` | crates/aiua/src/main.rs:7848-7938 | over every run the log is 1..lastSeq, surviving rows are unaltered, and a row is gone only if it was for this node or its target's cursor reached it |
| `LedgerSafety.NoUnackedEventIsLost` | crates/aiua/src/main.rs:7848-7938 | starting from empty tables, a removed row for a remote node has seq at or below that node's cursor; a broadcast row is never removed |
| `LedgerSafety.InboundVacuum` | crates/aiua/src/main.rs:7875-7904 | after a fault-free batch nothing for this node is left under any of its ids, earlier remote and broadcast rows are intact, and every relayed event is stored |
| `LedgerSafety.BatchStoresEveryId` | crates/aiua/src/main.rs:7877-7892 | every id of the batch whose append does not fail is stored at or below the seq the vacuum uses, whatever fails before or after it |
| `LedgerSafety.CursorIsHighestAck` | crates/ansible-mesh-core/src/cursor.rs:47-58 | over any run a cursor is the maximum of its start and of every recorded ack, and is one of them |
| `LedgerSafety.AcksLeaveUncovered` | crates/aiua/src/main.rs:7906-7935 | an ack-only run leaves exactly the rows that no successful ack of the run covers |
| `LedgerSafety.AckOrderIsIrrelevant` | crates/aiua/src/main.rs:7906-7935 | the same acks in any order and multiplicity leave the same rows and cursors |
| `LedgerSafety.AppendRisesIff` | crates/ansible-mesh-core/src/sqlite_storage.rs:98-137 | an append yields a seq above all earlier ones if and only if the event id was new, and either way the seq is that of a row with this id |
| `LedgerSafety.LocalAppendIsSkipped` | crates/aiua/src/main.rs:7856-7863 | an event for this hotel, or without a target, leaves no trace |
| `LedgerSafety.LedgerGrowsIff` | crates/aiua/src/main.rs:7853-7870 | a local append changes the store if and only if the event is for another node, its id is new and the call does not fail, and then adds exactly its row |
| `LedgerSafety.AppendedIsPending` | crates/aiua/src/main.rs:7853-7870 | a new remote event takes the next seq and is visible to the dispatcher if and only if its target's cursor is not ahead of the ledger |
| `LedgerSafety.HonestAcksKeepCursorsWithinLog` | crates/aiua/src/main.rs:7906-7921 | if every recorded ack names a seq that exists, no cursor ever runs ahead of the ledger |
| `LedgerSafety.AckAheadStrandsAnEvent` | crates/aiua/src/main.rs:7906-7921 | a concrete run: an ack ahead of the ledger leaves the next event stored but never pending |
| `LedgerSafety.BroadcastsAreNotStored` | crates/aiua/src/main.rs:7853-7863 | without inbound batches everything ever stored was addressed to another node: no broadcast and no event for this hotel |
| `LedgerSafety.BroadcastsAreNeverPending` | crates/aiua/src/main.rs:7853-7863 | so whatever the dispatcher's query returns in such a run is addressed to that very node: a local broadcast never leaves |
| `Delivery.NextKeepsLinkInv` | crates/aiua/src/service/mesh_dispatcher.rs:130-211 | every write, send and receipt keeps the link invariant; coverage survives every step except an out-of-order receipt |
| `Delivery.OrderedRunsDeliver` | crates/aiua/src/service/mesh_dispatcher.rs:137-208 | while messages arrive in order, every event for the peer and every relayed broadcast has arrived or is still pending, whatever fails or repeats |
| `Delivery.CoveredLosesNothing` | crates/aiua/src/service/mesh_dispatcher.rs:137-145 | when acks cover only what arrived, a removed row arrived and a row that did not is pending |
| `Delivery.AcksAreSafeIffInOrder` | crates/aiua/src/service/mesh_runtime.rs:370-464 | all acks the peer can have sent are harmless after a receipt if and only if that receipt was in order |
| `Delivery.GapLosesAnEvent` | crates/aiua/src/main.rs:7906-7935 | a concrete run: of two messages the first is lost, the second acknowledged, and the first event's row is deleted undelivered |
| `MeshAuth.MacInputDecodes` | crates/ansible-mesh-core/src/authz.rs:26-28 | the MAC input is the id, the seq and the timestamp as 64-bit big-endian numbers, and the payload, at these places, and decodes to the packet it was made from |
| `MeshAuth.DecodesToWellFormed` | crates/ansible-mesh-core/src/authz.rs:26-28 | every string of at least 32 bytes is the MAC input of the packet it decodes to |
| `MeshAuth.MacInputIsInjective` | crates/ansible-mesh-core/src/authz.rs:22-30 | two packets with one MAC input are the same packet |
| `MeshAuth.SignatureBindsPacketAndTime` | crates/ansible-mesh-core/src/authz.rs:33-66 | under an ideal MAC a tag validates a packet if and only if it was made for it and its timestamp is at most 60 s ahead and 300 s behind |
| `MeshAuth.DispatchedValidatesIff` | crates/aiua/src/service/mesh_dispatcher.rs:177-184 | an event is signed under its 64-bit seq and sent with the low 32 bits, so it validates if and only if the seq fits in 32 bits and the time window holds |
| `MeshAuth.NonceTracker.AssertAndRecordNonce` | crates/ansible-mesh-core/src/authz.rs:94-116 | a new nonce is recorded with the clock; a known one is a replay and changes nothing; a database error is reported as such and changes nothing |
| `MeshAuth.NonceTracker.CleanExpiredNonces` | crates/ansible-mesh-core/src/authz.rs:119-130 | exactly the nonces seen more than 300 s ago go, or none if the call fails |
| `MeshAuth.NonceTracker.Admit` | crates/aiua/src/service/execution_transport.rs:111-120 | a packet is accepted if and only if it validates and its id is new and recordable; only then the table changes |
| `ReplayGuard.AdmitIsOffer` | crates/aiua/src/service/execution_transport.rs:111-120 | the guard's step relation is what validation and the nonce table do with a well-signed packet |
| `ReplayGuard.Remembered` | crates/ansible-mesh-core/src/authz.rs:94-130 | under a forward clock an accepted id stays in the table until more than 300 s have passed, whatever is swept |
| `ReplayGuard.AcceptancesAreFarApart` | crates/ansible-mesh-core/src/authz.rs:46-54 | two acceptances of one id are more than 300 s apart, the second dated after the clock of the first |
| `ReplayGuard.NoReplayOfPastPackets` | crates/ansible-mesh-core/src/authz.rs:46-54 | a packet not dated after its first acceptance is never accepted again |
| `ReplayGuard.NeverThreeAcceptances` | crates/ansible-mesh-core/src/authz.rs:46-54 | no packet is accepted three times |
| `ReplayGuard.ReplayableIffFutureDated` | crates/ansible-mesh-core/src/authz.rs:47-52 | some continuation accepts the packet again if and only if it was dated after the clock of its first acceptance |
| `Bytes.EarlierBytesWeighMore` | scripts/provision-lifegraph-mcp.py:63-63 | the number of a byte string is that of its front, shifted by the width of its back, plus that of its back: the order is big-endian |
| `Bytes.DecodeEncode` | scripts/provision-lifegraph-mcp.py:53-53 | a number that fits the width survives big-endian packing and unpacking |
| `Bytes.EncodeDecode` | scripts/provision-lifegraph-mcp.py:63-63 | bytes survive unpacking and packing, and the number is below 256 to the width |
| `Framing.SendFrame` | scripts/provision-lifegraph-mcp.py:51-53 | appends exactly one frame, or refuses a payload of 2^32 bytes or more and writes nothing |
| `Framing.RecvFrame` | scripts/provision-lifegraph-mcp.py:56-70 | however the stream is chunked, the result and the bytes taken are those of parsing the whole stream at once |
| `Framing.FrameParses` | scripts/provision-lifegraph-mcp.py:51-70 | a frame followed by anything parses to its payload and takes exactly the frame |
| `Framing.ParsedIsFramed` | scripts/provision-lifegraph-mcp.py:63-70 | a read that yields a payload consumed exactly that payload's frame |
| `Framing.TruncatedFrameRaises` | scripts/provision-lifegraph-mcp.py:60-68 | a stream that ends anywhere inside a frame raises, with the error of that place, and never yields a short payload |
| `Framing.FramesAreInjective` | scripts/provision-lifegraph-mcp.py:51-53 | two lists of payloads with the same bytes on the wire are the same list |
| `Framing.RecvFrames` | scripts/provision-lifegraph-mcp.py:56-70 | reading as many frames as were sent yields the payloads in order and leaves what follows, for every chunking |
| `Similarity.CauchySchwarz` | crates/aiua/src/dream.rs:377-379 | the square of the dot product is at most the product of the squared norms |
| `Similarity.SimilarityIsBounded` | crates/aiua/src/dream.rs:373-384 | the similarity lies in [-1, 1] |
| `Similarity.SimilarityIsSymmetric` | crates/aiua/src/dream.rs:373-384 | swapping the arguments changes nothing, length mismatch included |
| `Similarity.SimilarityIgnoresScale` | crates/aiua/src/dream.rs:373-384 | stretching a vector by a positive factor changes no similarity |
| `Similarity.SelfSimilarity` | crates/aiua/src/dream.rs:380-383 | a vector's similarity to itself is 1, or 0 exactly when it is empty or zero |
| `Similarity.SimilarityIsTheAngle` | crates/aiua/src/dream.rs:377-383 | the similarity times both norms is the dot product, sign included, zero vectors too |
| `Similarity.SimilarityFlips` | crates/aiua/src/dream.rs:377-383 | reversing a vector reverses the sign of every similarity |
| `Similarity.IncomparableIsZero` | crates/aiua/src/dream.rs:374-382 | vectors of different lengths, empty ones and zero ones have similarity 0 |
| `Similarity.DotIsAdditive` | crates/aiua/src/dream.rs:377-377 | the product of pairs is additive in each argument |
| `Similarity.DotScales` | crates/aiua/src/dream.rs:377-377 | and scales with its argument |
| `Similarity.DotWithUnit` | crates/aiua/src/dream.rs:377-377 | its value on a unit vector is that coordinate, so the three laws determine it |
| `Clustering.Gather` | crates/aiua/src/dream.rs:356-367 | the inner loop takes from the unassigned engrams those close to the leader, in order, and leaves the others |
| `Clustering.Cluster` | crates/aiua/src/dream.rs:348-371 | the nested loops over `assigned` compute the recursive leader clustering |
| `Clustering.CosineCluster` | crates/aiua/src/dream.rs:348-371 | the same for cosine similarity against the threshold |
| `Clustering.ClustersPartition` | crates/aiua/src/dream.rs:349-370 | every engram is in exactly one cluster, as often as it was given |
| `Clustering.ClustersAreLedApart` | crates/aiua/src/dream.rs:352-368 | members are close to their leader, and nothing in a later cluster is close to an earlier leader |
| `Clustering.ClustersKeepOrder` | crates/aiua/src/dream.rs:352-368 | each cluster, and the list of leaders, is a subsequence of the input |
| `Clustering.TwinsShareACluster` | crates/aiua/src/dream.rs:352-368 | engrams no leader tells apart and that are close to each other share a cluster |
| `Clustering.EqualVectorsShareACluster` | crates/aiua/src/dream.rs:352-384 | two engrams with one nonzero vector share a cluster in any input, for any threshold up to 1 |
| `Clustering.TwinsAloneShareAClusterIff` | crates/aiua/src/dream.rs:352-384 | two equal vectors given alone share a cluster if and only if the vector is nonzero and the threshold at most 1, or the threshold is not positive |
| `Clustering.OppositesAloneShareAClusterIff` | crates/aiua/src/dream.rs:352-384 | two opposite vectors given alone share a cluster if and only if the threshold is at most -1, or at most 0 for zero vectors |
| `DreamSweep.EmbedEngrams` | crates/aiua/src/dream.rs:311-340 | keeps, in order, the engrams whose embedding succeeded and is not empty |
| `DreamSweep.EmbeddedIff` | crates/aiua/src/dream.rs:321-329 | an engram is clustered if and only if it was recalled and its embedding is that nonempty vector |
| `DreamSweep.ConsolidateClusters` | crates/aiua/src/dream.rs:190-225 | consolidates exactly the clusters of two or more whose merge and consolidation succeed, and collects exactly their ids |
| `DreamSweep.SweepVault` | crates/aiua/src/dream.rs:160-247 | a whole sweep: the clusters consolidated, their ids, and an evolve attempt for exactly the others, in order |
| `DreamSweep.EveryEngramIsHandledOnce` | crates/aiua/src/dream.rs:190-246 | with distinct ids no engram is consolidated twice, each is consolidated or evolved and never both, and the counts add up to the total |
| `DreamSweep.ConsolidatedIff` | crates/aiua/src/dream.rs:192-218 | an engram is consolidated if and only if its cluster at threshold 0.82 has two members and both calls succeed |
| `Ports.NearestAvailableBasePort` | crates/aiua/src/main.rs:707-729 | the accepted port nearest to the desired one, the higher on ties, and None if and only if no port is accepted |
| `Ports.ResolveRuntimePorts` | crates/aiua/src/main.rs:731-771 | the wanted ports if free; else the nearest base whose run of three passes the probe without overflow; an error if and only if there is none |
| `Cron.CronStore.HandleCronFiredBroadcast` | crates/aiua/src/main.rs:856-903 | a broadcast changes the job only when it names the pending, not yet applied epoch and the schedule goes on |
| `Cron.CronStore.ReadDue` | crates/ansible-mesh-core/src/domain/mod.rs:1501-1507 | the ticker takes a copy of a job that is enabled and due at its offset |
| `Cron.CronStore.AdvanceSchedule` | crates/aiua/src/service/cron_ticker.rs:799-818 | writes the record the ticker read, however old, with its epoch as last and the next occurrence, or disabled when there is none |
| `Cron.CronStore.HandleCronJobSync` | crates/aiua/src/main.rs:926-951 | the record is taken over or dropped as it comes: the sync step of the runs below |
| `Cron.BroadcastAppliesIff` | crates/aiua/src/main.rs:859-879 | a broadcast fires exactly the epoch waited for, enabled or not, unless it was the last one fired or the schedule ends with it; only the two times change |
| `Cron.ReadTakesIff` | crates/ansible-mesh-core/src/domain/mod.rs:1501-1507 | the ticker takes up a job if and only if it is enabled and its time plus the hotel's offset has come |
| `Cron.WriteKeepsEnabledIff` | crates/aiua/src/service/cron_ticker.rs:808-817 | a write fires the epoch read and leaves the job enabled if and only if it was read so and the schedule goes on |
| `Cron.NotBeforeItsTime` | crates/aiua/src/service/cron_ticker.rs:297-322 | over every run the ticker has in hand no epoch before its time plus the offset |
| `Cron.EpochsRise` | crates/aiua/src/main.rs:856-889 | from any moment on, without syncs and stale writes, the epochs fired rise from the one waited for and are passed, and the next fire time never goes back |
| `Cron.RunsFollowTheSchedule` | crates/aiua/src/main.rs:856-889 | with broadcasts lost, repeated and reordered, and falling between the ticker's reads and writes, the epochs fired are a contiguous prefix of the schedule and the job stays enabled or disabled as it was until the schedule ends, as long as no write is stale |
| `Cron.FiredOnceIffGuarded` | crates/aiua/src/service/cron_ticker.rs:308-322 | over every run without syncs no epoch is fired twice if and only if each write of the ticker finds the next fire time it read |
| `Cron.WriteRepeatsIff` | crates/aiua/src/service/cron_ticker.rs:577-587 | a write about to happen fires an epoch already fired if and only if the stored next fire time is not the one read |
| `Cron.BroadcastDuringDeliveryRepeats` | crates/aiua/src/service/cron_ticker.rs:577-587 | from any due job, one broadcast between the ticker's read and write makes it fire the epoch twice |
| `Cron.StaleWriteRewindsIff` | crates/aiua/src/service/cron_ticker.rs:577-587 | a stale write puts the next fire time back if and only if broadcasts fired at least two epochs meanwhile |
| `Cron.BroadcastsNeverExhaust` | crates/aiua/src/main.rs:865-878 | broadcasts alone keep the last epoch below the next and never disable a job |
| `Cron.HotelsConverge` | crates/aiua/src/main.rs:837-889 | two hotels with the same record and any orderly histories: one fired a prefix of the other, and equally many epochs mean the same pending epoch |
| `Cron.WaitsForFiredIff` | crates/aiua/src/main.rs:926-937 | one hotel waits for an epoch another has fired if and only if it is at or below the other's last one, or, before the schedule ends, below the other's next one |
| `Cron.SyncRepeatsIff` | crates/aiua/src/main.rs:926-937 | for two hotels that started from one record: after adopting the other's record some orderly continuation fires an epoch twice if and only if that record waits for an epoch at or below the last one fired here and is not at its end |
| `Graph.TrimIsIdempotent` | crates/aiua/src/main.rs:1010-1010 | trimmed text has no space at either end and trims to itself |
| `Graph.TrimSplits` | crates/aiua/src/main.rs:1010-1010 | trimming takes away space at the two ends and nothing else |
| `Graph.ReadStringIff` | crates/aiua/src/main.rs:1006-1012 | a read finds nothing if and only if the key is absent or its text, the JSON string or else the stored text, is all space; otherwise the text without the space around it |
| `Graph.ReadBack` | crates/aiua/src/main.rs:1006-1012 | a stored JSON string that is trimmed and not blank reads back as it was |
| `Graph.UpsertAt` | crates/ansible-mesh-core/src/domain/mod.rs:1317-1327 | the registry upsert replaces the first entry of the name in place or appends |
| `Graph.LookupAfterUpsert` | crates/ansible-mesh-core/src/domain/mod.rs:1317-1327 | after an upsert the name finds the new ref and every other name finds what it did |
| `Graph.RegisteredMeansFound` | crates/aiua/src/muninn_provision.rs:152-156 | a vault counts as registered if and only if a lookup by its name finds a ref |
| `Vault.SecretStore.StoreSecret` | crates/aiua/src/vault.rs:34-56 | a new sealed record under a new ref, or nothing on failure |
| `Vault.SecretStore.RotateSecret` | crates/aiua/src/vault.rs:60-69 | re-seals an existing record in place, errors on an unknown ref, and changes nothing when it fails |
| `Vault.StoredResolves` | crates/aiua/src/vault.rs:71-104 | a stored secret opens to its plaintext for exactly those both lists admit; other refs are unaffected |
| `Vault.StoredRecordIs` | crates/aiua/src/vault.rs:43-53 | the record stored has its own ref, the kind, scope and lists given, and both times now; no other record changes |
| `Vault.ResolveAnswers` | crates/aiua/src/vault.rs:71-104 | an unknown ref is no error; the role is refused before the guest, each if and only if its list is nonempty and lacks it; else the record decrypts or is undecryptable |
| `Vault.RotationKeepsReaders` | crates/aiua/src/vault.rs:58-69 | rotation keeps ref, scope, creation time and every denial, and gives all admitted readers the new plaintext |
| `KeyMigration.GraphStore.UpsertVaultRegistryEntry` | crates/ansible-mesh-core/src/domain/mod.rs:1317-1327 | the search-and-replace loop over the registry is the upsert, as one write |
| `KeyMigration.GraphStore.MigrateProviderApiKey` | crates/aiua/src/main.rs:1042-1086 | one provider's writes, stopped anywhere, leave exactly what the specification says |
| `KeyMigration.GraphStore.MigrateProviderApiKeys` | crates/aiua/src/main.rs:1026-1040 | the loop over providers with its count, stopped anywhere, equals the recursive run |
| `KeyMigration.ProviderKeysAreDistinct` | crates/ansible-mesh-core/src/provider_keys.rs:26-112 | legacy and ref keys of the five providers never collide |
| `KeyMigration.MigrateOneProgresses` | crates/aiua/src/main.rs:1042-1086 | a step keeps a stored ref, adds one only once it opens to the trimmed legacy key, and only then drops the legacy entry |
| `KeyMigration.AttemptsProgress` | crates/aiua/src/main.rs:1026-1086 | the same over any number of runs, each stopped at any write |
| `KeyMigration.KeySurvivesEveryCrash` | crates/aiua/src/main.rs:1026-1086 | at every crash point of every run a key that could be read at the start still can be |
| `KeyMigration.RerunsConverge` | crates/aiua/src/main.rs:1026-1086 | after any stopped runs one full run leaves no non-blank legacy entry, an existing ref untouched, and a new ref opening to the trimmed key |
| `KeyMigration.MigratedRefIsRegistered` | crates/aiua/src/main.rs:1073-1077 | at every crash point of every run a ref the migration stored is in the vault registry under the provider's vault name |
| `KeyMigration.MigratedKeyAdmits` | crates/aiua/src/main.rs:1058-1071 | a migrated key opens for exactly the roles of its provider, and for any guest |
| `KeyMigration.ProviderVaultsAreDistinct` | crates/ansible-mesh-core/src/provider_keys.rs:26-112 | the vault names of the five providers are distinct |
| `KeyMigration.MigrateOneCompletesIff` | crates/aiua/src/main.rs:1042-1086 | a provider needs no write without a legacy entry, one with a stored ref, and four otherwise, and reports whether there was a legacy entry |
| `KeyMigration.EnoughBudgetCompletes` | crates/aiua/src/main.rs:1026-1086 | four writes per provider suffice for a run to finish |
| `KeyMigration.CompletedRunCounts` | crates/aiua/src/main.rs:1027-1039 | a finished run returns the number of non-blank legacy entries it found |
| `KeyMigration.MigratedIsFinal` | crates/aiua/src/main.rs:1043-1045 | with no legacy entry left a run changes nothing and returns 0 |
| `KeyMigration.KeySurvivesIff` | crates/aiua/src/main.rs:1047-1056 | the key survives every crash point if and only if no ref was stored or the stored one opens: a stored ref is trusted unread |
| `Provision.Provisioner.EnrolVault` | crates/aiua/src/muninn_provision.rs:181-268 | mint, read, seal, register and configure, stopped at any call, leave exactly what the specification says |
| `Provision.Provisioner.ProvisionVault` | crates/aiua/src/muninn_provision.rs:150-270 | one pass of the loop: skip if registered, create if absent from the fetched list, then enrol |
| `Provision.Provisioner.ProvisionMuninnVaults` | crates/aiua/src/muninn_provision.rs:102-277 | a whole run, stopped at any call, equals the recursive run; an empty request does nothing |
| `Provision.RunMintsOnce` | crates/aiua/src/muninn_provision.rs:150-228 | a registered vault gets no token and keeps its entry; a repeated name is minted at most once; a successful run mints each new name exactly once and registers all |
| `Provision.ProvisionOneCompletesIff` | crates/aiua/src/muninn_provision.rs:150-270 | a pass goes through if and only if its calls do: one for a registered vault, six for one the server has, seven otherwise |
| `Provision.EnrolHolds` | crates/aiua/src/muninn_provision.rs:181-228 | an enrolled vault is registered to a ref that opens to the minted token for the hotel and for nobody else |
| `Provision.SuccessHoldsTheToken` | crates/aiua/src/muninn_provision.rs:150-228 | after a successful run every requested name that was unregistered is registered to the token minted at its first occurrence, for the hotel only, and exists on the server |
| `Provision.RemoteOnlyGrows` | crates/aiua/src/muninn_provision.rs:158-176 | a run creates only requested, unregistered vaults the fetched list lacks |
| `Provision.RegisteredForGood` | crates/aiua/src/muninn_provision.rs:151-156 | no later run, stopped or not, mints for or re-registers a registered vault |
| `Provision.RunsKeepService` | crates/aiua/src/muninn_provision.rs:150-228 | over any history of stopped runs, whatever else is registered, a vault registered at the start is served at the end if and only if it was then, and one registered on the way is served |
| `Provision.SuccessServesIff` | crates/aiua/src/muninn_provision.rs:150-276 | after any history a run that succeeds leaves a requested name registered to a secret the hotel can open if and only if the name was unregistered at the start or served already |
| `Membership.KeyFamiliesAreDisjoint` | crates/aiua/src/main.rs:990-1004 | the four families of config keys never meet and each is injective |
| `Membership.GraphDomain.HandleMeshMembershipAccept` | crates/aiua/src/main.rs:1092-1340 | the checks, the four ordered writes and the compensating removals, with any call failing, leave exactly what the specification says |
| `Membership.GraphDomain.CreateMeshInvite` | crates/aiua/src/service/ipc.rs:11521-11556 | records a pending invite with its expiry under the nonce, or nothing on failure |
| `Membership.AcceptIsAtomic` | crates/aiua/src/main.rs:1275-1332 | without an earlier pin and auth key: unchanged, or an expired invite dropped unless that removal fails, or fully admitted, the invite unmarked only when exactly the last write failed |
| `Membership.FailureRestoresIff` | crates/aiua/src/main.rs:1298-1311 | a failed admission restores the store if and only if there was no earlier pin and, once the auth key was written, no earlier auth key |
| `Membership.FailureLeaves` | crates/aiua/src/main.rs:1298-1311 | what a failed admission leaves: a removal that fails leaves the key just written, one that succeeds leaves none, and the hotel record and the invites are as before |
| `Membership.AdmissibleIff` | crates/aiua/src/main.rs:1104-1262 | a join passes the checks, with a given session key, if and only if it is signed, complete, has its own key's fingerprint, names an open invite that lasts to this second, has no pin or this very key pinned, and the inviter's identity derives that key |
| `Membership.ExpiredIff` | crates/aiua/src/main.rs:1149-1173 | an invite is found expired if and only if a signed and complete request names it, still pending, past its last second |
| `Membership.AcceptedInviteIs` | crates/aiua/src/main.rs:1314-1325 | an accepted invite keeps its creation time (now if it had none) and expiry and names the hotel it let in |
| `Membership.VetDependsOn` | crates/aiua/src/main.rs:1104-1262 | the checks read the invite, the hotel's pin and the inviter's identity ref, and nothing else in the store |
| `Membership.InviteStaysOpenIff` | crates/aiua/src/main.rs:1314-1331 | after one hotel joined, another hotel's join on the same invite, at any later time and under its own faults, passes if and only if the first one's last write failed |
| `MembershipRuns.AdmissibleMeans` | crates/aiua/src/main.rs:1104-1262 | whoever passes the checks has a verified signature, the fingerprint of its own key, a complete identity, an open and unexpired invite, and no other key pinned under its name |
| `MembershipRuns.NextKeepsInv` | crates/aiua/src/main.rs:1092-1340 | each invite, join and unrelated write keeps the membership invariant |
| `MembershipRuns.RunsKeepInv` | crates/aiua/src/main.rs:1092-1340 | over every failure-free run an invite admits at most one hotel and none past its expiry, member keys stay pinned, and nodes hold the auth key of their latest admission |
| `MembershipRuns.RunsAreIrreversible` | crates/aiua/src/main.rs:1149-1211 | an issued invite that is no longer open never reopens, an accepted one stays accepted, and a pin never changes |
| `MembershipRuns.AdmittedHotelsAreReachable` | crates/aiua/src/main.rs:1264-1312 | every admitted hotel is on record, its key pinned, with an auth key for its current node id |
| `MembershipRuns.JoinReplacesAuthKeyIff` | crates/aiua/src/main.rs:1288-1292 | a join replaces the auth key of another hotel on record if and only if it names that hotel's node id and derives another key; the record itself stays |
| `MembershipRuns.RejoinStaysAdmissible` | crates/aiua/src/main.rs:1194-1211 | a hotel that joined may join again under its own key: on another open invite its request fares exactly as before |
| `MembershipRuns.SecondHotelTakesNode` | crates/aiua/src/main.rs:1275-1312 | two hotels that name one node id, each on its own invite, are both on record afterwards and the auth key is the second one's |
| `MembershipRuns.NodeTakeoverHappens` | crates/aiua/src/main.rs:1194-1211 | such a pair of admissible joins with different keys exists after nothing but the creation of two invites |
| `MembershipFaults.AcceptOnInvites` | crates/aiua/src/main.rs:1161-1173 | whatever fails, an acceptance touches its own invite only: it drops it expired or marks it after a join |
| `MembershipFaults.OneJoinPerInviteUnlessUnmarked` | crates/aiua/src/main.rs:1092-1340 | over every run with any failing call, and with other handlers writing any key but an invite, a join comes before its invite expires, and of two joins on one invite the earlier one's last write failed |
| `RoleSeed.RoleStore.SeedOrchestratorRoles` | crates/aiua/src/main.rs:5032-5092 | the loop, with any read or write failing, leaves exactly what the specification says; a failed write stops it |
| `RoleSeed.Applied` | crates/aiua/src/main.rs:5033-5090 | a reseed applies the profiles up to its first failed write, and no further |
| `RoleSeed.ReseedApplies` | crates/aiua/src/main.rs:5033-5090 | with successful reads a reseed is the application, in order, of the profiles before its first failed write |
| `RoleSeed.HistoryIsOneReseed` | crates/aiua/src/main.rs:5036-5086 | any history acts on each agent as one reseed with the merged profile |
| `RoleSeed.LastPolicyWins` | crates/aiua/src/main.rs:5045-5068 | an agent has the last valid content policy any reseed supplied for it |
| `RoleSeed.StoredPolicyStays` | crates/aiua/src/main.rs:5066-5068 | with none supplied it keeps the stored one, or has "standard" |
| `RoleSeed.LastTurnLoopWins` | crates/aiua/src/main.rs:5040-5044 | an agent has the last turn-loop configuration any reseed supplied for it |
| `RoleSeed.StoredTurnLoopStays` | crates/aiua/src/main.rs:5040-5044 | with none supplied it keeps the stored one, or has the default |
| `RoleSeed.AddendumNeverChanges` | crates/aiua/src/main.rs:5069-5086 | no history changes an addendum; unnamed agents are untouched; named ones have no home node afterwards |
| `RoleSeed.RestIsInstitutional` | crates/aiua/src/main.rs:5071-5086 | the last profile naming an agent decides whether it is admin; guest id, toolset, manifest, readiness and lifetime are the fixed ones |
| `RoleSeed.ReseedIsIdempotent` | crates/aiua/src/main.rs:5033-5090 | applying one profile list twice is applying it once, even with repeated agents |
| `RoleSeed.FailedReadIsHarmlessIff` | crates/aiua/src/main.rs:5036-5039 | a failed read gives the same record if and only if there was none or everything kept was default or supplied anew |
| `RosterSignal.HotelState.Signal` | crates/aiua/src/main.rs:8034-8049 | a signal is added, or dropped when eight are queued |
| `RosterSignal.HotelState.Refresh` | crates/aiua/src/main.rs:8052-8087 | one loop pass empties the channel and publishes each list as read, filtered to the own node for models, empty when its read failed |
| `RosterSignal.OwnKeepsIff` | crates/aiua/src/main.rs:8074-8079 | the published models are exactly the stored rows of the own node, as often as they are stored |
| `RosterSignal.OwnConcat` | crates/aiua/src/main.rs:8074-8079 | and in the stored order |
| `RosterSignal.PassIsARun` | crates/aiua/src/main.rs:8052-8087 | the protocol's steps for one pass lead to what that loop body leaves |
| `RosterSignal.RunKeepsInv` | crates/aiua/src/main.rs:8033-8094 | over every interleaving a stale list has a signal queued, a sender about to signal, or the worker not yet at its read, unless nobody announced the change |
| `RosterSignal.NoAnnouncedChangeIsMissed` | crates/aiua/src/main.rs:8033-8094 | when the worker waits and no signal is in flight, each list it read is published as it stands |
| `RosterSignal.QuietIsCurrentIff` | crates/aiua/src/main.rs:8057-8079 | with every change announced, the quiet snapshot is the roster if and only if each list was read successfully or is empty |
| `RosterSignal.SilentChangeIsMissedIff` | crates/aiua/src/service/ipc.rs:13105-13107 | from a quiet and current state a change without a signal, such as this upsert of a model profile, stays unpublished however long the worker runs on, if and only if it changes what a list shows |
| `RosterSignal.SilentChangeIsMissed` | crates/aiua/src/service/ipc.rs:13105-13107 | a concrete run from start-up that ends so |
| `RosterSignal.QuietStays` | crates/aiua/src/main.rs:8050-8052 | a quiet worker does nothing until somebody signals |
| `RosterSignal.CatchUpEndsQuiet` | crates/aiua/src/main.rs:8050-8088 | from any state the senders and the worker come to rest, having read again every list that was due |
| `RosterSignal.WorkerCatchesUp` | crates/aiua/src/main.rs:8050-8088 | after any announced run, once changes stop and reads succeed, each list that was due or last read successfully is published as it stands |

## Left out

- Input and output: HTTP, sockets, process spawning, logging, command-line parsing; each fallible call is a step that succeeds or fails.
- SQL and graph-node encodings: tables are maps; multi-statement deletes succeed or fail as a whole.
- JSON encoding and decoding: a stored config value carries its text together with what the string and document readers make of it; a corrupt vault registry, which the code reads as empty, is not modelled.
- Cryptography itself (HMAC, AES-GCM, Ed25519, X25519, SHA-256, base64) and root-key lookup: parameters with the law they must obey.
- 64-bit widths: sequence numbers, clocks and counters are unbounded except where wrap or saturation decides a result (ports, frame lengths, the 32-bit wire seq).
- Floating point in the similarity: reals stand for f32, so rounding and NaN are not captured.
- The ticker's delivery of a task, its sentinel jobs and its recovery scan: a read step and a write step cover whichever of them advances a schedule, and a fire that returns early is a failing write.
- Peers' acknowledgements of several events in one message: the dispatcher sends one event per message, and so does `Delivery`.
- Shutdown branches of the writer and the roster task, and the configuration with the ledger writer disabled.
- The fields `accepted_at` and `member_hotel` of an accepted invite, and the signed invite handed to the joiner: nothing modelled here reads them.
- The invariant of `MembershipRuns` is for runs whose joins' four writes succeed and in which no other handler writes pins, auth keys or invites, as its guarantee is for failure-free runs; `MembershipFaults` covers failing writes and such handlers, among them the inviter's auth key written at `crates/aiua/src/service/ipc.rs:11608`, for what one invite can admit.
- Hygiene and digest reports, schedule registration, catalog seeding, attention decisions, OAuth, the remaining scripts: straight-line code that would only add easy members.
- Ledger.LedgerWriter.Handle: its contract is the specification step; what that step guarantees is stated by the lemmas of `LedgerSafety`.
- Vault.Resolve: a failing read of the record is not modelled, because every lemma about it concerns a store that can be read.
- RosterSignal.HotelState.Refresh: covers a pass with no concurrent change; interleavings are covered by the step system.
