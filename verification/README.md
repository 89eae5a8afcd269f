# Verified model of the build-cache server

A content-addressed cache promises that whatever it publishes refers only to verified content, and that the
streaming, batched or SQL form of each operation answers like the plain one. This project models the parts
of the server on which those promises rest and proves them with Dafny.

`dafny verify dfyconfig.toml` checks everything.

## What is modelled

- **Publishing** (`Tree`, `Publish`, `Losses`, `PublishExactly`). `Tree.ValidateTree` is the iterative search over an
  output tree with its Enter/Exit stack; it accepts exactly the graphs it promises to accept, and every
  rejection is true of the graph. `Publish` is the whole server as a transition system in which uploads,
  downloads and publish requests interleave at every store access and may die anywhere (each frame of an
  uploaded pack is an upload of its own, each object of a served one a download); its invariant is
  referential integrity of everything ever published. `Losses` is the same server on storage that loses objects.
  `PublishExactly` shows that the stepwise protocol, left alone, commits exactly when everything is in place.
- **The blob pack** (`Encoding`, `Pack`, `PackGrammar`, `PackFrames`, `PackServe`). `Pack.PackReader` is the
  incremental reader with its buffer and counters. It does not depend on where chunks are cut, it agrees,
  error for error, with a parser of the whole string, and that parser is the inverse of the encoder. What one
  server serves, another accepts.
- **Uploads** (`BlobUpload`, `PackUpload`, `PackAcceptance`, `Spool`, `SpoolSharing`). Single uploads are hashed as they
  arrive. Pack uploads are a scheduler whose stores finish in any order; it is bounded, never leaves a store
  behind, always ends, counts every frame, and stores every good pack. The spool budget is a class with the
  real rounding and 32-bit conversion; `Spool` states what uploads that share it owe each other, and
  `SpoolSharing` proves that single and pack uploads pay.
- **Metadata** (`Memory`, `Postgres`, `Commit`, `Manifests`, `Retention`). The in-memory store is the
  specification; the PostgreSQL store is one statement per step on tables with their primary keys and
  checks. Both answer alike, a two-statement commit looks atomic, manifest updates lose nothing, and
  a sweep is exact and follows the storage lifecycle.
- **Access log** (`Access`) and **key refresh** (`Jwks`): a bounded buffer flushed exactly once, and a refresh
  protocol whose fetches keep a cooldown in every interleaving.
- **File storage** (`Filesystem`): stage, copy, sync and rename without clobbering is an atomic put-if-absent.

Hashing, JSON and the schema checks of descriptors and metadata are parameters: functions about which
nothing is assumed. The theorems range over all inputs, all moves and all interleavings; `Run` and `Execute` fold a
list of moves, and a move that is not possible leaves the state alone. Time is a natural number.

### What turned out to be conditional

- Merging workers lose nothing *if and only if*, among the manifests that belong under one key, a manifest that
  gains predictions gets a new tag (`Manifests.UpdatesLoseNothing`); any injective tag qualifies.
- With one namespace and every put followed by its registration, sweeps spare the rows of objects that are not
  yet due *if and only if* the lifecycle age is at most the sweep age plus one tick
  (`Retention.SafePoliciesExactly`; the tick is the strict comparison of the sweep). Without either assumption
  that holds *if and only if* the lifecycle age is zero (`Retention.AssumptionsAreNeeded`). Under the first
  condition the only rows dropped early, in any run, are those of objects whose writer was another namespace's or
  has not registered (`Retention.SweepsFollowTheLifecycle`).
- The startup check (`src/main.rs:53`) refuses a spool smaller than the largest blob, because such a blob could
  never be spooled. That is so but for rounding within one KiB (`Spool.FailedCheckRefuses`,
  `Spool.FailedCheckMayStillDo`), and the check is not sufficient: an idle spool that passes it admits a blob *if and
  only if* it is unlimited or the blob's KiB count fits 32 bits (`Spool.IdleSpoolAdmits`), so above 4 TiB the upload
  is refused all the same (`Spool.StartupCheckIsNotEnough`). `Spool.LargestBlobExactly` gives the exact condition.
- On storage that loses objects, a row is dropped only by a request that found its object missing
  (`Losses.RowsGoOnlyWhenMissed`), but not only while it is missing: `Losses.AForgetCanComeLate` is a run in which
  the object was stored and registered again in between, and `Losses.DroppedThoughPresent` says that this is the
  only way.

The model follows the code where the documentation is looser: a batched lookup keeps the order of the digests
the store is asked for, which the documentation leaves open.

## Model

| member | source | states |
|---|---|---|
| Tree.ValidateTree | src/server.rs:1048-1133 | On a fixed view the search accepts exactly the roots below which the graph is acyclic, has at most 100,000 directories, and every directory is visible, stored, within 16 MiB, canonical, version 1, well named and lists only valid visible files; each rejection is true of the graph; it ends on every graph |
| Tree.CheckDirectory | src/server.rs:1075-1130 | One directory object passes exactly when it is sound and its files are visible, yields its children, and a refusal names a fault it really has |
| Tree.CheckEntries | src/server.rs:1470-1501 | Passes exactly the directories whose names are usable and distinct across all three kinds, whose modes are permission bits and whose links point somewhere; a refusal names what is wrong with the first entry that fails |
| Tree.FirstFaultIsOne | src/server.rs:1470-1501 | There is at most one first fault, so the answer for a directory is determined |
| Tree.CycleIsReal | src/server.rs:1066-1071 | The cycle answer is given only when the directory really reaches itself below the root, so shared subdirectories are not mistaken for cycles |
| Tree.BoundIsReal | src/server.rs:1069-1074 | The bound answer is given only when more than 100,000 different directories are reachable |
| Tree.DryMeansComplete | src/server.rs:1054-1068 | A search that has run dry has finished exactly the reachable directories, all of them good and on no cycle |
| Tree.NoLoop | src/server.rs:1057-1063 | The order in which directories are finished runs against every edge, so no path from a finished directory returns to it |
| Tree.JustifiedExcludesAcceptable | src/server.rs:1048-1133 | What a rejection says of a graph is incompatible with what acceptance promises of it |
| Publish.DoHolds | src/server.rs:920-955 | Every step of every request keeps the invariant and only ever adds to the stores, in any state that satisfies it |
| Publish.ReachableHolds | src/server.rs:920-955 | The invariant holds after every run of uploads, downloads and publish requests |
| Publish.EverythingPublishedIsThere | src/server.rs:920-1046 | After any run, all a published result leads to (action, metadata, diagnostics, every directory and file of its tree) is registered in its namespace and stored under bytes that hash to its name; no row names a missing object; no row was ever forgotten |
| Publish.EveryPublishedTreeIsSound | src/server.rs:1048-1133 | Every published output tree is acyclic and has at most 100,000 directories, although it was checked while others were writing |
| Publish.PublishedStaysPublished | src/metadata/memory.rs:63-79 | However a run goes on, results, rows and objects only gain, and none changes |
| Losses.RowsGoOnlyWhenMissed | src/server.rs:274-283 | On storage that loses objects at any time, a row is dropped only by a request that itself asked for the object and did not find it |
| Losses.MissesAreForgotten | src/server.rs:336-345 | Every download and publish request that asks for an object that is gone drops its row, and only that row |
| Losses.DroppedThoughPresent | src/server.rs:274-283 | A row is dropped while its object is there only if someone stored the object again after it was missed |
| Losses.AForgetCanComeLate | src/server.rs:274-283 | A run in which that happens, for any blob and namespace |
| Losses.LossesTouchNoResult | src/metadata/memory.rs:63-79 | Whatever is lost, results never change or go, and what is stored hashes to its name |
| PublishExactly.TurnExact | src/server.rs:920-955 | Each store access lets a request go on exactly when what it still needs afterwards was needed before: nothing is checked twice over or left out |
| PublishExactly.CommittingNeeds | src/server.rs:920-955 | A request that commits had everything in place |
| PublishExactly.NeedsMetCommits | src/server.rs:920-955 | A request with everything in place reaches its commit in finitely many steps |
| PublishExactly.PublishedExactlyWhenInPlace | src/server.rs:920-955 | Undisturbed, a publish request commits if and only if its shape, descriptor, metadata, diagnostics and tree are all in place |
| Pack.PackReader.constructor | src/pack.rs:70-81 | A fresh reader is waiting for the magic with all counters zero |
| Pack.PackReader.Push | src/pack.rs:94-152 | One chunk does to the reader's fields, and returns, exactly what the specification says, error for error; a counter passes its limit by no more than the turn that is refused |
| Pack.PackReader.Fill | src/pack.rs:164-171 | Buffers no more than is missing and leaves the rest of the input |
| Pack.PackReader.ReadMagic | src/pack.rs:98-106 | The turn that takes the magic |
| Pack.PackReader.ReadHeader | src/pack.rs:107-129 | The turn that takes a header, with its limit and the empty-frame case |
| Pack.PackReader.ReadPayload | src/pack.rs:130-149 | The turn that takes payload, never past the frame's end |
| Pack.ConsumeConcat | src/pack.rs:94-152 | From any state, one chunk and its two halves give the same refusal, or the same events up to where payload is cut and the same state and counters |
| Pack.ChunkingDoesNotMatter | src/pack.rs:94-171 | Every split of a stream, empty chunks included, reads like the stream in one piece |
| PackGrammar.HeaderDecodes | src/server.rs:835-850 | The reader takes from a served header exactly the digest it was made for, or refuses its size |
| PackGrammar.HeaderEncodes | src/pack.rs:174-194 | A header the reader takes is the only header of a valid digest |
| PackGrammar.ParseSound | src/pack.rs:94-195 | What parses is the encoding of its frames, and they fit the limits |
| PackGrammar.ParseComplete | src/pack.rs:94-195 | The encoding of frames that fit parses to those frames |
| PackGrammar.ReaderAgreesWithParser | src/pack.rs:94-161 | The reader and the whole-string parser give the same error or the same frames and counters |
| PackGrammar.ReaderAcceptsExactlyPacks | src/pack.rs:94-161 | However it is cut, a stream reads to its finish exactly when it is the magic and whole frames within all limits, and then yields exactly those frames |
| PackGrammar.EncodedPackReads | src/pack.rs:94-195 | Encoding and then reading gives the frames back |
| PackFrames.ReadPack | src/pack.rs:199-219 | Reading a pack in memory with one push equals the whole-string parser, frames and errors |
| PackFrames.ReadingPlays | src/pack.rs:130-149 | The reader's events are well nested, and a frame being filled has exactly as much left to come as the reader expects: never more than it declared |
| PackFrames.NoFrameOverflows | src/pack.rs:130-149 | Between any two events, not only at the end of a chunk, no frame holds more than it declared and every closed one exactly that |
| PackFrames.PlayRebuilds | src/pack.rs:207-218 | Collecting frames event by event gives the frames the byte-by-byte reading gives |
| PackServe.ServePack | src/server.rs:688-833 | A request is answered exactly when it is within its bounds; an unbroken body is the encoding of the visible requested digests, each once in first-occurrence order with their stored bytes, and as long as announced; it is unbroken exactly when storage can be read and delivers each in full; rows are forgotten only for objects asked for and missing, at most 16, and none by an unbroken stream |
| PackServe.FilterIsTheQuery | src/server.rs:714-726 | The visible digests of a request are what the metadata store answers |
| PackServe.Deduplicate | src/server.rs:694-713 | Takes a request exactly when every digest is valid and the distinct ones fit the limit, and lists them in first-occurrence order |
| PackServe.Announce | src/server.rs:738-760 | The announced length and payload, refused exactly when they overflow |
| PackServe.StreamBlob | src/server.rs:793-819 | Never sends more than storage declared, and succeeds exactly when storage delivers that without breaking off |
| PackServe.ServedPackFitsTransport | src/server.rs:236-241 | Every pack the server serves fits the body limit of its upload route |
| PackServe.ServedPackIsAccepted | src/server.rs:441-527 | A pack served from verified storage is never declined by the upload handler under the same limits and headers, however cut and in whatever order stores finish |
| BlobUpload.ReceiveBlob | src/server.rs:367-406 | The upload's loop answers and writes what the specification of the whole body says |
| BlobUpload.ReceiveIsRight | src/server.rs:367-406 | A body is taken exactly when it arrives whole, is what its digest declares and every write succeeds, however it is cut; any other answer names what really happened, at its first occurrence; and the chunks written never add up to more than was declared |
| PackUpload.EveryRunIsKept | src/server.rs:441-540 | In every completion order at most max(1, concurrency) stores are uncollected, none is left at the answer, only verified bytes are stored, and a receipt means the body was a pack with what its headers declare, every frame stored, registered and counted once |
| PackUpload.RunCreations | src/server.rs:529-540 | With no other writer, the receipt's created count is the number of distinct digests that were not stored before |
| PackUpload.EventFollows | src/server.rs:469-505 | The handler's internal error for payload without a frame cannot happen |
| PackUpload.FinishedReading | src/server.rs:511-527 | When the reader finishes, the frames sent to storage are the whole pack |
| PackAcceptance.GoodPackIsAccepted | src/server.rs:441-527 | A pack that is what its headers say, with cooperating stores, is never declined whatever the order |
| PackAcceptance.NeverStuck | src/server.rs:441-527 | Until it has answered, the handler or one of its stores can move |
| PackAcceptance.EveryMoveIsProgress | src/server.rs:441-527 | Every move of the handler and its stores lowers a well-founded measure |
| PackAcceptance.EveryUploadEnds | src/server.rs:441-527 | Whatever is uploaded, whatever fails and in whatever order things move, the handler answers after finitely many turns |
| PackAcceptance.GoodPackIsStored | src/server.rs:441-527 | A pack that is what its headers say gets, under every such schedule with cooperating stores, a receipt for all of it |
| PackAcceptance.SchedulesExist | src/server.rs:441-527 | Such schedules exist |
| Spool.SpoolBudget.constructor | src/server.rs:110-117 | The budget in permits of a KiB, rounded up and cut at what a semaphore holds |
| Spool.SpoolBudget.Reserve | src/server.rs:120-132 | Admits exactly when the rounded-up size fits 32 bits and what is free, and takes that many permits |
| Spool.BudgetIsWhole | src/server.rs:110-117 | No configured budget is cut short, and it exceeds its bytes by less than a KiB |
| Spool.IdleSpoolAdmits | src/main.rs:53-56 | With the startup check passed and nothing held, a blob within the limit is admitted if and only if the spool is unlimited or its KiB count fits 32 bits |
| Spool.LargestBlobExactly | src/server.rs:110-132 | The largest blob is admitted at some time if and only if the spool is unlimited or its KiB count fits 32 bits and the count of the spool |
| Spool.FailedCheckRefuses | src/main.rs:53-56 | A spool that fails the startup check never takes the largest blob, unless they differ by less than a KiB |
| Spool.FailedCheckMayStillDo | src/main.rs:53-56 | A configuration the check refuses and that would do |
| Spool.StartupCheckIsNotEnough | src/main.rs:53-56 | A configuration that passes the startup check and refuses its largest blob |
| Spool.SpoolIsBounded | src/server.rs:100-132 | In every interleaving of uploads that reserve first, write no more than they declared and remove their file before they let go of its permits: free and held permits make up the total, all return, and the bytes on disk never exceed what is reserved nor the budget rounded up |
| Spool.PermitsFirstWouldNotDo | src/server.rs:543-552 | With permits let go before the file is gone, the whole budget could be reserved again on a full disk |
| SpoolSharing.SingleUploadIsFair | src/server.rs:367-396 | A single upload that writes no more than it declared keeps those rules whatever others do between its moves, so the bound holds, and leaves nothing behind |
| SpoolSharing.ReceivedBlobIsFair | src/server.rs:367-406 | That is so of the writes of every single upload, whatever its body and its disk do |
| SpoolSharing.NextWriteFits | src/server.rs:573-592 | A packed frame is written without a test of its own, and still the next payload always fits what it declared |
| SpoolSharing.MoveIsAllowed | src/server.rs:469-513 | Every move of the pack handler and its stores keeps those rules, and the live frames are exactly those with a file |
| SpoolSharing.PackUploadIsFair | src/server.rs:441-527 | In every interleaving of a pack upload with others: the bound holds, every live frame has its payload on disk and permits for all it declared, and at the answer the handler holds nothing |
| SpoolSharing.SharedSpoolIsBounded | src/server.rs:100-132 | Any number of pack and single uploads at once on one spool, in every interleaving: the bound holds, permits are conserved, and when every request is over all of them are back and nothing is on disk |
| SpoolSharing.SharedRunIsARun | src/server.rs:441-527 | A run on a shared spool is for the handler a run as before, so everything proved of those holds |
| SpoolSharing.GoodPackIsAcceptedWithRoom | src/server.rs:474-477 | A good pack is declined only if the spool refused one of its frames at the moment it was asked |
| Memory.GetBatchLoop | src/metadata/mod.rs:95-107 | The inherited loop returns the hits of the request in order, misses dropped |
| Memory.MemoryMetadata.Visible | src/metadata/memory.rs:20-32 | The digests that have a row, each as often as it was asked for and in that order |
| Memory.VisibleInOrder | src/metadata/memory.rs:20-32 | The answer to one request after another is one answer after the other, so order is kept |
| Memory.VisibleAsOften | src/metadata/memory.rs:20-32 | A visible digest is answered as often as it was asked for, any other not at all |
| Memory.MemoryMetadata.Register | src/metadata/memory.rs:34-45 | Adds one row and changes nothing else |
| Memory.MemoryMetadata.Forget | src/metadata/memory.rs:47-53 | Removes one row and changes nothing else |
| Memory.MemoryMetadata.Commit | src/metadata/memory.rs:63-79 | The first result stays; a repeat is recognised and a different one conflicts |
| Memory.MemoryMetadata.CommitManifest | src/metadata/memory.rs:97-125 | Compare and swap on the tag, or creation where there is none |
| Postgres.KeysAreDistinct | src/metadata/postgres.rs:44-49 | The wrapping conversion of sizes never makes two digests share a row, and a wrapped key can name no row |
| Postgres.VisibleAnswersAlike | src/metadata/postgres.rs:53-98 | The join with its ordinals into the filtered list equals the in-memory filter, order and repetitions kept, for every 64-bit size |
| Postgres.BatchIsTheLoop | src/metadata/postgres.rs:256-308 | One batched query equals the loop of single lookups |
| Postgres.RegisterAlike | src/metadata/postgres.rs:199-232 | Registering keeps both stores alike, and fails exactly for sizes the column cannot hold |
| Postgres.ForgetAlike | src/metadata/postgres.rs:234-246 | Forgetting keeps both stores alike |
| Postgres.CommitAlike | src/metadata/postgres.rs:310-332 | An undisturbed commit answers like the in-memory one and keeps both stores alike |
| Postgres.CommitManifestAlike | src/metadata/postgres.rs:351-378 | A manifest commit answers like the in-memory one, and fails exactly where a check refuses the row |
| Postgres.PostgresMetadata.Register | src/metadata/postgres.rs:199-232 | The upsert: a row's age restarts only when the upload wrote the object |
| Postgres.PostgresMetadata.Forget | src/metadata/postgres.rs:234-246 | Deletes one row and nothing else |
| Postgres.PostgresMetadata.CommitOnce | src/metadata/postgres.rs:310-332 | Insert, then read back on a conflict; afterwards the row holds the result unless it conflicts |
| Postgres.PostgresMetadata.CommitManifestOnce | src/metadata/postgres.rs:351-378 | Afterwards the record is stored, or nothing changed and the precondition failed |
| Postgres.PostgresMetadata.TouchBlobs | src/metadata/postgres.rs:162-197 | Afterwards every requested row was accessed within the hour, and nothing else changed |
| Postgres.PostgresMetadata.Sweep | src/metadata/postgres.rs:100-152 | Exactly the rows and manifests young enough and the results whose metadata and output root still have rows stay, unchanged, and the counts are what was removed |
| Postgres.SweepIsExact | src/metadata/postgres.rs:100-152 | What stays after a sweep, both ways |
| Postgres.SweepIsIdempotent | src/metadata/postgres.rs:100-152 | A second sweep at the same instant removes nothing |
| Postgres.SweepIsMonotone | src/metadata/postgres.rs:100-152 | A later sweep keeps less, and an earlier one before it makes no difference |
| Postgres.TouchesAreRateLimited | src/metadata/postgres.rs:187-197 | However often it is touched, the writes of a row are more than an hour apart |
| Commit.StatementsAreTheDatabases | src/metadata/postgres.rs:310-332 | The two statements of the interleaved model are those of the tables |
| Commit.TwoStatementsLookAtomic | src/metadata/postgres.rs:310-332 | In every interleaving with commits and sweeps, each answer is the atomic commit's at an instant after the call's start and before its reply that no other call shares; the table changes at these instants only, or by losing rows; and the error occurs only if the row was taken away during the call |
| Commit.OnlySweepsRemove | src/metadata/postgres.rs:310-332 | Only a sweep takes a result away |
| Commit.FirstResultStays | src/metadata/postgres.rs:310-332 | Without sweeps no call fails, each key has at most one creator, and every table from its instant on gives its result |
| Manifests.ReadTagMatches | src/server.rs:1565-1594 | A header asks for a tag exactly when it is that tag quoted, so what a reader was given is what its update is matched against |
| Manifests.WriteUnderTag | src/server.rs:982-1016 | A write with the tag it was given is refused exactly when the manifest does not belong under the key or the tag has not the form of one, and is else one compare and swap on that tag |
| Manifests.UpdatesLoseNothing | src/server.rs:982-1027 | Over any interleaving of writes the server takes, no stored or accepted prediction is lost, if and only if among the manifests of one key growth changes the tag |
| Manifests.InjectiveTagsWillDo | src/server.rs:1003-1021 | Tags that identify a manifest's canonical bytes among those of its key qualify |
| Manifests.AStuckTagLoses | src/server.rs:1003-1021 | Two manifests of one valid key with the same usable tag, of which one lacks what the other gained, lose it in a concrete run |
| Manifests.UpdatesReplaceWhatWasRead | src/metadata/postgres.rs:351-378 | With injective tags an accepted write replaces exactly what its writer had read |
| Retention.SweepsFollowTheLifecycle | src/metadata/postgres.rs:205-230 | After any run of any namespaces, with uploads stopping anywhere, no row is older than its object when the object's writer registered it there; so with a lifecycle of at most the sweep age and a tick, a sweep drops the row of an object not yet due only if its writer was another namespace's or has not registered |
| Retention.SafePoliciesExactly | src/config.rs:61-68 | With one namespace and every upload that wrote an object registered, sweeps never drop the row of an object not yet due if and only if the lifecycle is at most the sweep age and a tick |
| Retention.AssumptionsAreNeeded | src/metadata/postgres.rs:205-218 | With several namespaces, or with uploads that may stop before they register, no policy is safe except the one under which every object is due at once |
| Retention.UnregisteredPutLosesItsRow | src/metadata/mod.rs:59-72 | Under every policy that keeps objects at all, a sweep between a put and its registration can drop the row of the object just written |
| Retention.OtherNamespaceLosesItsRow | src/metadata/postgres.rs:205-218 | Under every such policy another namespace's upload can renew an object and leave this row its age, for a sweep to drop |
| Access.AdmittedAreTheFirst | src/server.rs:157-179 | What the buffer holds is the first 100,000 different pairs since the last flush |
| Access.PendingAccess.CounterIsTheSum | src/server.rs:146-152 | The counter is the sum of the sets' sizes and never passes the limit |
| Access.PendingAccess.Record | src/server.rs:157-179 | Noting a read keeps the counter, the sets and the history in step, and holds no empty namespace |
| Access.PendingAccess.Flush | src/server.rs:181-197 | Hands on each pair held exactly once, in batches the store takes, and leaves the buffer empty |
| Access.FlushNamespace | src/server.rs:186-190 | One namespace's digests are handed on exactly once, in batches |
| Jwks.EveryRun | src/auth.rs:257-333 | One holder of the lock, spaced attempts, earned sets and sound verdicts, after every run |
| Jwks.FetchesAreRateLimited | src/auth.rs:312-333 | Any n attempts to fetch take at least n - 1 cooldowns, and sets are installed no oftener |
| Jwks.VerdictsAreSound | src/auth.rs:257-310 | A token passes only under a key of a set that was current during its verification; a key is refused as missing only under such a set without it, after a refresh was tried or a set that held it was replaced; a stale set is not relied on without either; a failed refresh costs no key the set held at the start |
| Jwks.VerdictsAreOfTheirInstant | src/auth.rs:277-309 | Every verdict was given at one move of the run, and there the set then current held the key, or lacked it, as the verdict says |
| Jwks.OnlyFetchesChangeKeys | src/auth.rs:327-333 | The set changes only by the lock's holder installing what it fetched |
| Jwks.KnownKeyIsFound | src/auth.rs:268-283 | A key known at the start stays usable until another set is installed, whatever refreshes fail |
| Filesystem.PathsAreDistinct | src/storage/filesystem.rs:21-36 | Two digests never share a file |
| Filesystem.StepsRefinePutIfAbsent | src/storage/filesystem.rs:53-77 | The step that returns does what an atomic put-if-absent would; every other step leaves the file alone |
| Filesystem.FileIsImmutable | src/storage/filesystem.rs:53-77 | Once present a file never changes |
| Filesystem.PutsAreAtomic | src/storage/filesystem.rs:40-77 | In every interleaving with failures at most one put creates the file, with its complete source, and a reader sees nothing or one complete source |
| Filesystem.NotFoundMeansAbsent | src/storage/filesystem.rs:40-51 | A download answers that nothing is there only if there was no file when it looked |
| Filesystem.PresentFileIsRead | src/storage/filesystem.rs:40-51 | Once the file is there no later download is told otherwise |
| Filesystem.ReadingEnds | src/storage/filesystem.rs:40-51 | Reading at least a byte a step, a download ends with the whole file |
| Filesystem.ErrorsComeFromFailures | src/storage/filesystem.rs:53-77 | A put ends in an error only if one of its steps failed |

## Left out

- The S3, Azure and GCS clients, HTTP routing, compression, body-limit and timeout layers, TLS, startup and command line, metrics and deployment: thin code over libraries. Only the pack body limit and the spool's startup check are kept.
- BLAKE3, SHA-256, JSON, JWT validation, namespace patterns and the field-by-field checks of descriptors and metadata: uninterpreted parameters.
- The pack upload handler, publish requests, key refresh and file puts: step machines on values rather than classes, because their behaviour is what interleaving at every wait allows; each machine takes the source's statements in order.
- Publish.EverythingPublishedIsThere: for stores that never lose objects and runs without sweeps; what losses and expiry do is in Losses, Retention and Postgres.
- Postgres.CommitAlike: results are compared as values, taking their JSON form to be injective and decoding to undo encoding.
- Postgres.SweepIsExact: the sizes inside stored results are taken to fit the column, as publishing requires them to be visible; otherwise the cast in the query would fail.
- Pack.PackReader.Push: counters are unbounded integers; the contract bounds them, so they stay within 64 bits when the limits leave room for one more frame or chunk.
- Spool.SpoolBudget.constructor: `usize` is taken as 64 bits wide.
- Access.PendingAccess.Flush: what a failed touch loses is not followed; the source drops it too.
- Jwks.FetchesAreRateLimited: the fetch at startup is not an attempt, as in the source.
- Jwks.VerdictsAreSound: the checks of a key's declared use and algorithm belong to the uninterpreted token validation.
- A client that goes away: a dropped request ends where it stands in Publish, Jwks, Filesystem and Retention, but a pack upload is followed to its answer.
- Real time, the flush timer and pool timeouts: a logical clock, and flushes and expiry at any step.
- Failures of metadata reads and writes other than in pack uploads: a request that gets one ends where it stands, which the runs of Publish allow at every step.
