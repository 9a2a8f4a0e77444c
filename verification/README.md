# Open Data Fusion verification

A Dafny model of the parts of Open Data Fusion that must not go wrong quietly, with proofs of what they promise. To verify the whole project:

    dafny verify dfyconfig.toml

## What is modelled

**SQLite to PostgreSQL cutover.** Stored JSON is scanned for number tokens, and a token is accepted only if it survives a trip through a double. `NumberToken` and `Decimal` hold the token grammar and the arbitrary-precision normalisation, `JsonText` the grammar of JSON texts, `NumberScan` the scanner, `CanonicalPrinter`, `CanonicalText` and `CanonicalDocument` the canonical printer behind the checksums. `Preflight` is the check of a bundle's histories, `TargetIntegrity` the SQL check on the other side, `CorrelationMapping` the UUIDs, `Collation` the order in which the target lists its rows, and `CutoverImport` the transactional importer over a connection on which any query may fail.

**Versioned workspaces.** `KeyedList` and `Canvas` are the edit interpreter over arrays and its meaning on maps keyed by id; `CanvasEffects` says what each operation does without naming the interpreter. `WorkspaceHistory` is the SQLite form, a class whose methods are transactions, and `WorkspaceAuthority` says who may call what and what each call changes; `SnapshotRange` says which of its values the cutover bundle admits, and `SqliteExport` what preflight makes of the states it can reach. `WorkspaceCas` is the PostgreSQL form: any number of clients that read, compute and compare-and-set in separate transactions, while members change and clients crash.

**Pilot-gate evidence.** `PilotGate` is the gated run, its evaluation and its reviewer attestation for any gate table. `EvidenceStore` is the directory, a class that makes one whole-file write at a time and may die before any of them; `EvidenceRecovery` is what the repair and the gates guarantee over any calls and crashes, and `EvidenceProgress` which calls are accepted and which runs can pass; `EvidenceRoot` adds initialize and the output root that holds all runs and their predecessors.

**Raw-landing archive.** `RawLanding` is the protocol of many replicas over a database and a bucket that share no transaction; `RawLandingProgress` is what one caller can count on.

**Ingest, relations, telemetry, write-back, uploads.** `IngestRuns` is exactly-once ingest with its separate failure record, for any effect of a bundle; `AssetForest`, `Telemetry` and `Relations` are three such effects, and `IndustrialData` puts them together. `Writeback` is the approval machine, `Upload` the streaming loop, `ObjectVersions` the versions it records.

Where the source updates fields, tables or files in place, the model is a class whose methods end with the state that a specification function gives; the theorems are about that function and runs of it.

## What is assumed

- A SQL statement or transaction is one step on finite maps; a failed transaction, COMMIT included, leaves nothing.
- A file is written whole or not at all.
- SHA-256 and HMAC-SHA-256 are injective, so they are modelled as constructors. The truncated hashes in object keys and the derivation of a UUID from a correlation id may collide.
- Doubles are abstract, with the law that the printed form of a finite double reads back as that double (section 6.1.6.1.20 of ECMA-262). JSON texts follow sections 2, 6 and 7 of RFC 8259, and strings are sequences of UTF-16 code units, lone surrogates included.
- A collation is a strict order on text, and what jsonb can hold is any set of JSON objects. External ids of assets are those the request schema accepts (`apps/api/src/schemas.ts`).
- The text decoder of uploads is any deterministic automaton over bytes, with a flush at the end.
- `mutateWorkspace` is the compare-and-set of `packages/postgres-runtime/src/workspace-repository.ts`, and `evaluateWritebackSafety` the function of `packages/platform-core/src/writeback.ts`. The entry that `appendPlatformAuditAndOutbox` writes for a completed ingest is part of the ingest transaction.

## Where the code promises less than it seems

- The SQL integrity check of the importer is weaker than preflight: it accepts a workspace row that points at any revision of its history, not only the last (`TargetIntegrity.IntegrityIsBacking`). The checks mean soundness exactly where no workspace row is stale (`TargetIntegrity.IntegrityMeansSoundIfCurrent`).
- Preflight accepts a bundle that lists a workspace twice, which no target can hold (`CutoverImport.PreflightAcceptsRepeatedWorkspace`); the import of such a bundle fails and leaves the target untouched.
- The contents of the target are compared in the order in which it lists them, and the bundle is in the byte order of SQLite. An import fails exactly where the target orders the rows otherwise (`CutoverImport.ReadBackIsExact`, `CutoverImport.Import`): an order that looks at case last refuses an importable bundle (`CutoverImport.DictionaryRefusesBinaryOrder`), while an order by bytes takes every export that jsonb can hold (`SqliteExport.BinaryTargetTakesExport`).
- An export is refused as soon as one workspace has a scope, and every `createWorkspace` leaves one. It is also refused for one number beyond the safe integers, although the routes put no bound on canvases. So the export of a run is accepted exactly if it created no workspace and every recorded revision and audited batch keeps within the bound (`SqliteExport.AcceptedExactly`). One larger number, even one that only the audit log still holds, refuses every later export (`SqliteExport.RefusedForGood`, `SqliteExport.FarMoveIsRefused`, `SqliteExport.FarMoveInLogIsRefused`).
- One batch of canvas operations succeeds where the same operations in two batches fail, exactly when an edge dangles in between and none does in the end; otherwise they agree (`Canvas.BatchingAgrees`, `Canvas.BatchingCanSucceedAlone`).
- A raw payload cannot be archived under two runs of one scope whose truncated hashes are equal, and that is the only failure of an undisturbed caller that is not a conflict (`RawLandingProgress.ArchiveSucceedsAlone`, `RawLandingProgress.CollidingRunIsRefused`).
- A gate table that lists a check in two gates can never be passed, since the later gate waits for itself; every other one can (`EvidenceProgress.GatesCanBePassed`). That of the pilot can (`EvidenceProgress.PilotGatesAreDisjoint`).
- A crash inside `initialize`, between the mkdir and the first write, leaves a directory that every later call refuses, `initialize` included (`EvidenceRoot.EmptyDirectoryIsStuck`). From the first write on, recovery is complete (`EvidenceRoot.InitializeIsAtomicFromItsFile`, `EvidenceRoot.ReadableExactlyIfWritten`).
- Where versions are required and the bucket keeps none, no run is ever archived, and each refused write leaves its blob behind (`RawLandingProgress.UnversionedBucketNeverLands`, `RawLandingProgress.RefusedWriteLeavesOrphan`).
- The SQLite ingest lets a failed run be retried with another payload, and rebinds its hash if that completes; the PostgreSQL ingest never does (`IngestRuns.LegacyBindingChanges`, `IngestRuns.IngestIsExactlyOnce`).

## Model

| member | source | states |
|---|---|---|
| NumberToken.MatchTokenOf | apps/api/src/cutover-preflight.ts:10 | Wherever a number of the grammar ends, the sticky expression matches exactly that number, whole. |
| NumberToken.MatchedIsNumber | apps/api/src/cutover-preflight.ts:10 | Whatever the sticky expression matches, in any text, is a number of the grammar. |
| NumberToken.ParseNumberOf | apps/api/src/cutover-preflight.ts:11 | Reading a number of the grammar through the capture groups gives back its sign, digits, fraction and exponent. |
| Decimal.NormalizeKeepsValue | apps/api/src/cutover-preflight.ts:175-197 | The normalised triple denotes the same rational as the token, for digit strings and exponents of any length. |
| Decimal.NormalizeIsNormal | apps/api/src/cutover-preflight.ts:175-197 | Zero has one triple; any other number has a sign and a significand that ten does not divide. |
| Decimal.NormalFormIsUnique | apps/api/src/cutover-preflight.ts:199-203 | Two normal triples with the same value are the same triple. |
| Decimal.NormalizeDecidesEquality | apps/api/src/cutover-preflight.ts:175-203 | Two tokens normalise to the same triple if and only if they denote the same rational. |
| NumberScan.ValidateJsonNumberTokens | apps/api/src/cutover-preflight.ts:216-249 | The loop with its string and escape flags reports the first token of the recursive scan that the check rejects. |
| NumberScan.ScanValue | apps/api/src/cutover-preflight.ts:216-249 | Over any JSON value, followed by anything that cannot extend a number, the scan visits exactly its number leaves, in order and whole. |
| NumberScan.ScanDocument | apps/api/src/cutover-preflight.ts:216-249 | The scan of a whole JSON text visits exactly the number tokens of its parse. |
| NumberScan.LosslessIffExact | apps/api/src/cutover-preflight.ts:199-214 | A token is accepted if and only if its double is finite, is not negative zero, and prints to a number of the same value. |
| NumberScan.AcceptedExactly | apps/api/src/cutover-preflight.ts:205-249 | The scan accepts a document if and only if that holds of every number leaf in it. |
| NumberScan.SpellingDoesNotMatter | apps/api/src/cutover-preflight.ts:175-214 | Two spellings of one number, with one sign, are accepted or refused together. |
| NumberScan.TrailingZeroDoesNotMatter | apps/api/src/cutover-preflight.ts:175-214 | A zero added after the last digit of the fraction, in any number of the grammar, changes nothing about its acceptance. |
| NumberScan.OnePointZeroIsAccepted | apps/api/src/cutover-preflight.ts:205-214 | 1.0 is accepted, although it is not printed so. |
| NumberScan.LosslessTokenIsExact | apps/api/src/cutover-preflight.ts:205-214 | An accepted token denotes the same number after a trip through a double and its printed form. |
| NumberScan.AcceptedDocumentIsExact | apps/api/src/cutover-preflight.ts:205-270 | In an accepted document every double of the parsed value prints to the number the text spells, anywhere in the tree. |
| JsonSyntax.ParseDenotes | apps/api/src/cutover-preflight.ts:258-263 | JSON.parse builds well-keyed values that mean what the text means, the last of repeated keys counting. |
| CanonicalPrinter.StringSyntaxSpells | apps/api/src/cutover-preflight.ts:278 | The printed form of a string is valid JSON and spells its code units back. |
| CanonicalPrinter.StringIsQuoted | apps/api/src/cutover-preflight.ts:278 | Every unit is spelled as JSON.stringify spells it: seven short escapes, lower-case hexadecimal for other controls and lone surrogates, and itself otherwise. |
| CanonicalPrinter.LessMeans | apps/api/src/cutover-preflight.ts:282-283 | The order of keys puts a proper prefix first and otherwise the smaller code unit where two keys first differ. |
| CanonicalPrinter.SortSorts | apps/api/src/cutover-preflight.ts:282-283 | Sorting entries by code unit makes distinct keys strictly ascending. |
| CanonicalPrinter.AscendingIsUnique | apps/api/src/cutover-preflight.ts:282-283 | Strictly ascending members are determined by which members they are. |
| CanonicalPrinter.CanonicalIsCompactSorted | apps/api/src/cutover-preflight.ts:276-287 | Sorting each object while printing gives the text of the value sorted everywhere first. |
| CanonicalText.CompactDecodes | apps/api/src/cutover-preflight.ts:276-287 | Unique decodability: if two printed values with continuations are the same text, the values and the continuations are equal. |
| CanonicalText.SortDeepKeepsMeaning | apps/api/src/cutover-preflight.ts:276-287 | Sorting members anywhere in a value changes nothing that it means. |
| CanonicalText.MeaningDeterminesSorted | apps/api/src/cutover-preflight.ts:276-287 | Values equal up to member order are identical once sorted. |
| CanonicalText.CanonicalFormDecidesMeaning | apps/api/src/cutover-preflight.ts:276-287 | Two values print to the same canonical text if and only if they are equal up to the order of object members. |
| CanonicalDocument.CanonicalFormOfDoubles | apps/api/src/cutover-preflight.ts:94-107 | Two values the bundle schema admits share a canonical text if and only if they are equal up to member order, under the law that a printed finite double reads back as itself. |
| CanonicalDocument.CanonicalTextIsExact | apps/api/src/cutover-preflight.ts:251-287 | The canonical text of an accepted document is JSON that spells its exact decimal content, number for number and key for key. |
| CanonicalDocument.CanonicalTextIsAccepted | apps/api/src/cutover-preflight.ts:205-249 | The scan accepts every canonical text. |
| Preflight.ValidateWorkspace | apps/api/src/cutover-preflight.ts:312-343 | Accepts a workspace exactly when it has an owner and a history 1..n that ends in its version and snapshot; otherwise names the first reason. |
| Preflight.CollectHistories | apps/api/src/cutover-preflight.ts:294-305 | Groups revisions by workspace in bundle order, or names the first revision whose workspace is missing. |
| Preflight.ValidateInvariants | apps/api/src/cutover-preflight.ts:289-345 | Accepts exactly the sound bundles, and otherwise explains the first thing that is wrong. |
| Preflight.SoundIsOwned | apps/api/src/cutover-preflight.ts:312-320 | A workspace of an accepted bundle has an owner among its own members. |
| Preflight.SoundByMeaning | apps/api/src/cutover-preflight.ts:341-343 | Comparing snapshots by canonical text accepts a bundle exactly when they are equal as JSON values. |
| TargetIntegrity.HistoryCheckIsExact | apps/api/src/cutover-import.ts:461-466 | Pigeonhole: unique versions have minimum 1 and maximum equal to their count if and only if they are exactly 1..n. |
| TargetIntegrity.HistoryCheckMeansContiguous | apps/api/src/cutover-import.ts:461-466 | On versions in key order the aggregate check holds if and only if the history is contiguous. |
| TargetIntegrity.IntegrityIsBacking | apps/api/src/cutover-import.ts:447-491 | The four SQL checks hold if and only if each workspace is owned, has its scope rows in the target and no others, and points at some revision of a complete history. |
| TargetIntegrity.AcceptedBundlePassesIntegrity | apps/api/src/cutover-import.ts:447-491 | A bundle that preflight accepts passes the SQL checks once imported. |
| TargetIntegrity.IntegrityMeansSoundIfCurrent | apps/api/src/cutover-import.ts:447-491 | Where the SQL checks pass on uniquely keyed rows with resolved references, the data are sound if and only if every workspace row points at the last revision of its history. |
| TargetIntegrity.IntegrityAcceptsStaleWorkspace | apps/api/src/cutover-import.ts:447-491 | Such rows need not be current: a workspace row that points at an older revision passes the SQL checks and not preflight. |
| CorrelationMapping.CreateCorrelationIdMapping | apps/api/src/cutover-import.ts:92-119 | Returns exactly when the UUIDs of the distinct ids do not collide, with an injective mapping and the exact remapped count; otherwise names a real collision. |
| CutoverImport.InsertBatches | apps/api/src/cutover-import.ts:331-340 | Batches of 500 add up to exactly the records in order, however many there are, unless a query fails. |
| CutoverImport.InsertTargetData | apps/api/src/cutover-import.ts:342-433 | The five tables end as the expected data; without failures this succeeds for every consistent target. |
| CutoverImport.ExpectedIsSound | apps/api/src/cutover-import.ts:133-164 | Rewriting correlation ids keeps everything preflight checked. |
| CutoverImport.ExpectedIsMigrated | apps/api/src/cutover-import.ts:133-164 | Workspaces and members are the report's, each workspace has one scope row, and every revision and audit row keeps all columns but its correlation id, which is the UUID of the reported one. |
| CutoverImport.CorrelationsSurvive | apps/api/src/cutover-import.ts:92-164 | Two rows share a correlation id in the target if and only if they shared one in the source. |
| CutoverImport.CheckRequest | apps/api/src/cutover-import.ts:621-637 | Passes exactly for an acceptable request, with the mapping of its correlation ids; otherwise names what is wrong with it. |
| CutoverImport.ExpectedIsConsistent | apps/api/src/cutover-import.ts:133-164 | The expected tables respect the keys of the target exactly when the rows of the bundle do. |
| CutoverImport.AdmissibleMeansUniqueKeys | apps/api/src/cutover-import.ts:342-433 | For data that preflight accepts, the target asks for nothing but unique keys in the five tables. |
| CutoverImport.ScopeIsTakenExactly | apps/api/src/cutover-import.ts:216-235 | A target scope is taken if and only if it names two UUIDs and an actor of at most 255 characters, up to blanks and case. |
| CutoverImport.PreflightAcceptsRepeatedWorkspace | apps/api/src/cutover-preflight.ts:289-345 | Preflight itself does not check row keys: it accepts a bundle that lists a workspace twice. |
| Collation.ReadBackIffInOrder | apps/api/src/cutover-import.ts:493-518 | A query returns rows as they are listed if and only if they are listed in the order of its collation. |
| CutoverImport.ReadBackIsExact | apps/api/src/cutover-import.ts:493-518 | The four tables are read back as the bundle lists them if and only if it lists them in the order of the target. |
| CutoverImport.ListedMeans | apps/api/src/cutover-import.ts:493-518 | The order read back is, row after row, that of the workspace, of the workspace and version, of the workspace and user, and of the audit id. |
| Collation.CollationsAreTotal | apps/api/src/cutover-import.ts:493-518 | The byte order and the dictionary order put any two texts in one order and are transitive. |
| CutoverImport.DictionaryRefusesBinaryOrder | apps/api/src/cutover-import.ts:493-518 | Such an order can fail: an importable report with members Z and a is taken by an empty target that orders text by its bytes and by no target that looks at case last. |
| CutoverImport.VerifyTarget | apps/api/src/cutover-import.ts:665-684 | Passes only if the rows, as the target orders them, are the expected ones and pass the SQL checks, and always passes when they do, are listed in that order, and no query fails. |
| CutoverImport.Transact | apps/api/src/cutover-import.ts:643-711 | Success means the target was empty, orders the rows as listed, and now holds exactly the expected tables (apply) or what it held (dry run); an error leaves it untouched and says whether a transaction is open. |
| CutoverImport.Import | apps/api/src/cutover-import.ts:621-715 | With a failure possible at every query: an applied success leaves the report row by row, correlation ids as their UUIDs; anything else leaves the committed tables alone; the connection is discarded exactly when its transaction may be open; an error says what is wrong with the request or the target; without failures it succeeds if and only if the request is importable, schema and scope included, into an empty prepared target whose jsonb can hold its JSON and whose collation lists the rows as the bundle does. |
| KeyedList.FindIndex | apps/api/src/database.ts:199 | Returns the first index with the id, or none. |
| Canvas.ValidateWorkspaceSnapshot | apps/api/src/database.ts:173-191 | Returns exactly for unique node ids, unique edge ids and existing endpoints; otherwise names the first fault, nodes before edges and of an edge its id, source and target in this order. |
| Canvas.ApplyCanvasOperations | apps/api/src/database.ts:193-252 | The loop over arrays computes the interpreter function, and its errors are the first failing operation or the first fault of the final graph. |
| Canvas.EditRefines | apps/api/src/postgres-workspace-persistence.ts:148-205 | Each array edit on unique ids does to the maps keyed by id what the operation means, with the same error. |
| Canvas.InterpreterRefinesMaps | apps/api/src/database.ts:193-252 | On a well-formed snapshot it throws if and only if the map semantics fails or the final graph dangles; otherwise its arrays stand for the resulting maps and the viewport stays. |
| CanvasEffects.GraphEditMeans | apps/api/src/database.ts:193-252 | On maps an operation that is allowed has just its effect, field by field: an update keeps endpoints, takes kind, position and data keys from the patch where it has them, and leaves every other id alone; any other operation has its complaint. |
| CanvasEffects.InterpreterMeans | apps/api/src/database.ts:193-252 | On a well-formed snapshot a batch succeeds if and only if its effects, one after the other, lead to a graph without dangling edges, and its arrays then stand for that graph. |
| CanvasEffects.InterpreterStops | apps/api/src/database.ts:193-252 | An error of the edits is the complaint of the first operation that is not allowed where it stands. |
| CanvasEffects.SingleOperation | apps/api/src/database.ts:193-252 | One operation succeeds if and only if its node or edge is there, or is new, and no edge is left without a node; then it has just its effect. |
| CanvasEffects.EditListed | apps/api/src/database.ts:193-252 | Updates and moves keep the order of the arrays, a removal closes the gap, and what is added goes last. |
| Canvas.SurvivingNodesKeepOrder | apps/api/src/database.ts:193-252 | Nodes that no operation removes keep their relative order. |
| Canvas.SurvivingEdgesKeepOrder | apps/api/src/database.ts:193-252 | Edges that no operation removes keep their relative order. |
| Canvas.BatchingAgrees | apps/api/src/database.ts:193-252 | On a well-formed snapshot one batch a ++ b equals a then b, except if and only if on maps keyed by id an edge dangles after a and none after both; there the batch succeeds and the two fail. |
| Canvas.BatchingCanSucceedAlone | apps/api/src/database.ts:193-252 | Removing a node and then its edge succeeds in one batch and fails in two. |
| WorkspaceHistory.FusionDatabase.CreateWorkspace | apps/api/src/database.ts:652-701 | Ends with the new workspace, scope, owner and first revision, or with a conflict and unchanged tables. |
| WorkspaceHistory.FusionDatabase.UpsertWorkspaceMember | apps/api/src/database.ts:739-786 | Ends with the changed member or the error of the first check that fails, tables unchanged. |
| WorkspaceHistory.FusionDatabase.RemoveWorkspaceMember | apps/api/src/database.ts:788-822 | Ends with the member removed or the error of the first check that fails, tables unchanged. |
| WorkspaceHistory.FusionDatabase.ApplyWorkspaceOperations | apps/api/src/database.ts:824-872 | Ends with one new version made by the interpreter, or the first error, tables unchanged. |
| WorkspaceHistory.FusionDatabase.UpdateWorkspace | apps/api/src/database.ts:886-920 | Ends with one new version holding what was sent, or the first error, tables unchanged. |
| WorkspaceHistory.FusionDatabase.RollbackWorkspace | apps/api/src/database.ts:922-962 | Ends with one new version holding the named revision, or the first error, tables unchanged. |
| WorkspaceHistory.OwnerRetained | apps/api/src/database.ts:739-822 | The last-owner rule leaves a workspace owned after any single membership change. |
| WorkspaceHistory.StepKeepsValid | apps/api/src/database.ts:579-962 | Every call keeps versions exactly 1..n, the current snapshot equal to revision n, references resolved and at least one owner. |
| WorkspaceHistory.StepExtendsHistory | apps/api/src/database.ts:824-962 | Each call leaves a history as it was or adds one revision that its operations, its rollback or its save makes of the history before. |
| WorkspaceHistory.RunKeepsValid | apps/api/src/database.ts:652-962 | Over any run histories only grow: each is a prefix of its later self. |
| WorkspaceAuthority.CallFailsExactly | apps/api/src/database.ts:703-962 | A call fails if and only if there is a reason, out of visibility, role, last owner, version, target and interpreter, and with the first one. |
| WorkspaceAuthority.RolesAfterCall | apps/api/src/database.ts:652-822 | The role of a user after a call is the one the call gives or takes if it is about them, and otherwise the one before. |
| WorkspaceAuthority.OtherWorkspacesStay | apps/api/src/database.ts:652-962 | A call leaves the row, the history and the scope of every other workspace as they were. |
| WorkspaceAuthority.CreatedWorkspace | apps/api/src/database.ts:652-701 | A new workspace is empty, at version one, in the scope of its creator, who alone is a member and owns it. |
| WorkspaceAuthority.VersionsAfterCall | apps/api/src/database.ts:824-962 | A call on versions adds exactly one, by its actor, and no other call touches rows, history or scope of a known workspace. |
| SqliteExport.ValidStatesAreSound | apps/api/src/cutover-preflight.ts:289-345 | The export of every valid state satisfies the preflight invariants, however snapshots are compared. |
| SqliteExport.ReachableStatesAreSound | apps/api/src/cutover-preflight.ts:289-345 | The export satisfies them for every state reachable from an empty file by any calls. |
| SqliteExport.CreateReport | apps/api/src/cutover-preflight.ts:402-505 | Refused when any workspace is scoped; otherwise accepted exactly when the schema admits every number of the rows and the rows are sound, with the first of these as the error. |
| SqliteExport.ScopesComeFromCreate | apps/api/src/database.ts:652-701 | A run leaves a scope if and only if some createWorkspace in it succeeded. |
| SnapshotRange.SnapshotIsAdmittedExactly | apps/api/src/cutover-preflight.ts:94-107 | The schema takes a snapshot if and only if every number of its viewport and positions is a safe one and so is all of its data. |
| SnapshotRange.OperationIsAdmittedExactly | apps/api/src/cutover-preflight.ts:94-107 | The schema takes a logged operation if and only if every position and all data in it are safe; removals carry neither. |
| SnapshotRange.EditKeepsAdmitted | apps/api/src/database.ts:193-252 | An edit copies values: what it makes of values within the schema is within the schema. |
| SnapshotRange.RunKeepsAdmitted | apps/api/src/database.ts:579-962 | Over any run whose calls carry only admitted values, every recorded revision is admitted. |
| SqliteExport.AcceptedExactly | apps/api/src/cutover-preflight.ts:94-107 | The export of any run is accepted if and only if no createWorkspace in it succeeded and every recorded revision and every audited batch holds only numbers within the safe integers. |
| SqliteExport.AdmittedRunIsAccepted | apps/api/src/cutover-preflight.ts:94-107 | The export of a run that creates no workspace and whose calls carry only admitted values is accepted. |
| SqliteExport.RefusedForGood | apps/api/src/cutover-preflight.ts:94-107 | One number beyond the safe integers, in a revision or only in the log, refuses the export of every longer run. |
| SqliteExport.FarMoveIsRefused | apps/api/src/schemas.ts:67-77 | A move to 1e16, which the routes accept, is recorded and refuses the export of a run without createWorkspace. |
| SqliteExport.FarMoveInLogIsRefused | apps/api/src/database.ts:859-864 | So does a batch that moves there and back: every revision is admitted, and the audit log is not. |
| SqliteExport.ExportIsAdmissible | apps/api/src/cutover-preflight.ts:424-443 | Exported rows, audit log included, respect the keys of the target, having come from tables with the same keys. |
| SqliteExport.AcceptedExportIsImportable | apps/api/src/cutover-import.ts:621-637 | An accepted export of any run can be imported if and only if the UUIDs of its correlation ids do not collide and the target scope is valid. |
| SqliteExport.BinaryTargetTakesExport | apps/api/src/cutover-import.ts:493-518 | An empty prepared target that orders text as SQLite does takes the export of any run if and only if jsonb can hold its JSON. |
| WorkspaceCas.CommitKeepsValid | packages/postgres-runtime/src/workspace-repository.ts:186-306 | The compare-and-set keeps revision n the current snapshot and every revision justified by the one before it. |
| WorkspaceCas.RunKeepsValid | apps/api/src/postgres-workspace-persistence.ts:309-435 | Under any interleaving of clients, membership changes and crashes, recorded revisions stay and each follows from its request. |
| WorkspaceCas.CommittedRevisionsFollow | apps/api/src/postgres-workspace-persistence.ts:328-408 | Revision n+1 made by operations equals them applied to revision n; made by rollback it equals the named earlier revision, although both were read in earlier transactions. |
| WorkspaceCas.VersionMovesByAuthorisedCommit | packages/postgres-runtime/src/workspace-repository.ts:186-218 | A step that moves the version is a compare-and-set whose actor is owner or editor at that moment, and moves it by one. |
| WorkspaceCas.EachAcknowledgementIsAVersion | apps/api/src/postgres-workspace-persistence.ts:410-435 | No lost update: the version grows by exactly the number of acknowledged requests. |
| WorkspaceCas.UndisturbedClientSucceeds | apps/api/src/postgres-workspace-persistence.ts:309-435 | Progress: in any valid state a client that nobody disturbs succeeds if and only if its actor may edit, its base version is the current one and its request has a result; then that result is the next revision and the current snapshot, and otherwise the workspace stays and the client is told the first reason. |
| WorkspaceCas.ReadsNeedMembership | apps/api/src/postgres-workspace-persistence.ts:309-435 | No step shows a client the workspace, a role or a revision unless its actor is a member at that moment; a read by anybody else is forbidden. |
| WorkspaceCas.ReadCopyIsCurrentAtSameVersion | apps/api/src/postgres-workspace-persistence.ts:340-344 | No ABA: while the version is the one that was read, so are the snapshot and the history. |
| WorkspaceCas.RevisionsAreWellFormed | apps/api/src/postgres-workspace-persistence.ts:128-146 | If the first snapshot is well-formed, every revision ever committed is. |
| PilotGate.Evaluate | infra/pilot_gate/evaluation.py:227-248 | Lists a missing check, a wrong run, a wrong environment, a failed check or a measurement if and only if it is a fact, and nothing if and only if every required check is there, of this run and environment, and passed, and nothing measured is out of bounds. |
| PilotGate.SignSucceedsExactly | infra/pilot_gate/evaluation.py:423-480 | An attestation is signed if and only if the reviewer is not the operator, the key is the one of the manifest and long enough, and the run is of the manifest. |
| PilotGate.AttestationBinds | infra/pilot_gate/evaluation.py:423-533 | An accepted attestation names another reviewer than the operator and is accepted with a key and for a run if and only if the key is the same and the run agrees with the reviewed one on its identity and on its check and supporting indexes. |
| PilotGate.RecordKeepsGates | infra/pilot_gate/evidence.py:434-457 | For any gate table: a recorded check of a gate means every check of the lower gates is recorded as passed. |
| PilotGate.RecordKeepsState | infra/pilot_gate/evidence.py:474-488 | Before a decision the state after a record is a function of the check index. |
| EvidenceStore.Store.ReadRunAndRepair | infra/pilot_gate/evidence.py:296-432 | Makes exactly the repair write, or dies before it, and returns the repaired run. |
| EvidenceStore.Store.Record | infra/pilot_gate/evidence.py:434-488 | Makes the planned writes one file at a time, as many as it lives to make, and reports how it ended. |
| EvidenceStore.Store.RecordSupportingEvidence | infra/pilot_gate/evidence.py:655-679 | Adds supporting evidence by its planned writes, one file at a time, and reports how it ended. |
| EvidenceStore.Store.FinalizeRun | infra/pilot_gate/evidence.py:681-742 | Writes the attestation, the decision and the index one file at a time, repairing and refusing where a decision exists. |
| EvidenceRecovery.RepairSettles | infra/pilot_gate/evidence.py:305-432 | Repair never rejects a directory the store wrote, and repairing again changes nothing. |
| EvidenceRecovery.AcceptedIsRecorded | infra/pilot_gate/evidence.py:434-488 | Every prefix of the writes of an accepted call is a valid directory that shows the old run, or from the second write on the new one. |
| EvidenceRecovery.CrashesAreAtomic | infra/pilot_gate/evidence.py:305-742 | After a crash between any two writes of any call the next read succeeds and yields the run before the call or the run the whole call would leave. |
| EvidenceRecovery.RetryCompletes | infra/pilot_gate/evidence.py:434-742 | After a crash before its second write a call is accepted again and leaves the run that the whole call would have left; after a later one that run is already there. |
| EvidenceRecovery.RunsOnlyGrow | infra/pilot_gate/evidence.py:434-742 | Over any calls with any crashes the run only grows: a failed run stays failed and gets no more checks, and a decided run never changes. |
| EvidenceRecovery.ViewIsAccountable | infra/pilot_gate/evidence.py:305-432 | Every run a call sees has its gates in order, at most one failed check, a state its checks or decision account for, and passed only with every required check passed. |
| EvidenceRecovery.ReachableRunsAreAccountable | infra/pilot_gate/evidence.py:240-286 | The same for every run that starts with initialize, for any gate table and any calls with any crashes. |
| EvidenceProgress.CheckIsAcceptedExactly | infra/pilot_gate/evidence.py:434-488 | A check is recorded if and only if the run is open and the check is of its run and environment, known, new, and past no lower gate that has not passed. |
| EvidenceProgress.SupportingIsAcceptedExactly | infra/pilot_gate/evidence.py:655-679 | Supporting evidence is recorded if and only if its adapter is allowed and new and the run is open. |
| EvidenceProgress.RecordAddsItsEntry | infra/pilot_gate/evidence.py:434-679 | An accepted record adds its own entry to the index, with the hash, the status and the gate of its evidence, and nothing else. |
| EvidenceProgress.DecisionIsAcceptedExactly | infra/pilot_gate/evidence.py:681-742 | A run is decided if and only if it is not decided and the attestation is what its reviewer signs for the run as it stands. |
| EvidenceProgress.DecisionIsPassExactly | infra/pilot_gate/evidence.py:681-742 | The decision is a pass if and only if the recorded checks satisfy the gates, and records exactly the violations that are facts. |
| EvidenceProgress.ConflictingFileIsRefused | infra/pilot_gate/evidence.py:434-742 | A content file that is there with other content is never overwritten: the call that would write it fails. |
| EvidenceProgress.OnlyIntactEvidenceIsDecided | infra/pilot_gate/evidence.py:490-742 | Whatever is in the directory, a run is only decided if every indexed file is there, is what was hashed, and is of the check it is indexed as. |
| EvidenceProgress.DecisionIsRepairedExactly | infra/pilot_gate/evidence.py:305-432 | A decision that is found is accepted if and only if it stands on intact evidence and attestation, says what the evaluation of that evidence says, and the index does not say otherwise. |
| EvidenceProgress.GatesCanBePassed | infra/pilot_gate/evidence.py:434-742 | For any gate table, given evidence that satisfies it and a reviewer who is not the operator: some calls lead from initialize to a pass if and only if no check is listed in two gates. |
| EvidenceProgress.PilotGatesAreDisjoint | infra/pilot_gate/contract.py:18-40 | The gate table of the pilot lists no check twice. |
| EvidenceRoot.OutputRoot.Initialize | infra/pilot_gate/evidence.py:240-286 | Makes the directory and then its first file, or refuses for an existing directory or a predecessor that did not fail in the same environment, or dies in between. |
| EvidenceRoot.InitializeStartsExactly | infra/pilot_gate/evidence.py:240-286 | A run can be started if and only if its directory is new and its predecessor, if it names one, is recorded as failed in the same environment; then only its directory is added. |
| EvidenceRoot.InitializeIsAtomicFromItsFile | infra/pilot_gate/evidence.py:240-299 | After a crash of initialize the next read succeeds if and only if the run file was written, and initialize can be repeated if and only if nothing was. |
| EvidenceRoot.EmptyDirectoryIsStuck | infra/pilot_gate/evidence.py:254-293 | A directory left between the two stays empty over any later calls and initializes, under any manifests. |
| EvidenceRoot.RootsOnlyGrow | infra/pilot_gate/evidence.py:240-742 | Over any initializes and calls on all runs, under any manifests and crashes: every other directory stays as the store writes it, its run only grows, and the predecessor of a run stays there and failed. |
| EvidenceRoot.ReadableExactlyIfWritten | infra/pilot_gate/evidence.py:288-432 | In every reachable output root a run reads and repairs if and only if its index was written under that manifest. |
| RawLanding.RunKeepsValid | apps/api/src/postgres-raw-landing.ts:159-251 | Under any interleaving of replicas with crashes the invariants of rows, events, blobs and waiting callers hold. |
| RawLanding.RowsAreUniqueVisibleAndBacked | apps/api/src/postgres-raw-landing.ts:130-251 | At most one row per run; each row has exactly one received event, so the lifecycle join never hides it; each locator names a blob of that checksum and size. |
| RawLanding.SamePayloadSameId | apps/api/src/postgres-raw-landing.ts:159-251 | Two answered callers of one run get one id if their payloads are equal, and a conflict is only ever told to a different payload. |
| RawLanding.OtherPayloadConflicts | apps/api/src/postgres-raw-landing.ts:183-214 | Once a run is archived, an insert under it changes nothing and ends in the archived id or, for other content, a conflict. |
| RawLanding.ContentIsNeverLost | apps/api/src/object-storage.ts:253-398 | The blob verifications never fail for content, since a deterministic key is never overwritten. |
| RawLandingProgress.ArchiveSucceedsAlone | apps/api/src/postgres-raw-landing.ts:159-251 | From every reachable state, if the bucket keeps the versions required, a new caller that nobody disturbs is told of a conflict if and only if its run holds other content, gets the archived row if it holds this content, both without a write to the bucket, a database error if and only if an unarchived run collides with another one in truncated hash and payload, and otherwise its own new row. |
| RawLandingProgress.CollidingRunIsRefused | apps/api/src/postgres-raw-landing.ts:130-251 | Two runs of one truncated hash and one payload, one after the other: the first is archived and the second is refused with a database error. |
| RawLandingProgress.UnversionedBucketNeverLands | apps/api/src/object-storage.ts:284-287 | With versions required and a bucket without them, no run is ever archived. |
| RawLandingProgress.RefusedWriteLeavesOrphan | apps/api/src/object-storage.ts:284-287 | From every reachable state the blob of such a refused write stays in the bucket over any later run, with no row to name it. |
| RawLanding.CompleteIsIdempotent | apps/api/src/postgres-raw-landing.ts:253-288 | complete shows the state it was given and doing it again adds nothing. |
| RawLanding.ReplayKeepsLifecycle | apps/api/src/postgres-raw-landing.ts:337-365 | A replay leaves the lifecycle state of every landing as it was. |
| RawLandingProgress.LifecycleIsLast | apps/api/src/postgres-raw-landing.ts:130-158 | The state shown is that of the last event that is not a replay. |
| RawLandingProgress.StorageAnswers | apps/api/src/object-storage.ts:253-398 | A blob found under its key is reused in the version it has, unless a version is required and there is none, and confirmed only as the very version, checksum and size of the reference. |
| RawLandingProgress.EventIsAdded | apps/api/src/postgres-raw-landing.ts:253-365 | A replay adds its event to every landing of the scope, and complete adds one if and only if it changes what is shown. |
| RawLandingProgress.ArchivedPayloadStays | apps/api/src/postgres-raw-landing.ts:159-335 | Once a caller is told that its payload is archived, the row it was given names a blob with just that payload, whatever happens later. |
| RawLandingProgress.KeysCollideExactly | apps/api/src/postgres-raw-landing.ts:119-128 | Two requests share an object key if and only if their truncated hashes of tenant, project and run agree, and their payloads. |
| IngestRuns.IndustrialStore.Ingest | apps/api/src/postgres-industrial-persistence.ts:565-704 | One atomic transaction applies the bundle, and only its failure is recorded by a second one. |
| IngestRuns.IndustrialStore.RecordFailedRun | apps/api/src/postgres-industrial-persistence.ts:1264-1332 | Records a failure without touching a succeeded run or the hash of any run. |
| IngestRuns.IngestIsExactlyOnce | apps/api/src/postgres-industrial-persistence.ts:565-704 | However ingests and failure records interleave: a key keeps its hash, success is absorbing, a key completes at most once, and the data is what the completed bundles make in log order. |
| IngestRuns.ReplayChangesNothing | apps/api/src/postgres-industrial-persistence.ts:590-612 | A completed bundle sent again is answered and changes nothing; another under its key is refused and changes nothing. |
| IngestRuns.IngestAnswers | apps/api/src/postgres-industrial-persistence.ts:590-704 | In every valid state: what the log completed is answered, a key bound to another payload is refused, and everything else, failed runs included, completes if and only if it has an effect, with exactly that effect. |
| IngestRuns.FailedBundleCanBeRetried | apps/api/src/postgres-industrial-persistence.ts:600-704 | A rejected bundle of a known source is recorded as failed, keeps its key, and completes when sent again, whatever happened in between, as soon as it has an effect. |
| IngestRuns.FailureIsRecorded | apps/api/src/postgres-industrial-persistence.ts:1264-1332 | A recorded failure leaves a failed row of a known source, unless it succeeded, bound as it was or to this payload, and changes nothing else. |
| IngestRuns.WaitingCallers | apps/api/src/postgres-industrial-persistence.ts:700-704 | A caller records a failure exactly for the bundle that was last rejected, and once. |
| IngestRuns.LegacyAnswers | apps/api/src/database.ts:1206-1348 | The SQLite form after any bundles: a completed run answers its bundle and refuses others, and any other run completes if and only if the bundle has an effect. |
| IngestRuns.LateFailureKeepsSuccess | apps/api/src/postgres-industrial-persistence.ts:1295-1306 | A failure recorded after another caller succeeded leaves that run as it is. |
| IngestRuns.LegacyBindingChanges | apps/api/src/database.ts:1206-1348 | However often a run is sent to SQLite, it completes at most once, and it gives up the hash of its first bundle if and only if another payload completes it later. |
| IndustrialData.IngestsKeepDataSound | apps/api/src/postgres-industrial-persistence.ts:669-674 | Over concurrent ingests and failure records the assets stay a forest, each semantic relation has one candidate, and stored points and settled candidates never change. |
| IndustrialData.CompletedPointsStay | apps/api/src/postgres-industrial-persistence.ts:669-696 | Every point of a completed bundle stays stored as it was sent. |
| AssetForest.WalkDecidesCycles | apps/api/src/postgres-industrial-persistence.ts:990-1002 | The recursive walk terminates and reports a cycle if and only if the parent graph has one. |
| AssetForest.TextSearchIsMembership | apps/api/src/database.ts:1387-1397 | Searching the comma-delimited path text finds an id exactly when it is on the path, as no id the request schema accepts holds a comma. |
| AssetForest.TextWalkDecidesCycles | apps/api/src/database.ts:1385-1400 | The SQLite walk, which carries the text of its path, terminates and reports a cycle if and only if the parent graph has one, for every hierarchy of ids the schema accepts. |
| AssetForest.AssertNoAssetCycles | apps/api/src/database.ts:1385-1400 | The walk over path texts from every asset passes exactly for acyclic hierarchies. |
| AssetForest.UpsertAssets | apps/api/src/database.ts:1240-1262 | Inserts, sets parents in order and walks, or fails with nothing changed. |
| AssetForest.UpsertDoesAsAsked | apps/api/src/postgres-industrial-persistence.ts:963-1003 | A bundle is accepted if and only if the parents it names are known and hanging every asset from the last parent named for it, or from the one it had, makes no cycle; then that is the hierarchy it leaves. |
| AssetForest.UpsertKeepsForest | apps/api/src/postgres-industrial-persistence.ts:963-1003 | An accepted upsert leaves a forest with every parent present. |
| AssetForest.IngestsKeepForest | apps/api/src/postgres-industrial-persistence.ts:963-1003 | In every state reachable by serialised ingests the assets form a forest. |
| AssetForest.EveryAssetHasRoot | apps/api/src/postgres-industrial-persistence.ts:963-1003 | Every asset of a forest hangs from a root some steps up. |
| Telemetry.UpsertPoints | apps/api/src/postgres-industrial-persistence.ts:1022-1071 | Range check, insert-or-ignore and count compute the upsert function. |
| Telemetry.UpsertAcceptsExactlyAgreement | apps/api/src/postgres-industrial-persistence.ts:1031-1070 | The two counts are equal if and only if every point agrees with what is stored at its key and the batch does not contradict itself. |
| Telemetry.AcceptedBatchIsPresent | apps/api/src/postgres-industrial-persistence.ts:1032-1070 | An accepted batch is fully stored, nothing else is added and nothing changes. |
| Telemetry.StoredPointsNeverChange | apps/api/src/postgres-industrial-persistence.ts:1022-1071 | A stored point never changes over any sequence of ingests. |
| Telemetry.AcceptedPointsStay | apps/api/src/postgres-industrial-persistence.ts:1022-1071 | A batch accepted after any others leaves its points, as they were sent, in everything that follows. |
| Telemetry.AcceptedBatchReplays | apps/api/src/postgres-industrial-persistence.ts:1022-1071 | An accepted batch sent again at any later time is accepted and changes nothing. |
| Relations.CheckItems | apps/api/src/postgres-industrial-persistence.ts:1111-1130 | Passes exactly for bundles without self relations and repeated semantic relations. |
| Relations.IngestAcceptsExactly | apps/api/src/postgres-industrial-persistence.ts:1109-1205 | A bundle is accepted if and only if it relates different things, repeats neither relation nor id, and each relation is new or a candidate that still waits for review. |
| Relations.IngestStores | apps/api/src/postgres-industrial-persistence.ts:1206-1244 | Each of its candidates then waits for review or is accepted with its relation, as sent, and all others stay. |
| Relations.IngestKeepsValid | apps/api/src/postgres-industrial-persistence.ts:1109-1244 | An accepted bundle keeps one candidate per key, accepted ones backed, and settled candidates unchanged. |
| Relations.ReviewKeepsValid | apps/api/src/postgres-industrial-persistence.ts:718-807 | A review keeps one candidate per key, accepted ones backed by a relation, and settled candidates unchanged. |
| Relations.NothingToSupersede | apps/api/src/postgres-industrial-persistence.ts:772-782 | The update that closes rival candidates finds none in any reachable state. |
| Relations.ReviewDecides | apps/api/src/postgres-industrial-persistence.ts:718-807 | A review of a waiting candidate accepts it with its relation or rejects it, and changes nothing else; any other review changes nothing. |
| Relations.AcceptingNeverCollides | apps/api/src/postgres-industrial-persistence.ts:739-771 | A review succeeds if and only if its candidate exists and is proposed; accepting never collides with another relation. |
| Relations.ReachableTables | apps/api/src/postgres-industrial-persistence.ts:718-1244 | Over any calls: one candidate per endpoints and type, accepted candidates backed by a relation of the same endpoints and type, accepted and rejected ones final. |
| Relations.ListingShowsEachKeyOnce | apps/api/src/postgres-industrial-persistence.ts:1386-1416 | The combined listing, before filter and limit, shows each semantic relation exactly once. |
| Writeback.NormalizeIsStable | apps/api/src/advanced-platform.ts:155-183 | A normalised policy, its operations in any order and with repetitions, normalises to itself. |
| Writeback.NormalizeKeepsChoices | apps/api/src/advanced-platform.ts:155-183 | A normalised policy allows exactly the configured operations up to blanks and demands what was configured for each risk, or its minimum. |
| Writeback.NormalizeRefusesExactly | apps/api/src/advanced-platform.ts:155-183 | A policy is refused if and only if it has no dry run, a blank or long operation, or an approval requirement below its minimum or above 20. |
| Writeback.NoReasonsMeansSafe | packages/platform-core/src/writeback.ts:20-40 | No reason against a request means enabled, allowlisted, within the risk limit, not critical, dry-run safe, not rejected and enough distinct approvers. |
| Writeback.WritebackStore.CreateRequest | apps/api/src/advanced-platform.ts:480-507 | Ends with the request pending or cancelled and its event, or an error and unchanged tables. |
| Writeback.WritebackStore.ReviewRequest | apps/api/src/advanced-platform.ts:509-537 | Ends with the review, the resulting state and its event, or an error and unchanged tables. |
| Writeback.WritebackStore.BeginExecution | apps/api/src/advanced-platform.ts:557-586 | Ends with the request executing and its event, or an error and unchanged tables. |
| Writeback.WritebackStore.CompleteExecution | apps/api/src/advanced-platform.ts:588-608 | Ends with the outcome and its event, or an error and unchanged tables. |
| Writeback.ReviewApprovesExactly | apps/api/src/advanced-platform.ts:509-537 | A review approves if and only if it is an approval, nothing else stands against the request, and the approvals now suffice. |
| Writeback.CreateIsAnswered | apps/api/src/advanced-platform.ts:480-507 | A new request waits for approval if nothing but approvals stands against it and is cancelled otherwise, with one event; or it is refused and nothing changes. |
| Writeback.ReviewIsAnswered | apps/api/src/advanced-platform.ts:509-537 | A first review by somebody else approves, cancels or leaves the request waiting by its decision, the policy and the approvals, with one event; any other is refused with its first reason. |
| Writeback.EnoughReviewersApprove | apps/api/src/advanced-platform.ts:509-537 | A request that nothing stands against is approved by exactly as many different reviewers as its risk needs, none of them the requester. |
| Writeback.ExecutionIsAnswered | apps/api/src/advanced-platform.ts:539-608 | Execution begins if and only if the request is approved and the policy in force still clears it, ends once as it went, and each call logs one event and changes nothing else. |
| Writeback.ReachableRequests | apps/api/src/advanced-platform.ts:480-608 | Under any policies: execution starts at most once and only from approved, the requester never reviews, nobody reviews twice, the state is the fold of the events, and what started was cleared. |
| Writeback.FinishedRequestsStay | apps/api/src/advanced-platform.ts:480-608 | Cancelled, succeeded and failed requests never change again. |
| Upload.TemporaryFile.WriteAll | apps/api/src/object-store.ts:173-180 | Short writes add up to the whole buffer, or the file makes no progress. |
| Upload.DecodeSplits | apps/api/src/object-store.ts:277-291 | Streaming decoding of two pieces is decoding of their concatenation. |
| Upload.DecodesOneByte | apps/api/src/object-store.ts:277-291 | And of one byte is one step of the decoder. |
| Upload.UploadStream | apps/api/src/object-store.ts:249-318 | The result is a function of the concatenated bytes and the declared length: chunking and short writes do not show, a success leaves exactly those bytes in the file and an error removes it. |
| Upload.OutcomeIsExact | apps/api/src/object-store.ts:249-318 | An upload is too large, or of another length than declared, if and only if it is so, and otherwise records its size and hash. |
| Upload.ExtractIsExact | apps/api/src/object-store.ts:280-308 | Text is kept exactly when the whole decodes, as the first units of the decoding, and flagged exactly when there were more. |
| ObjectVersions.GovernedStore.Publish | apps/api/src/object-store.ts:320-345 | Moves the blob and records the next version of the object. |
| ObjectVersions.GovernedStore.Receive | apps/api/src/object-store.ts:249-346 | Streams an upload into a temporary file and publishes it as the next version, or leaves the tables as they were. |
| ObjectVersions.UploadAddsOneVersion | apps/api/src/object-store.ts:320-346 | An upload that succeeds adds one version, one blob and nothing else; one that dies before the record leaves its blob, and one that fails changes nothing. |
| ObjectVersions.RunKeepsValid | apps/api/src/object-store.ts:452-507 | Over any uploads, whole or cut short: versions stay exactly 1..current, recorded versions never change, and each keeps a blob whose size, hash and text are those recorded. |

## Left out

- WorkspaceHistory.StepKeepsValid: a seed inserts its workspace, revision and members in one step; a crash between the canvas seed and the members seed is not modelled.
- PilotGate.Evaluate: what a check's metrics must show is one abstract function; the violation for a check outside the required set is absent, since such a check does not get past the index.
- PilotGate.SignSucceedsExactly: the pattern of reviewer identities and the form of timestamps are not modelled.
- EvidenceStore.Store.FinalizeRun: the patterns and timestamps that the attestation and evidence records must match are not modelled.
- EvidenceRecovery.CrashesAreAtomic: a write torn inside one file is not modelled.
- RawLanding.RunKeepsValid: object sizes within the storage limit; content types, encryption headers and lost responses are not modelled apart from a crash of the caller.
- CutoverImport.Import: a COMMIT that fails after it took effect is not modelled, and the rules by which jsonb refuses U+0000 and lone surrogates enter as the set of objects it can hold.
- IndustrialData.IngestsKeepDataSound: transactions are serialised; the row locks of concurrent ingests do not order their parent updates or relation ids, and what such an interleaving could do is not modelled.
- Relations.ReachableTables: ingests and reviews are serialised, as above; provenance, confidence and evidence of relations are not modelled.
- Telemetry.UpsertPoints: the conversion of milliseconds to PostgreSQL timestamps is taken to be injective.
- Writeback.ReachableRequests: each call is one SQLite transaction; concurrent approvals in PostgreSQL are not modelled.
- ObjectVersions.RunKeepsValid: version ids are random, and assumed fresh.
- WorkspaceCas.RunKeepsValid: one workspace of one scope; row-level security and `createWorkspace` itself are not modelled.
- Upload.UploadStream: failures of the source stream, of sync, close and rename are not modelled.
- SqliteExport.CreateReport: takes rows whose JSON was parsed and printed by the application; refusals for malformed JSON or inexact numbers are those of the scanner modules, and details of audit entries other than applied batches are taken to hold no free numbers.
- EvidenceRoot.OutputRoot.Initialize: a manifest whose run record fails the safety scan is not modelled.
- Counts and checksums inside a bundle (`parseSqliteCutoverPreflightReport`): recomputed values compared for equality.
- Row schemas, the text of error messages, and names and timestamps that are only copied.
- The `localeCompare` canonicalisers of the other modules.
- Audit and outbox rows other than `ingestion.completed` and the write-back events.
- HTTP routes, request schemas, authentication, paging cursors, byte ranges, server-sent events, metrics, logging, redaction, readiness probes and command lines.
- Real locks, S3, SQLite and PostgreSQL: they enter by the contracts above.
