# Verified model of OLM v1

A Dafny model of the parts of Operator Lifecycle Manager v1 where something can go wrong that
no single function shows: protocols between reconcilers that may stop at any point, content
addressed storage, an index that must agree with the file it was built for, resolution across
catalogs, and a search through possibly cyclic schemas.
`dafny verify dfyconfig.toml` checks all of it.

## What is modelled

**Rollout of revisions** (`Rollout`, `RolloutSuccession`, `RolloutBundles`, `RolloutSecrets`,
`RolloutRetention`, `RolloutTheorems`, `RolloutProgress`, `Revisions`). One ClusterExtension and its numbered
revisions (ClusterObjectSets). The reconciler of the extension and one reconciler per revision
share the cluster. Each request to the API server is a step: list, apply, create a Secret,
patch an owner, archive one predecessor, update a status. Steps interleave freely, and a
reconciler may stop between any two of its own and start over. The theorems are about every
state of every run: what holds in it, and what can still be reached from it.

**Externalization** (`SecretData`, `SecretPacker`, `SecretPackerProperties`, `Externalization`,
`ExternalizationTheorems`). Objects of a revision move into content-addressed Secrets and are read back
by another controller.

**One reconcile of a revision** (`RevisionReconciler`, `Conditions`). Every exit path, and the
progress deadline around it.

**catalogd** (`CatalogIndex`, `CatalogStorage`, `CatalogStorageTheorems`, `CatalogReconciler`,
`CatalogStatus`). The index
over a stored catalog, the lock and the shared loading of indexes, and the reconciler with its
in-memory record of what is stored.

**Resolution** (`Resolution`, `ResolutionTheorems`, `BundleFilters`, `Bundles`,
`VersionRelease`). From catalogs to
one bundle, with the in-place compaction of channels that a later predicate sees.

**Schema collection and phases** (`SchemaCollector`, `SchemaTheorems`, `PhaseSort`, `PhaseTable`,
`ComparisonSort`).

`Wrappers`, `Ordering`, `Decimal` and `Objects` hold what the others share.

## Assumptions

- One worker per extension and per revision, lists that are current when they are made, nobody
  else creating or deleting revisions, and status updates refused on a stale resource version.
- Server-side apply is accepted exactly when the validation rules allow it: no un-archiving,
  collision protection unchanged, phases unchanged unless they were empty.
- SHA-256 is a function with output of fixed length and without collisions among the contents
  that occur, a finite set; the same for the shortened hash in Secret names.
- Compression is undone by decompression and its output starts with 0x1f 0x8b, as section 2.3.1
  of RFC 1952 says. A serialized object starts with `{`, as section 4 of RFC 8259 says.
- Versions compare as in section 11 of Semantic Versioning 2.0.0.
- The revision engine, the image puller, the API server, caches and clocks answer as they like:
  their answers are parameters, or free choices of a step.

## Where a promise does not hold as stated

- The API says that phases are immutable once set, even if empty (`api/v1/clusterobjectset_types.go:87`).
  The rule at line 91 lets an empty list be replaced. The model follows the rule. Then an
  in-place apply can introduce refs without Secrets: `RolloutTheorems.EmptyPhasesLeaveDanglingRef`
  reaches such a state, and `RolloutSecrets.RefsHoldExactly` says exactly which runs stay clear of it.
- A meta without a schema is in no schema section, so the index returns it for no query. Only a
  request for everything, or without parameters, returns it, since it is served the file itself.
  `CatalogStorage.AskedIsPlainExactly` says exactly when that makes no difference.
- `restoreInlineObjects` drops a ref that was there before. `Externalization.RestoreUndoesReplace`
  says exactly when it gives the revision back.
- Phases are independent of the input order only if identities are distinct:
  `PhaseSort.InputOrderIrrelevantExactly`, for every sort that sees nothing of the objects but the
  results of comparing them. A stable sort is one (`PhaseSort.StableByIdentityQualifies`).
- A catalog with a condition besides Serving and Progressing is unpacked at every reconcile:
  `CatalogReconciler.UnpackSettlesExactly`.
- An object above 10 MiB serialized is stored but not read back. `Externalization.ResolveUndoesPack`
  gives the error it ends in.
- The delay until the check of the deadline is positive only if the second clock read is at most
  1.5 s past the deadline: `RevisionReconciler.WorkingCopy.Reconcile`.

## Model

| member | source | states |
|---|---|---|
| `RolloutTheorems.PredecessorsArchived` | internal/operator-controller/controllers/clusterobjectset_controller.go:241-269 | in every state of every run, every revision below a Succeeded one is Archived |
| `RolloutProgress.BundleCanBeInstalled` | internal/operator-controller/applier/boxcutter.go:459-631 | from every state of every run, a bundle that may be applied and whose objects can be stored can get installed: some continuation ends with the latest revision carrying exactly that bundle and content, live and Succeeded, all its Secrets owned by it, everything below it Archived |
| `RolloutProgress.HighestCanSucceed` | internal/operator-controller/controllers/clusterobjectset_controller.go:235-269 | from every state of every run, some continuation ends with the highest revision active and Succeeded and every lower one Archived |
| `RolloutProgress.UpdateStatusWrites` | internal/operator-controller/controllers/clusterobjectset_controller.go:107-123 | a status update of a revision that is as it was read writes the reported Succeeded and conditions and nothing else; otherwise it writes nothing |
| `RolloutProgress.NewRevisionExactly` | internal/operator-controller/applier/boxcutter.go:503-539 | a new revision is made exactly when the latest was rendered to something other than phases with objects of the same serialization at the same places; otherwise the latest carries the bundle |
| `RolloutProgress.MigratedIsReplaced` | internal/operator-controller/applier/boxcutter.go:503-539 | a migrated revision is never applied to in place |
| `RolloutProgress.SecretsCanBeOwned` | internal/operator-controller/applier/boxcutter.go:951-1014 | a second pass over the same content accepts the revision and leaves none of its Secrets without it as owner |
| `RolloutProgress.ArchivedCanGo` | internal/operator-controller/controllers/clusterobjectset_controller.go:310-340 | an archived revision can always lose its finalizer, and is gone then if it is being deleted |
| `RolloutProgress.MigrationInstalls` | internal/operator-controller/applier/boxcutter.go:276-447 | migrating ends with the content as Succeeded revision 1 |
| `RolloutTheorems.AtMostOneInstalled` | internal/operator-controller/controllers/boxcutter_reconcile_steps.go:55-80 | at most one live revision is Succeeded, in every state of every run |
| `RolloutTheorems.InstalledBelowRollingOut` | internal/operator-controller/controllers/boxcutter_reconcile_steps.go:41-83 | the reported Installed revision is the one live Succeeded revision if there is one, nothing otherwise, and it is numbered below every reported RollingOut revision |
| `RolloutTheorems.HighestIsLive` | internal/operator-controller/controllers/clusterobjectset_controller.go:441-474 | the highest-numbered revision is never archived and never being deleted |
| `RolloutTheorems.RollingOutFromOneBundle` | internal/operator-controller/controllers/clusterextension_reconcile_steps.go:139-202 | all active revisions that have not Succeeded carry the same bundle, although revisions change between reading their states and creating the next one |
| `RolloutTheorems.NumbersAreConsecutive` | internal/operator-controller/applier/boxcutter.go:582-592 | a revision that appears is numbered one above the highest there is, or 1 when there is none |
| `RolloutTheorems.NewNumbersAreHigher` | internal/operator-controller/applier/boxcutter.go:682-687 | a revision that appears is numbered above every revision that ever existed in the run |
| `RolloutTheorems.NumbersNeverReused` | api/v1/clusterobjectset_types.go:64-70 | a revision number that has disappeared never comes back |
| `RolloutTheorems.ProgressIsKept` | api/v1/clusterobjectset_types.go:58 | over any stretch of a run, Archived stays Archived and Succeeded stays Succeeded |
| `RolloutTheorems.OnlyOldArchivedDeleted` | internal/operator-controller/applier/boxcutter.go:652-666 | whatever step deletes a revision, it was Archived and at least five newer revisions stand afterwards |
| `RolloutTheorems.FewArchivedLeft` | internal/operator-controller/applier/boxcutter.go:582-592 | whenever revisions are listed and a new one is being created from that list, at most five of those that were archived when listed are left undeleted |
| `RolloutTheorems.RefsResolve` | internal/operator-controller/applier/boxcutter.go:599-631 | in every run with stops between any two requests, in which no in-place apply has filled a revision without phases while a Secret it names was missing, every ref of every revision points at a Secret that exists, with bytes at its key that hash to that key |
| `RolloutTheorems.RevisionResolvesToContent` | internal/operator-controller/applier/boxcutter.go:503-577 | in such a run every revision that was not migrated was packed from some rendered content, and every ref of it resolves to the bytes of the object it replaced, or to the size error above 10 MiB |
| `RolloutTheorems.EmptyRevisionReached` | api/v1/clusterobjectset_types.go:87-91 | a bundle that renders to no phases leads to a revision with an empty phase list |
| `RolloutTheorems.EmptyPhasesLeaveDanglingRef` | api/v1/clusterobjectset_types.go:91 | from there, applying any content in place reaches a state with a ref and no Secret at all: a run that fails the condition of RefsResolve |
| `RolloutSecrets.RefsHoldExactly` | internal/operator-controller/applier/boxcutter.go:503-539 | for every run and every state of it: all refs have been resolvable so far if and only if no in-place apply has filled a revision without phases while a Secret it names was missing |
| `RolloutSecrets.ApplyInPlaceSafeExactly` | internal/operator-controller/applier/boxcutter.go:503-539 | an in-place apply keeps all refs resolvable if and only if it does not meet that guard |
| `RolloutSecrets.NothingToFill` | api/v1/clusterobjectset_types.go:87-91 | in a run in which every bundle renders to some phase the guard is never met |
| `RolloutSecrets.ExistingSecretIsTheOne` | internal/operator-controller/applier/boxcutter.go:613-620 | a Secret that already exists under a planned name has that revision and exactly that data |
| `RolloutSecrets.RunKeepsSecrets` | internal/operator-controller/applier/boxcutter.go:580-631 | in every state of every run every Secret is named by its content and revision, every revision that was not migrated has the phases packed from some content, and the Secrets created so far for the next revision hold what was planned |
| `RolloutSuccession.StepKeepsSafe` | internal/operator-controller/controllers/clusterobjectset_controller.go:69-126 | each of the 24 kinds of step keeps the invariant that ties revisions to what every reconciler has read |
| `RolloutSuccession.RunIsSafe` | internal/operator-controller/controllers/clusterobjectset_controller.go:235-269 | the invariant holds in every state of every run |
| `RolloutSuccession.StepEvolves` | api/v1/clusterobjectset_types.go:58-70 | no step un-archives, un-succeeds, or creates a number other than the next one |
| `RolloutSuccession.ApplyInPlaceCases` | internal/operator-controller/applier/boxcutter.go:503-539 | in-place apply targets the latest revision and is either accepted, with its phases unchanged unless there were none, or changes no revision |
| `RolloutBundles.RunAgreesOnBundles` | internal/operator-controller/controllers/boxcutter_reconcile_steps.go:99-114 | in every state, revisions not yet Succeeded agree on the bundle with each other and with what the extension reconciler will create |
| `RolloutRetention.RunRetains` | internal/operator-controller/applier/boxcutter.go:652-666 | the invariant of garbage collection, relating the list it works on to the current revisions, holds in every state of every run |
| `Revisions.GetRevisionStates` | internal/operator-controller/controllers/boxcutter_reconcile_steps.go:41-83 | sorting and one pass compute the specified Installed and RollingOut of the revisions in ascending order, in whatever order they were listed |
| `Revisions.InstalledExact` | internal/operator-controller/controllers/boxcutter_reconcile_steps.go:61-78 | Installed is the highest live Succeeded revision, and is there exactly when one is |
| `Revisions.RollingOutInOrder` | internal/operator-controller/controllers/boxcutter_reconcile_steps.go:61-78 | RollingOut lists, in ascending order and each once, exactly the active revisions that have not Succeeded, with their bundles |
| `RevisionReconciler.WorkingCopy.Reconcile` | internal/operator-controller/controllers/clusterobjectset_controller.go:69-126 | past the deadline no exit path leaves an unsucceeded revision progressing; before it, a progressing revision is requeued to between 1.5 s and 2.5 s after the deadline, with a positive delay exactly when the second clock read is at most 1.5 s past it; otherwise a reconcile ends as without a deadline; the finalizer is given up only on deletion or after the archived conditions were already there |
| `RevisionReconciler.WorkingCopy.ReconcileInner` | internal/operator-controller/controllers/clusterobjectset_controller.go:140-308 | for every exit path the exact result and all conditions; Succeeded appears exactly on the complete path and never disappears |
| `RevisionReconciler.WorkingCopy.RollOut` | internal/operator-controller/controllers/clusterobjectset_controller.go:181-308 | the same for an active revision, with a retry after 10 s on failed preflights and collisions; the finalizer is in place before anything is rolled out |
| `RevisionReconciler.WorkingCopy.Conclude` | internal/operator-controller/controllers/clusterobjectset_controller.go:235-307 | the conditions that each report of the engine leads to, and that all others keep |
| `RevisionReconciler.WorkingCopy.Archive` | internal/operator-controller/controllers/clusterobjectset_controller.go:321-340 | the finalizer is removed only in a reconcile that found the archived conditions already set and the teardown complete |
| `RevisionReconciler.WorkingCopy.Delete` | internal/operator-controller/controllers/clusterobjectset_controller.go:310-319 | the finalizer goes exactly when freeing the caches and the patch succeed |
| `RevisionReconciler.WorkingCopy.SetRetrying` | internal/operator-controller/controllers/clusterobjectset_controller.go:680-685 | Progressing is Retrying, Available turns Unknown only if it was there, all other conditions keep |
| `RevisionReconciler.WorkingCopy.Mark` | internal/operator-controller/controllers/clusterobjectset_controller.go:687-735 | exactly one condition changes, and nothing at all when it was already so |
| `Conditions.SetExactly` | internal/operator-controller/controllers/clusterobjectset_controller.go:687-695 | setting a condition touches the first of its type only and keeps its time unless the status changes; when there is none, it is added at the end |
| `Conditions.FoundFirst` | internal/operator-controller/controllers/clusterobjectset_controller.go:85 | the condition found is the first of its type |
| `SecretPacker.Pack` | internal/operator-controller/applier/secretpacker.go:52-133 | the nested loops with early return compute the next-fit packing of the inline objects in order |
| `SecretPacker.PackPhase` | internal/operator-controller/applier/secretpacker.go:89-128 | one phase extends the packing of the phases before it, and an error is the error of the whole |
| `SecretPacker.FinalizeCurrent` | internal/operator-controller/applier/secretpacker.go:70-87 | closing the open Secret files all its pending refs, and closing an empty one does nothing |
| `SecretPacker.EntriesExact` | internal/operator-controller/applier/secretpacker.go:89-94 | the packed entries are exactly the positions that hold an inline object |
| `SecretPackerProperties.PackSizes` | internal/operator-controller/applier/secretpacker.go:20-29 | every Secret holds at most 921600 bytes, adjacent ones together hold more, and for n of them floor(n/2) times 921600 is less than the total |
| `SecretPackerProperties.PairsBoundTotal` | internal/operator-controller/applier/secretpacker.go:116-131 | the counting bound follows from full neighbours alone |
| `SecretPackerProperties.PackPlaces` | internal/operator-controller/applier/secretpacker.go:52-133 | exactly the inline positions get a ref, and each ref names a Secret holding that object at its key |
| `ExternalizationTheorems.PackStores` | internal/operator-controller/applier/secretpacker.go:52-149 | every Secret has the name, namespace and labels of the packer and at most 921600 bytes; exactly the inline positions get a ref, to the serialization of the object there, compressed above 921600 bytes; and nothing else is stored |
| `ExternalizationTheorems.PacksExactly` | internal/operator-controller/applier/secretpacker.go:95-114 | packing succeeds exactly when every inline object serializes and, compressed if it is above 921600 bytes, is not |
| `ExternalizationTheorems.PackFailsFirst` | internal/operator-controller/applier/secretpacker.go:95-114 | a failure is that of the first object, in order, that cannot be stored, for the reason it cannot |
| `ExternalizationTheorems.SameRefsExactly` | internal/operator-controller/applier/boxcutter.go:503-539 | two renderings packed under one name get the same phases of refs exactly when they have objects of the same serialization at the same places |
| `ExternalizationTheorems.ResolvesExactly` | internal/operator-controller/controllers/clusterobjectset_controller.go:538-575 | what a ref resolves to, and exactly when it does |
| `SecretPackerProperties.PackFailsExactly` | internal/operator-controller/applier/secretpacker.go:95-114 | packing fails exactly when some inline object fails to serialize or compress, or is too large |
| `SecretData.SerializedInjective` | internal/operator-controller/applier/secretpacker.go:155-168 | the bytes hashed into a Secret name determine the data, though keys and values of varying length have no separators |
| `SecretData.SerializedAmbiguousWithoutHashes` | internal/operator-controller/applier/secretpacker.go:155-168 | without keys being hashes of their values the same byte string arises from two different maps |
| `SecretData.SecretNameInjective` | internal/operator-controller/applier/secretpacker.go:151-175 | equal Secret names mean equal revision names and equal data |
| `SecretData.SecretNameFromData` | internal/operator-controller/applier/secretpacker.go:155-168 | collecting, sorting and concatenating computes the specified name for any order of the keys |
| `Externalization.ResolveUndoesPack` | internal/operator-controller/controllers/clusterobjectset_controller.go:538-575 | pack, replace, resolve gives back the serialized object at each inline position (up to the 10 MiB cap, where it is the size error) and leaves other positions alone |
| `Externalization.DecodeUndoesEncode` | internal/operator-controller/controllers/clusterobjectset_controller.go:545-570 | reading a stored value back, with compression detected from its first two bytes, gives the serialized object or the size error |
| `Externalization.RestoreUndoesReplace` | internal/operator-controller/applier/boxcutter.go:868-932 | restoring after replacing gives back the revision if and only if it held no refs before |
| `Externalization.DesiredRevision.SaveInlineObjects` | internal/operator-controller/applier/boxcutter.go:868-878 | the nested loop saves the inline object of every position |
| `Externalization.DesiredRevision.ReplaceInlineWithRefs` | internal/operator-controller/applier/boxcutter.go:914-932 | the in-place rewrite puts a ref exactly where packing made one |
| `Externalization.DesiredRevision.RestoreInlineObjects` | internal/operator-controller/applier/boxcutter.go:880-888 | the in-place rewrite puts the saved object at every position and clears its ref |
| `CatalogStorage.IndexAndFileMatch` | internal/catalogd/storage/localdir.go:241-303 | in every interleaving of Store, Delete and requests, also when joining another load, the file of a response and the index if it uses one come from the same, latest successful Store; the whole file is served exactly when nothing in particular is asked for |
| `CatalogStorage.AnswersAreExact` | internal/catalogd/storage/localdir.go:241-303 | so every answer is, out of what that Store stored, the whole file when everything is asked for or no parameter is given, and otherwise the matching blobs that have a schema |
| `CatalogStorageTheorems.StoredIsWhatIsServed` | internal/catalogd/storage/localdir.go:50-116 | in every run, once a Store of some metas is in place and until another one is, every answer about the catalog is the whole of these metas or the matching blobs among them that have a schema |
| `CatalogStorageTheorems.DeletedIsNotServed` | internal/catalogd/storage/localdir.go:142-147 | in every run, once a catalog is removed and until it is stored again, no request about it gets past opening the file |
| `CatalogStorageTheorems.StoreThenAsk` | internal/catalogd/storage/localdir.go:50-116 | from every state of every run, any metas can be stored for any catalog and any request then be answered from them |
| `CatalogStorage.AskedIsPlainExactly` | internal/catalogd/storage/localdir.go:291-302 | an answer is the plain scan of the matching blobs if and only if everything is asked for or every matching meta without a schema has no bytes |
| `CatalogStorage.StepKeepsSafe` | internal/catalogd/storage/localdir.go:50-116 | each step under the read-write lock keeps the invariant of files, loads and requests |
| `CatalogStorage.RunIsSafe` | internal/catalogd/storage/localdir.go:346-363 | the invariant holds in every state of every run |
| `CatalogIndex.Get` | internal/catalogd/storage/index.go:53-67 | the answer read through the index is the in-order concatenation of the matching blobs that have a schema |
| `CatalogIndex.NewIndex` | internal/catalogd/storage/index.go:95-119 | the loop files each meta with its byte range under schema, package and name |
| `CatalogIndex.SelectedExactly` | internal/catalogd/storage/index.go:69-93 | a non-empty section is selected exactly when its meta matches the query |
| `CatalogIndex.SortedSectionsReadScan` | internal/catalogd/storage/index.go:53-67 | any order by offset of the selected sections reads the same, also when zero-length sections coincide |
| `CatalogIndex.AnswerIsPlainScanExactly` | internal/catalogd/storage/index.go:69-119 | what the index answers equals the plain scan if and only if every matching meta without a schema has no bytes |
| `CatalogReconciler.Reconciler.Reconcile` | internal/catalogd/controllers/core/clustercatalog_controller.go:86-141 | a recorded catalog is always one whose last storage operation stored that ref; an error drops the record; and every reconcile ends as its task and the answers of the environment say: result, finalizer, and the exact ref, address, time and conditions of the status |
| `CatalogReconciler.Reconciler.ReconcileInner` | internal/catalogd/controllers/core/clustercatalog_controller.go:167-286 | the same before errors are handled, for all catalogs but the one at hand |
| `CatalogReconciler.Reconciler.Unpack` | internal/catalogd/controllers/core/clustercatalog_controller.go:245-286 | it succeeds exactly when pull and Store do, then records and reports the ref, address and time of what was stored; otherwise only Progressing changes, to Retrying or Blocked |
| `CatalogReconciler.Reconciler.DeleteCatalogCache` | internal/catalogd/controllers/core/clustercatalog_controller.go:451-463 | the record goes exactly when both deletions succeed; nothing is then served |
| `CatalogReconciler.UnpackSettlesExactly` | internal/catalogd/controllers/core/clustercatalog_controller.go:212-243 | after a persisted successful reconcile the next one has nothing to do if and only if only Serving and Progressing conditions are present |
| `CatalogReconciler.SettledSaysWhatIsStored` | internal/catalogd/controllers/core/clustercatalog_controller.go:212-243 | a catalog is left alone only while its status says what was stored for it |
| `CatalogReconciler.ExpectedOfUnpacked` | internal/catalogd/controllers/core/clustercatalog_controller.go:288-303 | the expected status of an unpacked catalog is its status without unknown conditions |
| `CatalogStatus.ClearShortens` | internal/catalogd/controllers/core/clustercatalog_controller.go:318-326 | clearing unknown conditions changes nothing exactly when there are none |
| `CatalogStatus.ClearKeepsKnown` | internal/catalogd/controllers/core/clustercatalog_controller.go:318-326 | clearing keeps Serving and Progressing |
| `CatalogStatus.FailureChangesOnlyProgressing` | internal/catalogd/controllers/core/clustercatalog_controller.go:328-349 | an error shows in Progressing, as Retrying or for terminal ones as Blocked, with its message, and nothing else changes |
| `CatalogStatus.ServedIsReported` | internal/catalogd/controllers/core/clustercatalog_controller.go:351-369 | after a success the status has the ref, the address, the time in whole seconds, Serving and Progressing |
| `CatalogStatus.UserUnavailableReports` | internal/catalogd/controllers/core/clustercatalog_controller.go:371-397 | a disabled catalog reports why it is not served, and nothing left to do |
| `Resolution.Resolve` | internal/operator-controller/resolve/catalog.go:42-210 | the walk, the pool and the pick compute the specified outcome |
| `Resolution.OrderOfCatalogsIrrelevant` | internal/operator-controller/resolve/catalog.go:147-192 | any reordering of the catalogs gives the same bundle or the same kind of error |
| `ResolutionTheorems.SelectedFollowsEdges` | internal/operator-controller/resolve/catalog.go:100-122 | a selected bundle is the first of the best in an available catalog; it is in a named channel and in the version range; and unless self-certified it has the installed version and release, or an entry of a usable channel that replaces or skips the installed bundle |
| `ResolutionTheorems.EligibleExactly` | internal/operator-controller/catalogmetadata/filter/successors.go:15-77 | the collected predicates keep exactly the bundles with an entry in a usable channel, a version in range, and an edge from the installed bundle or its version and release |
| `ResolutionTheorems.PutsForwardExactly` | internal/operator-controller/resolve/catalog.go:121-147 | a catalog puts forward the first of the best bundles that meet what is asked, and nothing exactly when none does |
| `ResolutionTheorems.PreferenceExactly` | internal/operator-controller/catalogmetadata/compare/compare.go:44-89 | a bundle sorts before another exactly when only the other is deprecated, or their deprecation is the same and it has the higher version and release, or the other has none |
| `ResolutionTheorems.SelectedExactly` | internal/operator-controller/resolve/catalog.go:147-209 | when one catalog stands out by deprecation and then priority, the outcome is its bundle, or the error that its bundle or another catalog leads to |
| `ResolutionTheorems.UnresolvedExactly` | internal/operator-controller/resolve/catalog.go:170-191 | nothing is found exactly when no catalog stands out |
| `ResolutionTheorems.FailsExactly` | internal/operator-controller/resolve/catalog.go:85-119 | the walk stops at a catalog exactly when it cannot be read, or has something on the package and the installed version cannot be parsed |
| `Resolution.SelectedIsCandidate` | internal/operator-controller/resolve/catalog.go:170-191 | a selected bundle is the valid candidate of an available catalog |
| `Resolution.CandidateIsBest` | internal/operator-controller/resolve/catalog.go:132-147 | the candidate of a catalog is eligible, not deprecated if any eligible bundle is not, and highest in its class |
| `Resolution.Walk` | internal/operator-controller/resolve/catalog.go:85-168 | the fold over catalogs keeps the non-deprecated candidates, or all of them when every one is deprecated |
| `Resolution.WalkOne` | internal/operator-controller/resolve/catalog.go:85-168 | one catalog adds its candidate, or fails exactly when lookup or filtering does |
| `Resolution.AddCandidate` | internal/operator-controller/resolve/catalog.go:149-165 | skip, start over or append keeps the pool of the candidates seen |
| `Resolution.BestOf` | internal/operator-controller/resolve/catalog.go:85-147 | filtering and sorting one catalog finds its candidate |
| `Resolution.PickByPriority` | internal/operator-controller/resolve/catalog.go:170-191 | a bundle is picked exactly when it alone has the highest priority |
| `Resolution.CollectPredicates` | internal/operator-controller/resolve/catalog.go:100-119 | the conjunction of the collected predicates is eligibility; collecting fails exactly when the installed version cannot be parsed |
| `Resolution.SelectChannels` | internal/operator-controller/resolve/catalog.go:101-107 | compaction in place leaves the selected channels and zero values, in the part that is kept and in the whole array |
| `Resolution.CompactedEdges` | internal/operator-controller/catalogmetadata/filter/successors.go:38-77 | successor edges seen in the compacted and zeroed array are those of the selected channels |
| `Resolution.CompactedMembers` | internal/operator-controller/catalogmetadata/filter/bundle_predicates.go:39-50 | membership seen in the compacted array is membership in a selected channel |
| `BundleFilters.DeleteFunc` | internal/shared/util/filter/filter.go:47-52 | in-place removal keeps the remaining elements in order and zeroes the rest of the array |
| `BundleFilters.RemainingExact` | internal/shared/util/filter/filter.go:47-52 | exactly the elements that are not to be removed remain |
| `BundleFilters.AndSnoc` | internal/shared/util/filter/filter.go:8-17 | a conjunction extended by a predicate holds exactly when both do |
| `Bundles.HeadIsBest` | internal/operator-controller/resolve/catalog.go:132-147 | the head of the sorted bundles is not deprecated if any is not, with no higher version and release in its class |
| `Bundles.PreferenceIsTotalPreorder` | internal/operator-controller/catalogmetadata/compare/compare.go:57-89 | deprecation, then version and release, unparsable last, is a total preorder |
| `Bundles.ByVersionIsTotalPreorder` | internal/operator-controller/catalogmetadata/compare/compare.go:44-55 | the order by version and release with unparsable bundles last is a total preorder |
| `Bundles.CollectDeprecated` | internal/operator-controller/catalogmetadata/compare/compare.go:57-63 | the loop collects exactly the names of deprecated bundles |
| `Bundles.VersionOfFirstPackage` | internal/operator-controller/bundleutil/bundle.go:16-36 | the version of a bundle is that of its first package property |
| `Bundles.NoPackageNoVersion` | internal/operator-controller/bundleutil/bundle.go:16-36 | without a package property there is none |
| `VersionRelease.AsLegacyUndoesFromLegacy` | internal/operator-controller/bundle/versionrelease.go:21-84 | taking the release out of the build metadata of a valid version and putting it back changes nothing |
| `VersionRelease.FromLegacyExactly` | internal/operator-controller/bundle/versionrelease.go:21-46 | the release is taken out of the build metadata exactly when every segment is written like an identifier, one for one, with no build metadata left; otherwise the version stays as it is |
| `VersionRelease.NumericReleasesCompare` | internal/operator-controller/bundle/versionrelease.go:21-108 | versions that differ only in one numeric segment of their build metadata compare like the numbers |
| `VersionRelease.ParsedExactly` | internal/operator-controller/bundle/versionrelease.go:115-137 | a segment is read as a number exactly when it is that number in decimal and fits 64 bits, and as text exactly when it is alphanumeric and not all digits |
| `VersionRelease.NewRelease` | internal/operator-controller/bundle/versionrelease.go:115-137 | the loop parses all segments and fails exactly on an invalid one |
| `VersionRelease.SplitUndoesJoin` | internal/operator-controller/bundle/versionrelease.go:72-137 | splitting joined identifiers at dots gives them back |
| `VersionRelease.CompareIsTotalPreorder` | internal/operator-controller/bundle/versionrelease.go:61-66 | comparing version and then release is a total preorder |
| `VersionRelease.EqualExactly` | internal/operator-controller/bundle/versionrelease.go:61-66 | equal means equal versions up to build metadata, and identical releases |
| `VersionRelease.ReleasesCompareAsLists` | internal/operator-controller/bundle/versionrelease.go:98-108 | the special cases for empty releases agree with comparing identifier lists |
| `VersionRelease.LowerExactly` | internal/operator-controller/bundle/versionrelease.go:61-108 | lower means a lower version by section 11 of Semantic Versioning 2.0.0, or versions equal up to build metadata and a release that is lower at the first difference or a proper prefix |
| `VersionRelease.EqualVersionsExactly` | internal/operator-controller/bundle/versionrelease.go:61-64 | versions compare equal exactly when they differ in build metadata only |
| `SchemaCollector.GenerateComponents` | hack/tools/schema-generator/main.go:300-313 | the emitted components are exactly the known schemas reachable from the fields, and every known ref in them stays inside them |
| `SchemaCollector.CollectedExactly` | hack/tools/schema-generator/main.go:364-421 | a schema is collected exactly when it is reachable by refs from the roots |
| `SchemaTheorems.ComponentsExactly` | hack/tools/schema-generator/main.go:256-315 | the emitted components are exactly the schemas that a walk along refs from a field type ends in, and every ref in them to a known schema leads to one of them |
| `SchemaTheorems.RefersExactly` | hack/tools/schema-generator/main.go:376-421 | a value refers to a schema exactly when somewhere inside it a ref with the components prefix names it |
| `SchemaTheorems.RootsExactly` | hack/tools/schema-generator/main.go:423-436 | the roots are exactly the known schemas of the core types of fields that are not maps |
| `SchemaCollector.Collector.Collect` | hack/tools/schema-generator/main.go:364-374 | the search ends on every finite, possibly cyclic specification, and what it adds is closed and reachable |
| `SchemaCollector.Collector.FindReferences` | hack/tools/schema-generator/main.go:376-394 | all known ref targets inside a value are collected |
| `SchemaCollector.Collector.ProcessRef` | hack/tools/schema-generator/main.go:396-421 | a ref to a known schema is collected, any other is passed over |
| `SchemaCollector.CollectFields` | hack/tools/schema-generator/main.go:285-291 | all fields of known types are collected as roots |
| `PhaseSort.Sort` | internal/operator-controller/applier/phase.go:174-200 | grouping and sorting give one sorted phase for each well-known phase that has objects |
| `PhaseSort.ArrangementInOrder` | internal/operator-controller/applier/phase.go:183-197 | phases come in the given order without repeats, none empty, each sorted and holding its own kinds |
| `PhaseSort.SortedAsPromised` | internal/operator-controller/applier/phase.go:46-61 | phases come in ascending rank, none empty; each holds only its own kinds, and no object after one that precedes it by group, version, kind, namespace and name |
| `PhaseSort.PrecedesExactly` | internal/operator-controller/applier/phase.go:158-169 | the comparison is the lexicographic order of the five keys |
| `PhaseSort.SortConserves` | internal/operator-controller/applier/phase.go:178-197 | the phases together hold exactly the given objects, with multiplicity |
| `PhaseSort.SortIgnoresInputOrder` | internal/operator-controller/applier/phase.go:154-157 | any two permutations of objects with distinct identities give the same phases |
| `PhaseSort.InputOrderIrrelevantExactly` | internal/operator-controller/applier/phase.go:174-200 | for every sort that sees only comparison results, all orders of the objects give the same phases if and only if no two different objects share group, version, kind, namespace and name; otherwise swapping two such objects changes the phases |
| `PhaseSort.CompareObjectsIsTotalPreorder` | internal/operator-controller/applier/phase.go:158-169 | the five-key comparison is a total preorder |
| `PhaseSort.TiesShareIdentity` | internal/operator-controller/applier/phase.go:158-169 | ties are exactly objects with the same five keys |
| `PhaseTable.InitGkPhaseMap` | internal/operator-controller/applier/phase.go:146-152 | in whatever order the table is walked, look-ups in the resulting map are the same |
| `PhaseTable.ListedOnce` | internal/operator-controller/applier/phase.go:72-143 | every kind in the table finds the phase it is listed under, so none is listed twice |

## Left out

- The revision engine, the Kubernetes API server, the Helm client, the image libraries and the JSON schema library: only their answers are modelled.
- Logging, metrics, TLS, certificates, command lines, generated code: no property beyond plumbing.
- RBAC pre-authorization and preflights: they only stop an apply, which a run may do anywhere.
- Which catalog's deprecation is returned with a bundle: `resolve/catalog.go` keeps that of the last appended catalog, which may be another one than the chosen bundle's.
- That some revision is always Installed: predecessors are archived before Succeeded is written, so there is a window without one.
- Liveness: what can be reached from every state is proved, not that a schedule gets there; nor that a revision past its deadline is torn down.
- Parsing of versions, ranges and manifests: the parsed values, or the failure to parse, are inputs.
- The messages of conditions and errors, except where they decide whether a condition has changed.
- `handleResolutionError` and `UnpackBundle`: resolution may choose any bundle when nothing is rolling out, and stopping there is a stop of the run.
- Mirroring of revision conditions in the extension's status by `ApplyBundleWithBoxcutter`: it writes no revision.
- Applying without catalog content (`contentFS == nil`): it changes nothing, and is a stop of the run.
- Listing the Secrets of a revision and the in-place apply before it are one step; a stop between the two is covered by a stop after the apply.
- HTTP preconditions, ranges, methods, refused parameters and encodings of the catalog server, and the JSON form of the index file.
- The channels and goroutines that feed the file and the index during Store: both are made from the same metas, and the directory is replaced in one step.
- Other finalizers on a ClusterCatalog, and the jitter of the next poll.
- Rendering of field schemas other than the roots they collect, and fetching the OpenAPI specification.
- PhaseSort.Sort: slices are sorted as values, so the sharing of memory between the groups and the sorted phases is not captured.
- Resolution.BestOf: bundles are filtered and sorted as values; compaction in place is modelled for channels, where another function sees it.
- Externalization.ResolveUndoesPack: the value read back is the serialized form; parsing it into an object again is not modelled.
