# Verified model of Harvester's protocols

A Dafny model of the parts of Harvester (`github.com/harvester/harvester`) whose correctness does not
show in any one function: the node maintenance-mode protocol, the cancellation of a volume expansion,
storage migration, cloning and ejecting on virtual machines, the choice of migration targets, the
rendering of addon fragments, the life of a virtual machine image, nested-map access and backup
conditions. `dafny verify dfyconfig.toml` checks the project.

How the source's forms appear here:

- The API server is a store of versioned objects. A write names the version it was computed from and is
  refused unless that version is still the latest. Other parties write in between, requests fail, and
  answers get lost after the write took effect. `OptimisticStore` proves once, for all retried
  get/decide/update closures, that every interleaving has the effect of atomic steps; `MaintenanceMode`
  uses it with the decisions of the source. `CancelExpand`, `EjectCdRom` and `ImageLifecycle` keep the
  imperative form, with interference before every request and ghost records of what was written.
- Code that edits lists, maps or objects in place is a class or a method with a loop, proved against
  functions; lemmas about those functions say what they mean.
- A write of the whole object and a write of the status subresource are both writes of the whole object:
  at the moment of a commit the writer's copy equals what is stored apart from what it changed.
- Clocks, random names, what a cache or a file answered, and the order in which a Go map is walked are
  parameters or free choices. Annotations that hold JSON are the entries they encode.
- `strconv.Quote` and `strconv.Unquote` are a codec with three laws: unquoting undoes quoting, a quoted
  text is delimited by quotes, and it holds no line break.
- A JSON patch that replaces a member sets it, also when it was missing.

Results that differ from what one might expect of the code, each with its exact condition or a witness:

- Overlapping cancel-expand calls can lose the volume unless it was retained to begin with
  (`CancelExpand.OverlapIsSafeExactly`).
- A storage migration that is cancelled loses the read-only flag of the volumes that had been moved
  (`StorageMigration.ReadOnlyIsLost`), and a claim whose target is itself moved on is not put back after
  two controller rounds (`StorageMigration.CancelUndoesAnyRounds`).
- The migration target list treats alternative affinity terms as if all were required, and does not look
  at some expressions at all (`MigratableNodes.ListAgreesExactly`).
- A restore-type backing image cannot record a state change and a new backup target in one successful
  event (`ImageLifecycle.ImageServer.OnBackingImageChanged`).
- An image created with an empty storage-class annotation beside a class can end up with two different
  classes, after which no update is admitted (`ImageAdmission.EmptyAnnotationCanDiverge`).

## Model

| member | source | states |
|---|---|---|
| OptimisticStore.RetriedUpdatesAreAtomic | pkg/api/node/formatter.go:322-333 | In every interleaving of retried closures, other writers, faults and lost answers, each version a closure wrote is its decision on the version immediately before it |
| OptimisticStore.SuccessHasEvidence | pkg/util/maintain.go:157-183 | A call that reports success has for each of its closures, in order, a version no older than the call at which that closure found nothing to do or which this very call wrote for it |
| OptimisticStore.FailureHasCause | pkg/util/maintain.go:171-218 | A call that reports failure was refused by its decision on a version no older than the call, or five different versions it had fetched were each overwritten before it could write, or a request of its own got no proper answer |
| OptimisticStore.UndisturbedCallActs | pkg/util/maintain.go:171-182 | A call with nobody in its way appends exactly its decision on the newest version, or nothing, and reports what the decision says |
| NodeConditions.SetPhaseMeaning | pkg/util/maintain.go:105-139 | Setting the condition reaches the phase and message, keeps the transition time exactly if the phase did not change, keeps all other conditions and their order, and never adds a second one |
| NodeConditions.OthersHasNoMaintenance | pkg/util/maintain.go:143-152 | After a removal no MaintenanceMode condition is left and a second removal changes nothing |
| NodeConditions.NodeStatus.FindNodeStatusCondition | pkg/util/node.go:173-181 | Returns the first condition of the given type, and nothing exactly if there is none |
| NodeConditions.NodeStatus.SetMaintenanceModeCondition | pkg/util/maintain.go:105-139 | The in-place loop does what SetPhase says, and reports a change exactly if the list changed |
| NodeConditions.NodeStatus.RemoveMaintenanceModeCondition | pkg/util/maintain.go:143-152 | Keeps every other condition in order and reports whether the condition was there |
| MaintenanceMode.RemovalsAreGuarded | pkg/api/node/formatter.go:289-320 | In every reachable cluster, a committed write that ends maintenance was made on a node in a phase and with an intent that allow it, never while validating or draining, and changes nothing but the condition |
| MaintenanceMode.TransitionsAreExact | pkg/util/maintain.go:188-218 | A committed transition starts in exactly its source phase and ends in its target phase with its message |
| MaintenanceMode.UpdatesAreExact | pkg/util/maintain.go:157-183 | A committed update of the condition leaves exactly the phase and message it was asked for |
| MaintenanceMode.DecisionsAreExact | pkg/util/maintain.go:77-285 | For each operation of the protocol and every object: it writes if and only if the object calls for it, returns at once if and only if there is nothing to do, and refuses everything else, each stated on phases, intent and tracking alone |
| MaintenanceMode.UpdateSuccess | pkg/util/maintain.go:157-183 | An update that returns no error saw or made, on a version no older than the call, the phase and message it was asked for |
| MaintenanceMode.TransitionSuccess | pkg/util/maintain.go:188-218 | A transition that returns no error saw the node outside the source phase or moved it to the target phase with the message |
| MaintenanceMode.EnableSuccess | pkg/api/node/formatter.go:222-248 | An enable that returns no error has itself put the request on the node, forced exactly if asked |
| MaintenanceMode.ClearSuccess | pkg/api/node/formatter.go:285-320 | A clear that returns no error saw or made the condition absent |
| MaintenanceMode.FailuresAreJustified | pkg/api/node/formatter.go:289-333 | In every run a call that fails although all its requests were answered met five conflicts, or came upon a version, no older than the call, on which its operation may neither write nor leave things as they are |
| MaintenanceMode.OneTransitionPerVisit | pkg/util/maintain.go:185-218 | Between two commits of transitions from one phase the node has left that phase, so stale reconciles cannot commit twice |
| MaintenanceMode.EnableIsGuarded | pkg/api/node/formatter.go:222-248 | A committed enable was made on a node with neither condition nor pending request, and records the request and the force intent exactly as asked, removing one left by an earlier attempt |
| MaintenanceMode.EnablesAreExclusive | pkg/api/node/formatter.go:222-248 | Between two committed enables the node has been without a request |
| MaintenanceMode.NodeWritesAreFramed | pkg/api/node/formatter.go:222-333 | A committed enable touches only the drain intent; an undrain only intent, cordon and taints, of which exactly the drain taints go and the others stay in order; every other caller only the condition; other annotations and conditions are kept in every case |
| MaintenanceMode.AtMostOneMaintenanceCondition | pkg/util/maintain.go:105-139 | No run puts two MaintenanceMode conditions on a node |
| MaintenanceMode.StatusUpdatesSurvive | pkg/util/maintain.go:154-183 | After any run every other condition has the place and value given by the last outside writer: no maintenance caller loses a status update |
| MaintenanceMode.TransitionTimeIsLastChange | pkg/util/maintain.go:102-139 | After any run the recorded transition time is the clock of the caller that last changed status or reason |
| MaintenanceMode.RestartsConsumeTracking | pkg/util/maintain.go:223-285 | Every committed restart write was for a machine tracked for that node, clears the tracking annotation in the same write, changes the run strategy of halted machines only, to the saved one or RerunOnFailure, and nothing else |
| MaintenanceMode.OneRestartPerAnnotation | pkg/util/maintain.go:223-285 | Between two restarts of a machine for a node some other writer has put the annotation back |
| MaintenanceMode.RestartSuccess | pkg/util/maintain.go:223-285 | A restart call that returns no error found or left each machine that its cache showed with the strategy label and the annotation, at some moment of the call, gone or not tracked for the node |
| MaintenanceMode.DisableSuccess | pkg/api/node/formatter.go:252-283 | A disable that returns no error saw a phase that may be disabled, then itself uncordoned the node and dropped taint and intent, then saw or made the condition absent, with every machine selected for restart freed |
| CancelExpand.InterferenceKeepsSafe | pkg/api/volume/handler.go:246-347 | Whatever other parties do, reclaiming included, keeps a safe state safe, during the call and after it failed |
| CancelExpand.Cluster.TryUpdateVolume | pkg/api/volume/handler.go:367-377 | Success means the last step was one versioned write that changed the policy to the one asked for, or dropped the claim reference, and nothing else of volume, claim or world; failure means a fault, a missing volume or five overtaking writes, and leaves the policy as it was or as asked |
| CancelExpand.Cluster.WaitClaimDeleted | pkg/api/volume/handler.go:349-365 | Success means the claim was absent, and waiting changes nothing |
| CancelExpand.Cluster.CancelExpand | pkg/api/volume/handler.go:246-347 | Every state of every run is safe: while our delete keeps the claim away the volume is retained and never reclaimed. The effects of the call are retaining, deleting the claim, seeing it gone, dropping the claim reference, creating the claim with the volume's capacity as its storage request and all else as observed, and restoring the observed policy: an initial part of these, in this order, and all of them if and only if it succeeds. It stops short only for a fault or because others made the next effect impossible |
| CancelExpand.Cluster.CancelRepeatedly | pkg/api/volume/handler.go:246-347 | All states stay safe through any sequence of calls that follow one another, also while the delete of a failed call is outstanding; if the last one succeeds the volume has the policy that call observed |
| CancelExpand.OverlapIsSafeExactly | pkg/api/volume/handler.go:246-347 | Two or more overlapping calls are safe in every interleaving, with whatever others do in between, if and only if the volume was retained to begin with; otherwise some interleaving lets it be reclaimed |
| CancelExpand.PerformHasEffect | pkg/api/volume/handler.go:246-347 | The steps of overlapping calls have the very effects that the steps of a single call have |
| AddonLabels.EntryOfRendered | pkg/addons/render/labels.go:105-113 | A generated label line is read back as the key and value it was made from |
| AddonLabels.EntryOfPlain | pkg/addons/render/validate.go:196-205 | A value that is not quoted is read as it stands, without the space around it |
| AddonLabels.NoEntryWithoutColon | pkg/addons/render/validate.go:196-199 | A line without a colon gives no entry |
| AddonLabels.BlockIsFound | pkg/addons/render/validate.go:174-209 | Whatever surrounds them, the lines indented by four after the first labels line of the first metadata block are the block |
| AddonLabels.NoBlockIsFound | pkg/addons/render/validate.go:174-194 | A metadata block that ends at a line that is not indented without a labels line has no labels, whatever follows; blank lines do not end it |
| AddonLabels.ExtractAfterInject | pkg/addons/render/labels.go:51-133 | Extraction after injection gives the labels there before plus exactly the missing ones; existing entries win |
| AddonLabels.InjectIsIdempotent | pkg/addons/render/labels.go:51-133 | Injecting the same labels again changes nothing |
| AddonLabels.InjectIsDeterministic | pkg/addons/render/labels.go:49-108 | The result does not depend on the order in which the label map is walked |
| AddonLabels.InjectInsertsOneBlock | pkg/addons/render/labels.go:115-132 | The output lines are the input lines with one contiguous block inserted inside the metadata block |
| AddonLabels.ExtractRawLabels | pkg/addons/render/validate.go:170-210 | The scanner returns the entries of the labels block of the first metadata block, none if there is no block |
| AddonLabels.InjectLabels | pkg/addons/render/labels.go:51-133 | Fails exactly if there are labels and no metadata block; otherwise the text is the injection of the labels into the lines |
| LineScanner.ReadBlock | pkg/addons/render/validate.go:174-209 | The reading scanner collects the block that the declarative layout designates, for any kind of line |
| LineScanner.Locate | pkg/addons/render/labels.go:56-97 | The injecting scanner finds the same layout and the keys of the same block |
| AddonRender.DerivedLabelsAreWellFormed | pkg/addons/render/labels.go:10-40 | The keys of derived labels hold no colon or line break and do not start with a space, so that a line scanner reads them back |
| AddonRender.DerivedLabelsMeaning | pkg/addons/render/labels.go:15-40 | Each of the four keys is derived if and only if the stage, or the deprecation, calls for it, with the value "true"; there are no others |
| AddonRender.FileIsItsLines | pkg/addons/render/assemble.go:28-34 | A template file is taken as its lines, whether its last line is terminated or not |
| AddonRender.CheckLabelDrift | pkg/addons/render/validate.go:150-165 | Reports nothing exactly if manifest and metadata agree on every derivable key, and otherwise one finding for each key that disagrees |
| AddonRender.LenientBeforeIsStrictAfter | pkg/addons/render/validate.go:86-165 | A fragment passes the strict check after injection if and only if it passed the lenient check before |
| AddonRender.TemplateMarksAreRecoverable | pkg/addons/render/assemble.go:49-68 | First lines of items are recognised and no continuation line is mistaken for one |
| AddonRender.WriteListItem | pkg/addons/render/assemble.go:49-68 | Fails exactly for an empty first line; otherwise appends the item and nothing else |
| AddonRender.AssemblyIsLossless | pkg/addons/render/assemble.go:18-68 | Undoing the indentation of an assembled template gives back the same fragments in the same order |
| AddonRender.AssembleTemplate | pkg/addons/render/assemble.go:18-44 | Succeeds exactly if every built-in addon can be assembled; the text then takes apart into their fragments, in order, and each fragment shows the labels its addon had, and besides those exactly the stage and deprecation labels its metadata calls for |
| StorageMigration.StartMigration | pkg/api/vm/handler.go:1724-1757 | Names the target in the first entry of the source volume, or fails exactly if there is none |
| StorageMigration.SetTargetVolumeStrategy | pkg/controller/master/virtualmachine/vm_controller.go:524-613 | One controller round: without a target it changes nothing; otherwise each claim volume moves to the target of the last entry that names its claim, all others stay, the strategy becomes Migration, and the machine waits if and only if a volume moved, the strategy was another one, or it waited and does not migrate yet |
| StorageMigration.CancelStorageMigration | pkg/api/vm/handler.go:1759-1815 | Fails exactly if no entry is active; otherwise each volume whose claim is a target goes back to the claim of the last entry with that target, writable, all others stay; every entry keeps name and claim and loses its target; wait and strategy are gone and the machine no longer counts as migrating |
| StorageMigration.CancelUndoesEverySwap | pkg/api/vm/handler.go:1759-1815 | All claims and hotplug flags come back from every partial swap if and only if no claim in use is taken for the target of another volume |
| StorageMigration.NewTargetsAreReversible | pkg/api/vm/handler.go:1771-1778 | That condition holds when active targets are distinct and none is a claim in use |
| StorageMigration.CancelUndoesAnyRounds | pkg/controller/master/virtualmachine/vm_controller.go:524-585 | With distinct active targets, a cancel after any number of controller rounds puts every claim back if and only if the targets lead back and no claim in use has a target that is itself moved on |
| StorageMigration.ChainsAreLost | pkg/controller/master/virtualmachine/vm_controller.go:541-566 | Every volume whose target is moved on is moved twice by two rounds, and the cancel brings it back to the first target only |
| StorageMigration.ReadOnlyIsLost | pkg/controller/master/virtualmachine/vm_controller.go:587-596 | The very same volumes come back if and only if no moved volume was read-only |
| StorageMigration.CancelUndoesStart | pkg/api/vm/handler.go:1724-1815 | A cancel right after a start gives back the annotation as it was |
| CloneVolumes.CloneAll | pkg/api/vm/handler.go:1386-1447 | Fails exactly if a volume is unsupported or its claim missing; otherwise every volume is the source's with its references renamed consistently, the new claims follow the claim volumes in order with the old claim as data source, and distinct generated names are each used once |
| CloneVolumes.CloneKeepsRest | pkg/api/vm/handler.go:1386-1447 | The clone has the same volumes in the same order, of the same kind and name, container images and the presence of cloud-init parts included |
| CloneVolumes.CloneClaimsCorrespond | pkg/api/vm/handler.go:1392-1420 | The claims to create correspond one to one, in order, to the claim volumes, each with the name the clone uses, the old claim as data source and what is copied from it |
| CloneVolumes.ReferenceGraphIsPreserved | pkg/api/vm/handler.go:1422-1454 | Two secret references are equal in the clone if and only if they were in the source |
| CloneVolumes.CloneSharesNothing | pkg/api/vm/handler.go:1386-1454 | With new names no clone volume still names a claim or a secret of the source |
| CloneVolumes.Secrets.CloneSecrets | pkg/api/vm/handler.go:1356-1383 | Success means every new secret was absent before and was created with its source's data; failure means a fault, a missing source or a taken name; existing secrets are never overwritten and no others appear, also on failure |
| CloneVolumes.ClonedReferencesResolve | pkg/api/vm/handler.go:1325-1384 | After success every secret reference of the clone names a stored secret with the data its source had |
| EjectCdRom.EjectedMeaning | pkg/api/vm/handler.go:462-498 | Exactly the device's volumes and exactly the template entries of their claims go; all others stay, each as often and in the order they were in; nothing else about the machine changes |
| EjectCdRom.RemovedClaimsMeaning | pkg/api/vm/handler.go:476-487 | The claims collected are exactly those behind the device's volumes |
| EjectCdRom.RemoveEntries | pkg/api/vm/handler.go:569-590 | The loop over the annotation's entries computes the kept ones and leaves a missing annotation missing |
| EjectCdRom.Cluster.RemoveVolume | pkg/api/vm/handler.go:462-498 | One attempt commits at most one write, which removes exactly the device's volumes and their entries from the machine stored at that moment, and none on conflict; it fails only for a fault, a missing machine, a missing device or an unreadable annotation |
| EjectCdRom.Cluster.Eject | pkg/api/vm/handler.go:425-458 | Under any conflicts at most one write commits; only claims whose volume that very write dropped are asked to be deleted, none if nothing was written; on success each was deleted or already gone. It fails only for a fault, a machine it can do nothing for, five overtaking writes, or four conflicts on the claims, and makes no more attempts than these |
| MigratableNodes.FindMigratableNodes | pkg/api/vm/handler.go:755-888 | Fails exactly if a selector entry has wrong syntax or some considered expression has too many, too few or malformed operands; otherwise lists, in order, exactly the nodes that pass the filter, are not the current one, are not engaged in maintenance, asked to drain or cordoned, and have neither the unreachable nor the unschedulable taint |
| MigratableNodes.AddNodeAffinityFilters | pkg/api/vm/handler.go:845-888 | The requirements added are met exactly if every considered expression of every term holds |
| MigratableNodes.PassingNodeFits | pkg/api/vm/handler.go:845-888 | A node that passes the filter fits the pod in the Kubernetes meaning (its hostname pin apart) if and only if there is no affinity or some non-empty term's skipped expressions and field matches all hold |
| MigratableNodes.NodeAgreesExactly | pkg/api/vm/handler.go:803-888 | Filter and meaning agree on a node if and only if it is neither lost (fits one term, fails a considered expression of another) nor unchecked (passes, but fails something skipped in every term) |
| MigratableNodes.ListAgreesExactly | pkg/api/vm/handler.go:755-888 | The list is exactly the nodes that fit, are not the current one and are not drained, in order, if and only if no such free node is lost or unchecked |
| MigratableNodes.ListIsSoundExactly | pkg/api/vm/handler.go:755-888 | Every node listed fits if and only if no free node is unchecked |
| MigratableNodes.AlternativesAreExact | pkg/api/vm/handler.go:755-888 | If all terms are understood in full, the list is exact if and only if no free node meets one term and fails another |
| MigratableNodes.ListIsSound | pkg/api/vm/handler.go:755-888 | One required term understood in full is enough for every node listed to fit, not be the current one and not be drained |
| MigratableNodes.ListIsExact | pkg/api/vm/handler.go:755-888 | With no affinity or one term understood in full the list is exact |
| MigratableNodes.AlternativesAreLost | pkg/api/vm/handler.go:845-862 | Nodes are lost: two terms that ask for different values of a label lose every node with the first value |
| MigratableNodes.SkippedExpressionsAreNotChecked | pkg/api/vm/handler.go:866-881 | Nodes are unchecked: a term of one skipped expression lets through every node on which it does not hold |
| ImageLifecycle.RetryAccounting | pkg/image/common/operator.go:332-351 | In every run from a new image the failure count stays within the retry limit plus one, and the limit flag is set if and only if the count is past the limit |
| ImageLifecycle.ExceededIsFinal | pkg/image/common/operator.go:332-408 | Once the flag is set, count and flag never change again |
| ImageLifecycle.CounterCountsFailures | pkg/image/common/operator.go:332-351 | The counter equals the number of failures written, so at most limit plus one are ever written |
| ImageLifecycle.FullProgress | pkg/image/common/operator.go:370-402 | An event shows an unfinished image as complete if and only if its file is at 100 percent and failed, or is pending and the image was shown so before |
| ImageLifecycle.ImageServer.Update | pkg/image/common/operator.go:113-119 | Writes nothing if nothing changed; otherwise commits only on top of the version it was computed from, and keeps the run lawful; an error means a fault or a newer version |
| ImageLifecycle.ImageServer.OnBackingImageChanged | pkg/image/backingimage/backing_image_controller.go:40-102 | From any stale cached version the handler commits at most one write, on top of the version it saw: a counted failure, the import done, its progress, or a new backup target; nothing once the limit flag is set; success means the image shows the state of the file, and a new backup target is written only by an event without a state change |
| ImageLifecycle.ImageServer.OnImageChanged | pkg/controller/master/image/vm_image_controller.go:26-126 | The image controller leaves alone an image that is deleted, past its limit or still within ten seconds of its last failure; an imported one gets its virtual size or the missing mark; an unreadable failure time is replaced; otherwise the outcome of initialising is recorded; each time at most one write commits |
| ImageLifecycle.ImageServer.Initialize | pkg/controller/master/image/vm_image_controller.go:94-104 | The one write is a counted failure, or the initialized state with reason, message, times, applied URL and storage class, on top of the version the backend handed back; success means it was made or changes nothing |
| ImageLifecycle.ImageServer.HandleRetry | pkg/controller/master/image/vm_image_controller.go:106-126 | Within ten seconds of the last failure nothing happens; an unreadable failure time is replaced by the clock; otherwise the outcome of an attempt is recorded |
| ImageLifecycle.TransitionsMeaning | pkg/image/common/operator.go:332-402 | What each of the four status changes sets, field by field: failure, initialized, importing (never shown at 100 percent) and imported |
| ImageAdmission.EnsureTargetSC | pkg/image/common/mutator.go:114-151 | Fails exactly if no class is named and there is no default; otherwise its patches apply, fill the empty fields with the class asked for and keep all other annotations |
| ImageAdmission.ClassIsFixed | pkg/image/common/validator.go:395-442 | After an admitted create and any requests, annotation and spec both hold the class asked for, for ever |
| ImageAdmission.ClassIsFixedExactly | pkg/image/common/validator.go:395-442 | Some class is fixed for ever if and only if the create did not have a present but empty annotation beside a class |
| ImageAdmission.EmptyAnnotationCanDiverge | pkg/image/common/validator.go:407-442 | In that case an update naming another class in the annotation is admitted, and after it no request is |
| ImageAdmission.NamedClassStays | pkg/image/common/validator.go:407-442 | Whatever image is stored and whatever updates are admitted, a class named in the annotation or in the spec stays there for ever |
| ImageAdmission.UnnamedClassIsFree | pkg/image/common/validator.go:416-419 | An image that names no class may be given any |
| NestedValues.UniquePath | pkg/util/values.go:5-44 | Without sharing only one path leads to each map |
| NestedValues.GetValue | pkg/util/values.go:5-15 | Returns the value stored under the path, and nothing for a nil map, an empty path or a blocked one |
| NestedValues.Deepen | pkg/util/values.go:36-40 | Making a missing intermediate map keeps the tree a tree, is found on the path and is seen by no diverging path |
| NestedValues.Store | pkg/util/values.go:26-27 | The value is read back under the path, and every diverging path and every map on the way stay as they were |
| NestedValues.PutValue | pkg/util/values.go:20-44 | On any maps: plain data in the way leaves everything unchanged with no half-built maps, a nil map in the way is the only cause of a panic; otherwise one entry of one existing map changes and the value is read back unless the way to it uses that entry. Without sharing it is always read back, all diverging paths read as before, maps on the way are the same objects, and nothing is shared afterwards |
| BackupConditions.AppliedMeaning | pkg/backup/common/operator.go:834-860 | Only the entry of the applied type changes; a missing one is added |
| BackupConditions.AppliedKeepsOnePerKind | pkg/backup/common/operator.go:834-860 | There is never more than one entry per type |
| BackupConditions.FlipStartMeaning | pkg/backup/common/operator.go:842-846 | The start of the last stretch of equal statuses is where the status last flipped |
| BackupConditions.TransitionTimeIsLastFlip | pkg/backup/common/operator.go:834-860 | After any sequence of applied conditions each entry is the last one applied, dated by the last change of its content and the last flip of its status |
| BackupConditions.FlipTimesOverCalls | pkg/backup/common/operator.go:834-920 | The same over any sequence of the five status calls from an empty status |
| BackupConditions.ReadyBackupsAreDone | pkg/backup/common/operator.go:862-920 | After any sequence of those calls there is one entry per type, and a ready backup is not in progress and has no error |
| BackupConditions.CallOutcome | pkg/backup/common/operator.go:862-920 | For each call and every status before it: status, reason and message of the entries it sets, dated by the call exactly if content or status is new, the entries it leaves alone, the recorded error and the creation time |
| BackupConditions.Backup.ApplyCondition | pkg/backup/common/operator.go:834-860 | The in-place loop computes the applied list |
| BackupConditions.Backup.SetProcessingCondition | pkg/backup/common/operator.go:862-866 | Makes the whole status what the call sequence model says |
| BackupConditions.Backup.SetChangeToNonReadyCondition | pkg/backup/common/operator.go:868-873 | Makes the whole status what the call sequence model says |
| BackupConditions.Backup.SetCompleteCondition | pkg/backup/common/operator.go:875-881 | Makes the whole status what the call sequence model says, error cleared and creation time set |
| BackupConditions.Backup.SetErrorCondition | pkg/backup/common/operator.go:883-892 | Makes the whole status what the call sequence model says, error recorded |
| BackupConditions.Backup.UpdateMetadataReadyCondition | pkg/backup/common/operator.go:908-920 | Makes the whole status what the call sequence model says |

## Left out

- MaintenanceMode.DisableSuccess: does not claim that a newer maintenance attempt is left alone, because the update that uncordons the node does not check the phase again; only the removal of the condition is guarded.
- StorageMigration.CancelUndoesAnyRounds: entries whose active targets are not distinct, where a cancel picks the last entry of a target.
- CancelExpand.Cluster.CancelExpand: calls that overlap are treated in OverlapIsSafeExactly and not in this contract, which takes the call to be the only writer of the policy.
- ImageLifecycle.ImageServer.OnImageChanged: what a backend does to check or initialise; its own writes are among the writes by others.
- ImageLifecycle.RetryAccounting: the retry limit in the spec is taken as fixed for the life of the image.
- Upload failures of an image, which keep the retry account, are among the writes by others.
- The drain and node controllers are present only through the transitions, restarts and other writes they make.
- Which virtual machines may be stopped before a drain, and the drain itself.
- The storage-migration finaliser that rewrites annotation entries after a migration has completed.
- Names made by the random generator are given as a list; that they are distinct and new is a hypothesis where it matters.
- Label syntax rules and numeric label values are parameters.
- JSON and YAML encoding, template placeholders, file discovery, HTTP routing, uploads and downloads.
- Templates and their versions, resource quotas, network interfaces, hotplug of CPU and memory: they would add easy members only.
- Restore objects, backup targets and volume backups.
- Nothing was executed: the model is compared with the source by reading.
