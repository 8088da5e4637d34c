# Log controller: a verified model

The log controller runs on every node of a Kubernetes cluster. It watches log collection rules and
pods and writes one Filebeat configuration file for each pair of a pod and a rule. This project
models its logic in Dafny and proves properties of it. `dafny verify dfyconfig.toml` checks all of it.

It has four parts, hardest first.

**The rule reconciler.** A node keeps a cache of the specification last applied to each rule, and a
directory of files. A pass over a rule deletes by the cached specification and creates by the new
one; it may stop after any file operation, or in the middle of a write, and is then retried.
`RuleController` has the reconciler as a class over an API server whose reads may be stale and whose
updates are compare-and-swap; every pass of it is one step of the machine in `RuleRuns`, whose runs
hold every user edit, stale read and failure. `RuleOps` says what a sequence of file operations leaves
for each pod, against an independent definition of what a rebuild would hold (`RuleOps.Expected`).
`PodEvents` has the event filter, which rewrites and removes files behind the reconciler's back;
`PodRuns` has the runs in which passes and pod events follow each other in any order, with pods that
come, change and go. `Uids` and `UidProtocol` treat the race of many nodes to set the UIDs of one
shared rule while pod events write it unfilled; `UidFiles` ties its steps to the controller, and
`UidsDistinct` says that slots keep UIDs of their own. `HostRule` has the sibling protocol without a cache.

**Merging duplicate keys.** `Yaml` has `MergeDuplicateKeys` as a function on trees and says fully what
it computes. `YamlHeap` has it as the program does it, in place on node objects that share value
nodes with the result, and proves that the two agree.

**The log path pipeline.** A log path is substituted with a container's variables, its directory is
walked upwards to the deepest mount and translated to a host directory, and the path is then found
again by its directory string. `Paths` defines the path functions on segments, `Env` the substitution,
`Mounts` the walk, `Filebeat` the grouping into configuration entries, `LogPipeline` the claims and
the path from end to end. `SharedModels` has the models of one rule's containers as objects that
share one path slice and one field map, into which `FindMount` writes.

**File names.** `ConfigFiles` treats deletion by substring: which files a pattern takes, for all rule
names, and for which rule names that is exactly the one meant.

Methods are proved against specification functions. What such a function means is stated without it, in
terms of the pods, rules, strings and nodes it speaks of, by a lemma whose name ends in `Exactly` or `At`:
which pods a collector is meant for (`RuleOps.TakerExactly`), what filling changes (`Uids.FillExactly`),
when an event does what (`PodEvents.HandlingExactly`), what a reference becomes (`Env.SubstExactly`), and so
on for each of them.

## What the theorems rest on

- Pod UIDs have the 36-character form of RFC 4122, section 3, and differ from pod to pod
  (`ConfigFiles.PodUid`, `RuleOps.ValidPods`).
- Removing a file succeeds; the program only logs a failure (pkg/adapter/filebeat/filebeat.go:325-328).
- The API server accepts an update only for its current resource version. An answer may be lost.
- The theorems of `RuleRuns` are for a fixed list of pods. In `PodRuns` any pod may come, change in any
  way but its UID and namespace, and go, and its events may be handled at any later time; a pass and the
  handling of an event do not overlap.
- Where pod files of different rules are told apart, rule names hold neither `.yml` behind their first
  character nor a pod UID followed by `-by-` and more (`ConfigFiles.SafePodRule`); for host files they
  hold neither `.yml` nor `-by-` and do not begin with `by-` (`ConfigFiles.SafeHostRule`).
  `ConfigFiles.ExactForSafe` and `ConfigFiles.HostExactForSafe` prove that these are all the names for
  which deletion is exact. Where all files of a pod are removed at once, rule names hold no pod UID.
- No log path and no directory becomes the bare word `stdout` by substitution, which the program would take
  for the container's output; `LogPipeline.ListedExactly` and `LogPipeline.DroppedUnlessKept` need no such
  condition.
- A new UID is not empty; only `UidsDistinct.UidsStayDistinct` also needs it to be new.
- What a file holds is a free term of the collector's rules and of what is read of the pod
  (`Rules.PodConfig`, `Rules.View`), or `Torn` after a failed write. A container with the same ID has the
  same variables and mounts.

## What the code does that one might not expect

- The handling of a pod update writes the listed rule as it is, without setting UIDs. Before any pass
  has set them, it writes entries without a UID, and other nodes then write other ones
  (`UidProtocol.EventWritesEmpty`). Two entries of a slot agree exactly when both or neither were
  written from a version with the slot empty (`UidProtocol.NodesAgree`).
- A status change that the filter does not handle, such as another ID of an init container, leaves a
  file that a rebuild would write differently (`PodRuns.StatusChangeInStep` says exactly when).
- A pod being deleted loses its files while it is still listed, and a pass in between writes them again
  (`PodRuns.TerminatingPod`).
- A path is dropped without a word when the directory looked up for it is not the parent of its
  substituted form, unless another path rescues it. `LogPipeline.DroppedUnlessKept` says for every list of
  paths exactly when its file is listed: the last mount that lists files under its host directory has to be
  for a directory that is the parent of some path with the same file name. So another path of the rule with
  the same host directory can rescue a path whose own directory nothing finds
  (`LogPipeline.CollisionRescues`), and it can equally replace the files of one that was found
  (`Filebeat.LastMountDecides`).
- For a path in which every `..` cancels one name, the two computations of its directory agree exactly when
  the substituted parent is a clean path and the value of the file name leads back to it
  (`Env.DirectoryKeyAgreement`). `Env.DirectoryKeyExactly` has the condition for all paths.
- The first container of a rule decides for the others: where it has a value for every reference, they
  collect the paths with its values and not with their own (`SharedModels.FirstContainerDecides`,
  `SharedModels.ResolvedIsFinal`).
- Containers of one rule that agree on every variable can still get different mounts: with the value
  `/v/`, the second container looks up another directory than the first
  (`SharedModels.UncleanValueSplitsContainers`). For a path this happens exactly when the two computations of
  its directory differ and one of the two directories has a source (`SharedModels.NextContainerMount`).
- A directory below a claim is not seen as protected when its first name below the claim begins with
  two dots (`LogPipeline.DottedNameEscapes`).
- A mount at `/` is passed over unless the directory is `/` (`Mounts.RootMountIsPassedOver`).
- Deleting rule `a` of a pod also deletes the file of rule `a.yml` (`ConfigFiles.DottedRuleIsTaken`); on
  a node called `y`, deleting host rule `r` also deletes the file of `by-r`
  (`ConfigFiles.ByPrefixIsTaken`).
- A deletion goes by the specification it reads, not the cached one, so it can leave files behind
  (`RuleRuns.DropExact` says exactly when it does not).
- An update that fails after its deletions and is then edited back to the cached specification is
  skipped, and the deleted files stay away (`RuleRuns.RevertRun`). `RuleRuns.RevertExact` says for every
  interruption whether the return is in step. Two edits with a failure between them can leave a file
  that no specification asks for (`RuleRuns.OrphanRun`).
- A host rule that loses its last collector keeps its file (`HostRule.EmptyRuleKeepsFile`). A failed
  listing of nodes reads as no match and deletes the file, and the pass reports success
  (`HostRule.FailedListingDeletes`).
- Merging the later part of a mapping first is not the same as merging all of it
  (`Yaml.MergeRightFirstLoses`; `Yaml.MergeRightFirst` says exactly when it is).

## Model

| member | source | states |
|---|---|---|
| RuleRuns.StepInStep | pkg/controller/rule/collector_rule_controller.go:60-137 | every pass, failed or not, on any specification read, keeps each rule's files equal to a rebuild from the cache, except at pods it names as pending |
| RuleRuns.RunInStep | pkg/controller/rule/collector_rule_controller.go:60-230 | the same over whole runs with edits, stale reads and failures, from no pending pods |
| RuleRuns.WholeRunAgreement | pkg/controller/rule/collector_rule_controller.go:60-230 | after any run without failures whose deletions reach what was cached, a file with a content is there if and only if it is named after a pod of this node and a cached rule of its namespace with an enabled collector whose labels the pod has, and the content is that of the last such collector |
| RuleRuns.RetryConverges | pkg/controller/rule/collector_rule_controller.go:103-113 | any number of attempts that fail anywhere and aim at no pod but those of the cached and the final specification, with passes over other rules between them, then one success, leave the files of a rebuild from the new specification |
| RuleRuns.OtherRulesUntouched | pkg/controller/rule/collector_rule_controller.go:208-230 | no pass over one rule, finished or interrupted, changes a file of another rule |
| RuleRuns.SuccessExact | pkg/controller/rule/collector_rule_controller.go:188-206 | a finished update is a rebuild if and only if no file was left at a pod that neither specification reaches |
| RuleRuns.OrphanAfterTwoEdits | pkg/controller/rule/collector_rule_controller.go:188-206 | what a failed update wrote for a pod only it reaches survives a later successful update |
| RuleRuns.RevertExact | pkg/controller/rule/collector_rule_controller.go:188-206 | after an update interrupted anywhere, a skipped return to the cached specification is in step if and only if the last operation done on each pod, if any, left what that specification asks for |
| RuleRuns.RevertAfterDeletions | pkg/controller/rule/collector_rule_controller.go:194-198 | interrupted during its deletions, it is in step if and only if none was done |
| RuleRuns.RevertAfterAll | pkg/controller/rule/collector_rule_controller.go:199-203 | interrupted after all its writes, it is in step if and only if both specifications ask for the same files |
| RuleRuns.RevertSkips | pkg/controller/rule/collector_rule_controller.go:190-193 | interrupted just behind its deletions, the return is skipped and every file the cached specification asks for stays away |
| RuleRuns.RevertFromStart | pkg/controller/rule/collector_rule_controller.go:188-206 | from the start, for any two specifications: create, fail behind the deletions of an edit, edit back; every pod of the specification ends without its file |
| RuleRuns.RevertRun | pkg/controller/rule/collector_rule_controller.go:190-193 | for any rule and node there is such a run |
| RuleRuns.OrphanRun | pkg/controller/rule/collector_rule_controller.go:188-206 | a run from the start, for any rule and node, that leaves a torn file no specification asks for |
| RuleRuns.DropExact | pkg/controller/rule/collector_rule_controller.go:116-129 | a finished deletion leaves no file of the rule if and only if the specification it read reaches every pod the cached one reached |
| RuleOps.ApplyAt | pkg/adapter/filebeat/filebeat.go:303-330 | one write or deletion changes the file of exactly that rule and pod |
| RuleOps.SpecAt | pkg/controller/rule/collector_rule_controller.go:139-170 | a finished creation leaves each reached pod the last taking collector's content, a finished deletion none; other pods keep what they had |
| RuleOps.CollectorAt | pkg/controller/rule/collector_rule_controller.go:147-168 | the pod loop of one collector writes or deletes the file of each local pod it selects and of no other |
| RuleOps.SpecOpsReach | pkg/controller/rule/collector_rule_controller.go:208-231 | no operation is for a pod the specification does not reach |
| RuleOps.TakerExactly | pkg/controller/rule/collector_rule_controller.go:147-161 | a collector takes a pod if and only if some enabled one has no label that the pod lacks and the pod is of the namespace and on this node; the last such collector is the one |
| RuleOps.ExpectedExactly | pkg/controller/rule/collector_rule_controller.go:147-168 | what a rebuild holds for a pod is what the last such collector asks for |
| RuleOps.OpsExactly | pkg/controller/rule/collector_rule_controller.go:147-168 | a pass writes or deletes for a pod and a collector if and only if the collector is meant for the pod |
| RuleOps.ApplyAccounted | pkg/adapter/filebeat/filebeat.go:569-573 | every file is always some rule's file for some pod |
| RuleController.Reconciler.Reconcile | pkg/controller/rule/collector_rule_controller.go:60-137 | a pass is nothing or one step of the machine, about the rule it read; an undisturbed one on the server's copy is the function Pass |
| RuleController.Reconciler.ReconcileLive | pkg/controller/rule/collector_rule_controller.go:91-114 | creation or update, then the cache takes the filled specification only on success |
| RuleController.Reconciler.ReconcileDeleted | pkg/controller/rule/collector_rule_controller.go:115-135 | deletion by the specification read, then cache and finalizer; a failure keeps both |
| RuleController.Reconciler.UpdateEvent | pkg/controller/rule/collector_rule_controller.go:188-206 | equal specifications change nothing; otherwise the files are those of deletions by the old, then writes by the new specification, cut where it failed |
| RuleController.Reconciler.CreateEvent | pkg/controller/rule/collector_rule_controller.go:139-170 | the UIDs are on the server before the first file is written |
| RuleController.Reconciler.WriteConfigs | pkg/controller/rule/collector_rule_controller.go:147-168 | the nested loops perform exactly the planned writes, in order, up to a failure |
| RuleController.Reconciler.DeleteEvent | pkg/controller/rule/collector_rule_controller.go:208-231 | the nested loops perform exactly the planned deletions, in order, up to a failure |
| RuleController.Reconciler.NewInput | pkg/controller/rule/collector_rule_controller.go:242-263 | the file is written, untouched or torn |
| RuleController.Reconciler.DeletePodConfig | pkg/controller/rule/collector_rule_controller.go:232-240 | deletion by the pattern of the pod and the rule, or nothing on a failure |
| RuleController.ApiServer.Update | pkg/controller/rule/collector_rule_controller.go:81-90 | compare-and-swap on the version; a conflict changes nothing, a lost answer may have been applied |
| RuleController.ListedOps | pkg/controller/rule/collector_rule_controller.go:151-161 | listing by namespace and selector first, then filtering by node, loses no operation |
| RuleController.DonePrefix | pkg/controller/rule/collector_rule_controller.go:147-168 | what is done when a loop stops is a beginning of the whole plan |
| RuleController.CutsJoined | pkg/controller/rule/collector_rule_controller.go:194-203 | an interrupted creation after a finished deletion is an interruption of the joined plan |
| RuleController.NoSelfTriggering | pkg/controller/rule/collector_rule_controller.go:80-115 | for a live rule and any number of undisturbed passes: at most two updates are sent in all, as many as the server has new versions of the rule, and after the second pass server, cache and files no longer change |
| RuleController.LiveRuleSynced | pkg/controller/rule/collector_rule_controller.go:91-114 | an undisturbed pass over a finalized rule whose specification is not the cached one leaves each pod the file of the last collector meant for it, with all UIDs, and the same specification in the cache and on the server |
| RuleController.FinalizerFirst | pkg/controller/rule/collector_rule_controller.go:80-90 | a pass over a live rule without the finalizer sets it and does nothing else |
| RuleController.DeletedRuleGoes | pkg/controller/rule/collector_rule_controller.go:115-135 | an undisturbed pass over a deleted rule: with the finalizer, its files of every pod a collector is meant for go, and it leaves the cache; then it leaves the server, or only loses the finalizer if others hold it |
| Uids.MustSetUID | pkg/controller/rule/collector_rule_controller.go:172-186 | fills every empty UID, and reports a change if and only if one was empty |
| Uids.SetInContainerRules | pkg/controller/rule/collector_rule_controller.go:175-183 | the same for the container rules of one collector |
| Uids.SetInRules | pkg/controller/rule/collector_rule_controller.go:176-182 | the same for the rules of one container rule |
| Uids.FillAt | pkg/controller/rule/collector_rule_controller.go:177-180 | no slot is added or lost, a UID that is set is kept, an empty one is drawn |
| Uids.FillExactly | pkg/controller/rule/collector_rule_controller.go:174-184 | filling changes nothing but UIDs: collectors, container rules and all else of the rules stay |
| Uids.FillLeavesNone | pkg/controller/rule/collector_rule_controller.go:172-186 | afterwards no UID is empty |
| Uids.FillOfFilled | pkg/controller/rule/collector_rule_controller.go:177-179 | a complete specification is not changed |
| Uids.FillReaches | pkg/controller/rule/collector_rule_controller.go:172-186 | filling changes no selector: the same pods are reached |
| Uids.TakerOfFilled | pkg/controller/rule/collector_rule_controller.go:172-186 | the same collector takes a pod before and after filling, and its rules change if and only if one of their UIDs was empty |
| UidProtocol.NextKeepsInv | pkg/controller/rule/collector_rule_controller.go:139-186 | every step of every node, event writes included, keeps the invariant: versions only add UIDs, passes write from complete versions, and every entry has the UID of its slot in the version it was written from |
| UidProtocol.RunKeepsInv | pkg/controller/rule/collector_rule_controller.go:139-186 | the invariant over all interleavings; the history of versions only grows |
| UidProtocol.CommittedUidNeverChanges | pkg/controller/rule/collector_rule_controller.go:177-184 | once a version of the rule has a UID in a slot, every later version has the same there |
| UidProtocol.NodesAgree | pkg/controller/rule/collector_rule_controller.go:139-168 | for all interleavings of passes and event writes: an entry is empty if and only if its slot was empty in the version it was written from, never in a pass; two entries of a slot agree if and only if both or neither were written from a version with the slot empty |
| UidProtocol.PassesAgree | pkg/controller/rule/collector_rule_controller.go:141-146 | any two entries that passes write for one slot have the same UID, however stale their copies were |
| UidProtocol.EventWritesEmpty | pkg/controller/rule/collector_rule_controller.go:466-498 | a pod update handled before the UIDs are set writes an empty UID, and a pass on another node then writes another one |
| UidProtocol.FaithfulAgree | pkg/controller/rule/collector_rule_controller.go:177-179 | entries written from versions of one growing history agree unless one of them is empty |
| UidFiles.CreateIsFill | pkg/controller/rule/collector_rule_controller.go:139-146 | a pass of the controller that got as far as writing has done the step Fill, and writes from the version it made or found complete |
| UidFiles.PassFileIsWrites | pkg/controller/rule/collector_rule_controller.go:147-168 | a file that a pass writes has the entries of the steps Write for one collector |
| UidFiles.EventFileIsEventWrites | pkg/controller/rule/collector_rule_controller.go:471-498 | a file that a pod update writes has the entries of the steps EventWrite for one collector of the listed version |
| UidsDistinct.UidsStayDistinct | pkg/controller/rule/collector_rule_controller.go:180-181 | with fresh draws no two slots of the current version come to share a UID |
| PodEvents.MatchesLabels | pkg/controller/rule/collector_rule_controller.go:476-491 | the inline label loop accepts exactly what the selector of the reconcile path accepts |
| Rules.SelectsExactly | pkg/controller/rule/collector_rule_controller.go:151-152 | a selector made of labels selects exactly the pods that have them all |
| PodEvents.IsContainerReady | pkg/controller/rule/collector_rule_controller.go:303-322 | a running init container or any created container |
| PodEvents.ContainerChanged | pkg/controller/rule/collector_rule_controller.go:450-461 | some container of the same name has another ID; new containers do not count |
| PodEvents.RewriteRule | pkg/controller/rule/collector_rule_controller.go:472-498 | one write for each enabled collector that selects the pod, in order, up to a failure; no other pod's file changes |
| PodEvents.RewriteAll | pkg/controller/rule/collector_rule_controller.go:471-499 | the same for all listed rules, up to a failure |
| PodEvents.PodUpdated | pkg/controller/rule/collector_rule_controller.go:434-500 | files are rewritten if the pod is local, live, ready and a container restarted, removed if it is local, being deleted and selected with no container ready, and untouched otherwise; a failure cuts this short |
| PodEvents.HandlingExactly | pkg/controller/rule/collector_rule_controller.go:434-464 | files are rewritten if and only if the pod is local and live, an init container runs or a container has been created, and a container has another ID than before; removed if and only if it is local, being deleted, without ready containers, and an enabled collector of a listed rule is meant for it |
| PodEvents.WritesExactly | pkg/controller/rule/collector_rule_controller.go:472-498 | what is written for a rule is the content of the last enabled collector without a label that the pod lacks |
| PodEvents.PodDeleted | pkg/controller/rule/collector_rule_controller.go:506-544 | the pod's files go if it is local and an enabled collector of a listed rule selects it, else nothing changes; a failure leaves them or comes after the removal |
| PodEvents.DealPodDeleted | pkg/controller/rule/collector_rule_controller.go:379-421 | the same for a pod being deleted, once no container is ready |
| PodEvents.EventPathAgrees | pkg/controller/rule/collector_rule_controller.go:466-498 | a finished pod update leaves for a listed rule the file createEvent would write, UIDs and all, if and only if no collector takes the pod or the last one that does needs no UID |
| PodEvents.EventLoopsAgree | pkg/controller/rule/collector_rule_controller.go:471-498 | it leaves for each listed rule what the loops of createEvent leave for that pod from the listed specification, and the files of other pods |
| PodEvents.UpdatedAt | pkg/controller/rule/collector_rule_controller.go:471-498 | for every rule, listed or not: the pod's file has the content of the last enabled collector that selects it, or stays |
| PodEvents.HandledAt | pkg/controller/rule/collector_rule_controller.go:431-548 | what any event, finished or not, leaves of a rule's files: other pods' as they were, the pod's own by its trace |
| PodRuns.PodUpdateInStep | pkg/controller/rule/collector_rule_controller.go:431-500 | when a pod changes in any way, a rule, listed or not, stays in step if and only if the event left what the cached specification asks for now, or left the file alone and the same is asked for as before |
| PodRuns.StatusChangeInStep | pkg/controller/rule/collector_rule_controller.go:434-498 | for a pod whose labels stay: ignored, it has to be untaken or unchanged in all that is read of it; removed, untaken; rewritten, by the rules of the cached collector |
| PodRuns.TerminatingPod | pkg/controller/rule/collector_rule_controller.go:379-421 | a pod being deleted is out of step until it goes, and a pass in between writes its file again |
| PodRuns.EventInStep | pkg/controller/rule/collector_rule_controller.go:431-548 | every event, finished or not, keeps every rule in step outside the pods it names as pending |
| PodRuns.NodeStepInStep | pkg/controller/rule/collector_rule_controller.go:60-548 | every pass, every change of the pods and every handling of an event does, whatever it reads, however late it comes and wherever it fails |
| PodRuns.NodeRunInStep | pkg/controller/rule/collector_rule_controller.go:60-548 | the same over all runs of passes, edits, failures, pods that come, change and go, and events handled then or later |
| PodRuns.NodeAgreement | pkg/controller/rule/collector_rule_controller.go:60-548 | after any such run, the file of a rule for a pod that is not pending is there with a content if and only if the cached specification asks for it for the pods there are now |
| PodRuns.NodeDirectory | pkg/controller/rule/collector_rule_controller.go:60-548 | the same for the directory as a whole: no other file of a settled rule and pod is there |
| PodRuns.NewPodSettles | pkg/controller/rule/collector_rule_controller.go:442-498 | a new pod is settled when the event of its start is handled, if the listed and the cached specification write the same |
| PodEvents.KeptAt | pkg/adapter/filebeat/filebeat.go:318-330 | removing a pod's files takes all of them and no other pod's, for rule names without its UID |
| PodRuns.PodDeletionInStep | pkg/controller/rule/collector_rule_controller.go:506-544 | when a pod goes, a rule stays in step if and only if the pod was local, in the rule's namespace and selected by a listed rule, or no file was asked for |
| HostRule.MustSetUID | pkg/controller/host_rule/host_collector_rule_controller.go:114-126 | fills every empty UID, and reports a change if and only if one was empty |
| HostRule.FillSettles | pkg/controller/host_rule/host_collector_rule_controller.go:114-126 | afterwards none is empty, and filling again changes nothing |
| HostRule.FillExactly | pkg/controller/host_rule/host_collector_rule_controller.go:116-124 | an empty UID is drawn, one that is set is kept, and nothing else of a rule changes |
| HostRule.Reconciler.Update | pkg/controller/host_rule/host_collector_rule_controller.go:50-55 | compare-and-swap on the version; a conflict changes nothing, a lost answer may have been applied |
| HostRule.Reconciler.IsHostMatch | pkg/controller/host_rule/host_collector_rule_controller.go:78-92 | this node has the labels; a failed listing reads as no match |
| HostRule.Reconciler.SyncRule | pkg/controller/host_rule/host_collector_rule_controller.go:78-112 | on a match the UIDs are committed and each collector overwrites the file; otherwise the file goes; after a failed listing it goes too, and the pass reports success; other rules' files stay however it ends |
| HostRule.Reconciler.Reconcile | pkg/controller/host_rule/host_collector_rule_controller.go:38-76 | a pass that ends well on the server's copy is the function Pass, with or without a listing; other rules' files stay however it ends, on any copy |
| HostRule.SyncedAt | pkg/controller/host_rule/host_collector_rule_controller.go:94-134 | what a pass leaves of the rule's own file and of every other rule's |
| HostRule.HostConverges | pkg/controller/host_rule/host_collector_rule_controller.go:38-134 | after a pass the file is present with the last collector's rules on a matching node and absent otherwise, if and only if the node does not match, or the nodes were listed and there is a collector or no old file, or they were not and there is no collector |
| HostRule.MatchesExactly | pkg/controller/host_rule/host_collector_rule_controller.go:78-92 | a node matches if and only if one with this name has all labels of the selector |
| HostRule.DeletedRuleGoes | pkg/controller/host_rule/host_collector_rule_controller.go:62-74 | a pass over a deleted rule: with the finalizer its file goes; then the rule leaves the server, or only loses the finalizer if others hold it |
| HostRule.FinalizerFirst | pkg/controller/host_rule/host_collector_rule_controller.go:48-58 | a pass over a live rule without the finalizer sets it and changes no file |
| HostRule.MissingRuleStays | pkg/controller/host_rule/host_collector_rule_controller.go:41-46 | without the rule nothing changes |
| HostRule.FailedListingDeletes | pkg/controller/host_rule/host_collector_rule_controller.go:81-96 | after a failed listing a matching node has lost its file, and the next pass with a listing restores it |
| HostRule.SecondPassChangesNothing | pkg/controller/host_rule/host_collector_rule_controller.go:94-112 | a second pass changes neither the server nor the files |
| HostRule.OthersUntouched | pkg/controller/host_rule/host_collector_rule_controller.go:128-134 | passes over one rule leave the files of the others |
| HostRule.DeletionKeepsOthers | pkg/adapter/filebeat/filebeat.go:349-357 | deleting a host rule's file keeps those of all rules with separable names |
| HostRule.EmptyRuleKeepsFile | pkg/controller/host_rule/host_collector_rule_controller.go:104-110 | a matching rule without collectors neither writes nor deletes |
| Yaml.MergedMapping | pkg/utils/utils.go:80-129 | a merged mapping in full: different keys by first occurrence, each value the first merged one, with the items of all later merged sequences if it is a sequence |
| Yaml.MergedOther | pkg/utils/utils.go:71-79 | documents and sequences keep all but their items, each of which is merged; every other node stays |
| Yaml.CollectedValue | pkg/utils/utils.go:88-104 | the value collected for a key is the joined list of all values found under it |
| Yaml.OrderByFirstOccurrence | pkg/utils/utils.go:106-120 | the emitted keys are all keys, each once, by first occurrence |
| Yaml.MergeIsCanonical | pkg/utils/utils.go:69-142 | at every depth keys are unique, as section 3.2.1.1 of YAML 1.2.2 demands |
| Yaml.MergeKeepsCanonical | pkg/utils/utils.go:69-142 | a tree that is canonical already is left as it is |
| Yaml.MergeIdempotent | pkg/utils/utils.go:69-142 | merging twice is merging once |
| Yaml.MergeLeftIncremental | pkg/utils/utils.go:80-129 | merging A followed by B is merging (merged A) followed by B |
| Yaml.MergeRightFirst | pkg/utils/utils.go:97-103 | merging B first changes nothing if and only if no key has a sequence first in A and, in B, a non-sequence before a sequence with items |
| Yaml.MergeRightFirstLoses | pkg/utils/utils.go:97-103 | a mapping for which merging the later part first drops an item |
| YamlHeap.MergeDuplicateKeys | pkg/utils/utils.go:69-142 | on every unshared tree the in-place method ends, returns an unshared tree with the value of Yaml.Merge, made of old and new nodes, and changes only nodes of the input |
| YamlHeap.MergeItems | pkg/utils/utils.go:71-79 | every item of a document or sequence is replaced by its merged form |
| YamlHeap.MergeItem | pkg/utils/utils.go:131-137 | one item is replaced, the other trees of the node stay |
| YamlHeap.MergeMapping | pkg/utils/utils.go:80-129 | a new mapping node with the merged content |
| YamlHeap.FirstPass | pkg/utils/utils.go:87-104 | after the first pass the map holds, for each key, a separate tree with the collected value |
| YamlHeap.MergeEntry | pkg/utils/utils.go:88-103 | one turn of the first pass, which leaves the values not yet visited alone |
| YamlHeap.AddEntry | pkg/utils/utils.go:96-103 | a new key gets the value; a repeated one is extended in place |
| YamlHeap.ExtendNode | pkg/utils/utils.go:97-100 | the items of a later sequence are appended to the first one's node |
| YamlHeap.FirstOccurrences | pkg/utils/utils.go:106-120 | the second pass lists the keys by first occurrence |
| YamlHeap.IsListed | pkg/utils/utils.go:110-116 | whether a key is in the list |
| YamlHeap.Assemble | pkg/utils/utils.go:121-128 | every looked-up key is there, and the new mapping shares the collected value nodes |
| YamlHeap.AppendPair | pkg/utils/utils.go:122-127 | a new key node and the value node are appended |
| Env.DirectoryKeyExactly | pkg/utils/mount.go:268-270 | for every path and all variables: the looked-up directory (substitute the parent) equals the grouping key (parent of the substituted path) if and only if the first is clean, both or neither are absolute, and cleaning the substituted segments before the file name gives its names |
| Env.DirectoryKeyAgreement | pkg/utils/mount.go:268-270 | when every ".." cancels one name: if and only if the substituted parent is clean and the file name's value leads back to it |
| Env.PlainFileNameAgreement | pkg/utils/mount.go:268-270 | without dot segments and with one segment for the file name: if and only if the substituted parent is clean |
| Env.CleanSteady | pkg/utils/mount.go:268 | in a clean path ".." cancels nothing, so the agreement holds for all clean paths |
| Env.DirectoryInFileNameDisagrees | pkg/utils/utils.go:36-48 | the two always differ when the file name is replaced by a value that brings a directory below the current one |
| Env.SegmentsOfSubst | pkg/utils/utils.go:34-52 | the segments of a substituted path are those of the values put in, in order |
| Env.ParsePath | pkg/utils/utils.go:34-52 | overwriting the segments in place is the substitution function |
| Env.ParseEnv | pkg/utils/utils.go:54-67 | a whole value that is a reference is replaced if the variable is there |
| Env.FindEnv | pkg/utils/utils.go:43-48 | the search loop finds the first variable of the name |
| Env.FirstVariableWins | pkg/utils/utils.go:43-48 | of several variables of one name the first gives the value |
| Env.NoVariable | pkg/utils/utils.go:61-66 | without such a variable none is found |
| Env.SubstExactly | pkg/utils/utils.go:36-67 | a reference to a variable becomes the value of the first one of its name, and every other text stays |
| Env.SubstPathExactly | pkg/utils/utils.go:34-52 | substituting a path substitutes each of its segments |
| Env.ReferenceForm | pkg/utils/utils.go:37-41 | what the regular expression accepts: a name without line feed in $( and ) |
| Mounts.WalkIsDeepest | pkg/utils/mount.go:277-316 | from any ancestor, the walk finds the first-listed deepest mount at or above the directory |
| Mounts.DeepestMount | pkg/utils/mount.go:269-316 | for every absolute clean directory and mount list: the first-listed of the deepest mounts at or above it, "/" only for "/"; none if and only if there is none |
| Mounts.RootMountIsPassedOver | pkg/utils/mount.go:308-316 | a mount at "/" is not found for any other directory |
| Mounts.WalkUp | pkg/utils/mount.go:277-316 | the nested loops end, because the directory shrinks, with the result of the walk function |
| Mounts.LookUp | pkg/utils/mount.go:259-317 | one log path: stdout, a directory below a mount, in the writable layer, or nowhere |
| Mounts.FindMount | pkg/utils/mount.go:254-319 | the mounts found, and the path slice and field map as it leaves them |
| Mounts.SubstFields | pkg/utils/mount.go:254-256 | every field value is substituted in place |
| Mounts.FieldsExactly | pkg/utils/mount.go:254-256 | a field keeps its name; a reference to a variable becomes its value, and every other value stays |
| Mounts.PathsExactly | pkg/utils/mount.go:259-267 | the word stdout stays, every other path is substituted segment by segment |
| Mounts.StdoutExactly | pkg/utils/mount.go:260-266 | stdout is found as the log files of the directory of the container's log file |
| Mounts.MountSourceNames | pkg/utils/mount.go:280-293 | the source is the mount's host directory followed by the names from the mount to the directory |
| Mounts.RelBelow | pkg/utils/mount.go:280-287 | the relative path to a directory at or below is never empty |
| Mounts.SourceExactly | pkg/utils/mount.go:277-316 | an absolute clean directory has a source below a mount, or else in the writable layer exactly when there is one |
| Mounts.MountListedOnce | pkg/utils/mount.go:294-301 | only stdout and directories of the writable layer can be listed twice |
| Paths.DirShrinks | pkg/utils/mount.go:308-309 | going up shortens every path until "/" or "." |
| Paths.DirOfClean | pkg/utils/mount.go:308 | going up from a clean absolute path drops its last name |
| Paths.DirIsClean | pkg/utils/mount.go:269 | a parent directory is clean |
| Paths.CleanIdempotent | pkg/utils/mount.go:287 | cleaning twice is cleaning once |
| Paths.CleanEqual | pkg/utils/mount.go:287 | clean paths are equal if and only if root flag and names are |
| Paths.DirAndBase | pkg/adapter/filebeat/filebeat.go:133-134 | a clean absolute path is its directory and its file name |
| Paths.BaseOfFile | pkg/adapter/filebeat/filebeat.go:150 | the base of a path is its last name, with or without a slash behind it |
| Paths.JoinExactly | pkg/utils/mount.go:290 | joining leaves empty parts out and reads the second path from the first |
| Paths.RelLeads | pkg/utils/mount.go:280 | from one absolute path to another there is always a relative one, and it leads there |
| Paths.CleaningLaws | pkg/utils/mount.go:287 | how cleaning treats an empty segment, a dot, a name, and two dots after a name or at the start |
| Filebeat.GroupByDir | pkg/adapter/filebeat/filebeat.go:132-145 | each directory with the file patterns of its paths, in order |
| Filebeat.FilesUnderAt | pkg/adapter/filebeat/filebeat.go:132-145 | a directory lists its files in the order of their paths, each as often as it occurs |
| Filebeat.LogFileExactly | pkg/adapter/filebeat/filebeat.go:133-138 | a path stands for its file name, with a slash at its end for every log file |
| Filebeat.MapHostDirs | pkg/adapter/filebeat/filebeat.go:146-172 | the host directories, the stdout flag, and whether some found path is on a claim |
| Filebeat.StdoutListed | pkg/adapter/filebeat/filebeat.go:149-155 | stdout is listed under the cleaned directory of the log file, with one pattern |
| Filebeat.SplitRoot | pkg/adapter/filebeat/filebeat.go:182-193 | multiline options become parser options, the others are kept |
| Filebeat.SetsParserExactly | pkg/adapter/filebeat/filebeat.go:183-189 | a key sets a parser option if and only if it mentions multiline and has one dot, in front of the option |
| Filebeat.RootExactly | pkg/controller/rule/collector_rule_controller.go:345-355 | the words true and false become flags, every other text stays; clean_removed is the program's own |
| Filebeat.BuildLogConfig | pkg/adapter/filebeat/filebeat.go:104-196 | the whole entry of a model; the rule's own fields win over the descriptive ones, format is taken out, and whatever the root configurations say, clean_removed is false if and only if a found path is on a claim |
| Filebeat.EntryDecided | pkg/adapter/filebeat/filebeat.go:104-196 | an entry is decided by its model, its mounts and the view of the pod, but for options that two keys set |
| Filebeat.AddFields | pkg/adapter/filebeat/filebeat.go:173-180 | a field of the rule wins over a descriptive one of the same name |
| Filebeat.DescribedExactly | pkg/adapter/filebeat/filebeat.go:112-127 | each descriptive field with what of the pod, the container and the rule it holds, and no others |
| Filebeat.FindTargetResource | pkg/adapter/filebeat/filebeat.go:212-232 | the last owner decides; a replica set stands for the deployment named before its last dash, and without a dash keeps the name an earlier owner gave |
| Filebeat.ResourceExactly | pkg/adapter/filebeat/filebeat.go:212-232 | the resource by the last owner, case by case |
| Filebeat.LastIndex | pkg/adapter/filebeat/filebeat.go:219 | the last position of a character, or -1 |
| Filebeat.HostDirsExactly | pkg/adapter/filebeat/filebeat.go:146-172 | with or without collisions: a file is listed under a host directory if and only if it is one of the last mount that lists files there |
| Filebeat.HostDirsHold | pkg/adapter/filebeat/filebeat.go:146-172 | without collisions every mount's files are listed and nothing else is |
| Filebeat.LastMountDecides | pkg/adapter/filebeat/filebeat.go:148-158 | of several mounts with one host directory the last decides its files |
| LogPipeline.EndToEnd | pkg/adapter/filebeat/filebeat.go:131-172 | when the directories of all paths agree and have sources of their own: a file pattern is listed under a host directory if and only if a log path with a source wants it there |
| LogPipeline.PathIsListed | pkg/adapter/filebeat/filebeat.go:148-170 | under the same conditions, each log path with a source has its pattern under that source, with all others of its directory |
| LogPipeline.NothingElse | pkg/adapter/filebeat/filebeat.go:148-170 | for every list of paths: each host directory is that of the mount found for some path |
| LogPipeline.PathTranslation | pkg/utils/mount.go:277-316 | when the two computations agree on an absolute directory, its source is base, host path and rest, where the directory is container path and rest, for the deepest mount |
| LogPipeline.MountsOfExactly | pkg/utils/mount.go:259-317 | the mounts found are those of the log paths with a source, no more and no fewer |
| LogPipeline.ClaimProtectionExactly | pkg/adapter/filebeat/filebeat.go:146-162 | for absolute directories and claims: protection is on if and only if a directory with a source, looked up for one path and the substituted parent of one, is at or below a claim, bar names that begin with two dots |
| LogPipeline.ClaimProtection | pkg/controller/rule/collector_rule_controller.go:286-301 | when the two computations agree: if and only if a looked-up directory with a source is at or below a claim, bar such names |
| LogPipeline.UnderExactly | pkg/controller/rule/collector_rule_controller.go:289-298 | on absolute paths, setIfPVC's prefix test accepts exactly the directories at or below the claim, bar such names |
| LogPipeline.DottedNameEscapes | pkg/controller/rule/collector_rule_controller.go:294-296 | a directory below a claim that the test takes for one outside |
| LogPipeline.ListedExactly | pkg/adapter/filebeat/filebeat.go:131-172 | for every list of paths: a file is listed under a host directory if and only if it is among the files of the last mount found that lists any there |
| LogPipeline.ListedWithoutCollisions | pkg/adapter/filebeat/filebeat.go:131-172 | when mounts with one host directory list the same files in it: if and only if the mount found for some path is for it and has the file among its files |
| LogPipeline.DroppedUnlessKept | pkg/adapter/filebeat/filebeat.go:131-172 | for every list of paths: the file of a log path with a source is listed under it if and only if the last mount that lists files there is for stdout with that file, or for the substituted parent of a path with the same file name |
| LogPipeline.DroppedUnlessRescued | pkg/adapter/filebeat/filebeat.go:157-162 | without collisions and apart from the directory of stdout: if and only if some path with the same source has a directory that is the substituted parent of a path with the same file name |
| LogPipeline.DroppedUnlessAgreed | pkg/adapter/filebeat/filebeat.go:157-162 | when each directory has a source of its own: if and only if its own directory is the substituted parent of a path with the same file name, as it is of itself if and only if the two computations agree |
| LogPipeline.CollisionRescues | pkg/adapter/filebeat/filebeat.go:157-162 | a rule with the value /v/ in which a path is listed although its directory is the parent of no path |
| LogPipeline.DroppedAlone | pkg/adapter/filebeat/filebeat.go:157-162 | a single log path with a source gives a host directory if and only if the two computations agree |
| LogPipeline.EndToEndConsistent | pkg/adapter/filebeat/filebeat.go:148-162 | when all directories agree and have sources of their own, no host directory is given two different lists |
| LogPipeline.GetPVCPath | pkg/controller/rule/collector_rule_controller.go:265-284 | exactly the mount paths of claims in containers of the name |
| LogPipeline.ClaimPathsExactly | pkg/controller/rule/collector_rule_controller.go:265-284 | a path is a claim's if and only if a container of the name mounts there a volume that names a claim |
| LogPipeline.SetIfPVC | pkg/controller/rule/collector_rule_controller.go:286-301 | marks in place exactly the mounts on a claim |
| SharedModels.SharedEqualsCopies | pkg/controller/rule/collector_rule_controller.go:246-257 | if every variable a rule uses has one final value in all its containers and the two computations of directories agree, each model ends with the paths, fields and mounts its own copy of the rule would give |
| SharedModels.SharedExactly | pkg/controller/rule/collector_rule_controller.go:246-257 | for a rule with any number of containers that agree on its variables and have writable layers, and file names that lead back to their directories: all models have the mounts of their own copies if and only if there is no second container or the two computations agree for every path |
| SharedModels.FirstContainerDecides | pkg/controller/rule/collector_rule_controller.go:246-257 | when what the first container substitutes is final, all models end with its paths and fields, and another one has the mounts of its own copy if and only if the first one's paths give them |
| SharedModels.ResolvedIsFinal | pkg/utils/utils.go:36-48 | it is final for all others, whatever they hold, when it has a value without references for every reference |
| SharedModels.FinalPath | pkg/utils/mount.go:267-270 | the next container leaves such a path alone and looks up its parent, for which the two computations agree |
| SharedModels.StableEntry | pkg/adapter/filebeat/filebeat.go:104-196 | such a container's entry is the one its own copy of the rule would give |
| SharedModels.NextContainerDestination | pkg/utils/mount.go:268-270 | the next container looks up the directory of its own copy if and only if the two computations agree |
| SharedModels.NextContainerMount | pkg/utils/mount.go:268-316 | for one path it finds the mounts of its own copy if and only if they agree or neither directory has a source |
| SharedModels.NextContainerMounts | pkg/utils/mount.go:259-317 | for any number of paths whose file names lead back to their directory, it finds the mounts of its own copy if and only if for each they agree, or its own directory has no source and the other one none or a mount found anyway |
| SharedModels.NextContainerMountsInOrder | pkg/utils/mount.go:259-317 | with a writable layer it finds the same list if and only if they agree for every path |
| SharedModels.ViewDecides | pkg/controller/rule/collector_rule_controller.go:324-377 | models and claims depend on nothing of the pod but the view that a file's content is a term of |
| Rules.ViewExactly | pkg/controller/rule/collector_rule_controller.go:324-377 | what is read of a pod, field by field |
| SharedModels.UncleanValueSplitsContainers | pkg/utils/mount.go:268-270 | with the value /v/ two containers that agree on everything look up different directories |
| SharedModels.SettledPath | pkg/utils/utils.go:34-52 | one container's substitution is final for the others |
| SharedModels.ParseRule | pkg/controller/rule/collector_rule_controller.go:324-377 | one model object for each rule and container, those of a rule with the same slice and map, those of different rules with different ones |
| SharedModels.AddContainerRule | pkg/controller/rule/collector_rule_controller.go:326-375 | the models of one container rule |
| SharedModels.AddUnit | pkg/controller/rule/collector_rule_controller.go:328-374 | a new slice and a new map for each collection rule |
| SharedModels.AddModels | pkg/controller/rule/collector_rule_controller.go:360-373 | the copies for the containers keep the slice and the map |
| SharedModels.NewSlice | pkg/controller/rule/collector_rule_controller.go:331-336 | the rule's paths, and stdout last if wanted |
| SharedModels.UnitsExactly | pkg/controller/rule/collector_rule_controller.go:326-372 | the rules of all container rules, for the named containers or else all of the pod |
| SharedModels.UnitAt | pkg/controller/rule/collector_rule_controller.go:326-372 | each rule of each container rule, in order, for the named containers or else all of the pod in order |
| SharedModels.StubAt | pkg/controller/rule/collector_rule_controller.go:360-373 | each container of each rule, in order |
| SharedModels.InitialExactly | pkg/controller/rule/collector_rule_controller.go:331-336 | the paths of the rule in order, and stdout behind them if wanted |
| SharedModels.StubsExactly | pkg/controller/rule/collector_rule_controller.go:360-373 | a model for a rule and a container if and only if the rule is for that container |
| SharedModels.StubCount | pkg/controller/rule/collector_rule_controller.go:360-373 | as many models as the rules have containers in all |
| SharedModels.StreamIdsDistinct | pkg/adapter/filebeat/filebeat.go:107-109 | with different rule UIDs of one length and no repeated container, no two entries have the same stream id |
| SharedModels.Prepare | pkg/controller/rule/collector_rule_controller.go:246-257 | the loop over the models: the shared slices and maps pass through all containers in order; an unknown container ends it |
| SharedModels.PrepareNext | pkg/controller/rule/collector_rule_controller.go:247-254 | one turn of it |
| SharedModels.FindNext | pkg/utils/mount.go:198-319 | writes only into the slice and map of the model's own rule |
| SharedModels.PrepareOne | pkg/controller/rule/collector_rule_controller.go:247-253 | FindMount, then the claim marks, for one model |
| SharedModels.NewInput | pkg/controller/rule/collector_rule_controller.go:242-263 | an entry for each model, or an error if and only if the runtime lacks a container |
| SharedModels.BuildEntries | pkg/adapter/filebeat/filebeat.go:107-196 | every entry is built from the paths as all models of the rule have left them |
| SharedModels.EntryOf | pkg/adapter/filebeat/filebeat.go:107-196 | the entry of one model, from its slice, map and mounts as they are |
| ConfigFiles.DeletedByPattern | pkg/adapter/filebeat/filebeat.go:318-324 | for all rule names: the pattern of a pod and a rule takes that file, files of the pod whose rule begins with the rule and .yml, files whose rule holds the whole pattern, and no others |
| ConfigFiles.KeptExactly | pkg/adapter/filebeat/filebeat.go:322-331 | a deletion takes exactly the files of the directory with the pattern somewhere in their names |
| Strings.ContainsExactly | pkg/adapter/filebeat/filebeat.go:324 | a string contains a pattern if and only if it is the pattern between two others |
| ConfigFiles.DeletedByUid | pkg/adapter/filebeat/filebeat.go:318-324 | the pattern of a pod takes exactly its files and those whose rule name holds its UID |
| ConfigFiles.DeletionIsExact | pkg/adapter/filebeat/filebeat.go:318-330 | for a stored rule name without .yml behind its first character and without a pod UID before -by- and more, the pattern of a pod and a named rule takes the file if and only if it is that of the pod and the rule |
| ConfigFiles.ExactForSafe | pkg/adapter/filebeat/filebeat.go:318-330 | deletion is exact for a stored rule name if and only if it is such a name |
| ConfigFiles.DottedRuleIsTaken | pkg/adapter/filebeat/filebeat.go:318-324 | rule a takes the file of rule a.yml |
| ConfigFiles.UidPosition | pkg/adapter/filebeat/filebeat.go:324 | a UID in a file name is the pod's own or stands in the rule name |
| ConfigFiles.PodFileInjective | pkg/adapter/filebeat/filebeat.go:569-573 | different pods or rules have different files |
| ConfigFiles.HostDeletionIsExact | pkg/adapter/filebeat/filebeat.go:349-352 | for host rule names without -by-, .yml or a leading by- deletion is exact, whatever the node is called |
| ConfigFiles.HostExactForSafe | pkg/adapter/filebeat/filebeat.go:349-352 | deletion is exact on all nodes for a host rule name if and only if it is such a name |
| ConfigFiles.ByPrefixIsTaken | pkg/adapter/filebeat/filebeat.go:349-352 | on node y, rule r takes the file of rule by-r |
| ConfigFiles.ConfigStore.DeleteMatching | pkg/adapter/filebeat/filebeat.go:322-331 | the loop removes exactly the files of the directory whose names contain the pattern |
| ConfigFiles.ConfigStore.DeleteConfig | pkg/adapter/filebeat/filebeat.go:303-332 | the pattern is the rule's file of the pod, or without a rule the pod's UID |
| ConfigFiles.ConfigStore.DeleteConfigForHost | pkg/adapter/filebeat/filebeat.go:334-359 | the same for a node |
| ConfigFiles.ConfigStore.Write | pkg/adapter/filebeat/filebeat.go:569-579 | exactly the one file is written |

## Left out

- RuleController.ApiServer.Get: a read may return any copy of the rule, so nothing is said about how fresh it is, and a failed read is one that finds no rule, since both change nothing; the theorems that need the server's own copy name it.
- RuleController.Reconciler.NewInput: the file's content is a free term of the rules and the view of the pod. SharedModels.ViewDecides and Filebeat.EntryDecided say that the entries depend on nothing else, given what the runtime tells of the containers; rendering the template and printing YAML lie between the entries and the file.
- RuleController.NoSelfTriggering: speaks of undisturbed passes; a conflict or a failure is retried by the work queue, which is not part of this model.
- HostRule.Reconciler.Reconcile: a failed read, which changes nothing, is one that finds no rule; a failed read of the directory, with which the program returns an error, is not modelled.
- PodRuns.NodeRunInStep: a pass and an event happen one after the other, each on one list of pods; in the program only the writing or deleting of one file excludes the other, so a pass may see a pod change halfway.
- Filebeat.SplitRoot: when two keys set the same parser option either may win, since Go visits a map in no fixed order.
- UidProtocol.NodesAgree: is for a specification nobody edits; an edit that overwrites a UID changes it.
- YamlHeap.MergeDuplicateKeys: is for trees without sharing and with as many values as keys; alias nodes are leaves, comments and styles are not modelled, and a key is its text.
- The Docker runtime's FindMount (pkg/utils/mount.go:94-189): the same walk over another list of mounts, with its own file for stdout.
- Calls to containerd and Docker, the cache of writable layers, and finding a container's ID: a container's variables, mounts, writable layer and log file are inputs.
- Init containers as log sources: a model's container is looked up by name in one table for both kinds.
- NewConfigForHost and the host rule's path joining (pkg/adapter/filebeat/filebeat.go:234-301): the same grouping without mounts.
- Creating and inspecting the directories of configuration files, and a namespace and a node of the same name sharing one.
- Reflective equality of specifications tells a missing list from an empty one; the model does not.
- The annotation of a rule that names a global configuration, which nothing reads.
- Cleanup on other nodes once one node has removed the shared finalizer: the program does not promise it.
- Starting and watching Filebeat, the watcher that is never started, the annotation controllers that are switched off, generated clients, charts and logging.
