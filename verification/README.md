# Keeping MySQL and OpenStack in step

The service stores projects, servers, volumes, network interfaces, floating IPs and security groups in
MySQL, and mirrors every change to Keystone, Nova, Neutron and Cinder. There is no transaction across
the two. What holds them together is a small set of mechanisms: a log of compensating calls, optimistic
locking with retries, polling loops, and a database session kept in a context variable. This project
models those mechanisms and the service operations built on them, and proves what they guarantee - and
where they do not.

Everything outside the service is an oracle: a remote call answers or raises - also one made by a
compensating task -, a commit succeeds, raises or finds a stale version, a poll returns any status or
raises. The theorems hold for every choice of the oracle, every list length, every completion order and,
where requests run side by side, every interleaving. Where a result needs compensating calls to get
through, its contract says which.

| File | About |
|---|---|
| `Compensation.dfy` | the compensation log and the general saga theorem |
| `SecurityGroupRules.dfy` | rule records, the reconciliation diff, grouping for the list view |
| `SecurityGroupUpdate.dfy` | one security-group update: rename, gathered deletes, bulk creation, commit, retries, rollback |
| `SecurityGroupOutcomes.dfy` | what such a request leaves in Neutron, exactly |
| `SecurityGroupEndings.dfy` | when such a request succeeds and which error it ends in; whose rules it leaves |
| `SecurityGroupRace.dfy` | any number of such requests on one group, interleaved |
| `SecurityGroupRuns.dfy` | building runs of these requests |
| `SecurityGroupPair.dfy` | two requests, whatever they want: exactly what they can leave behind |
| `SecurityGroupMany.dfy` | any number of requests: which rules can survive and which can vanish |
| `SecurityGroupAttempts.dfy` | how often such requests have to start over |
| `SecurityGroupAlone.dfy` | a request alone in the interleaved model is one try of the saga |
| `ProjectRename.dfy` | the flush-first counterpart, alone and interleaved |
| `AmbientSession.dfy` | trees of `@transactional` and repository calls |
| `Volumes.dfy`, `Networking.dfy` | the entities and their guards |
| `Polling.dfy`, `PollingOutcomes.dfy` | the polling loops, the one specification they refine, and what each comes to, status by status |
| `VolumeSessions.dfy` | detaching, attaching and resizing through the sessions they really run in |
| `ServerCreation.dfy` | port, server, rows, and the order of compensation |
| `TwoStores.dfy` | project membership and floating IPs across both stores |
| `ServerDeletion.dfy` | the removal that starts a server deletion |
| `Lifecycle.dfy`, `LifecycleRuns.dfy` | all resources over whole runs; the deletion cascade |
| `LifecycleRows.dfy` | where rows come from and whose they are |
| `Overlaps.dfy` | a transaction that looks up, calls OpenStack and commits, overlapped by any run of others |
| `Options.dfy`, `Sequences.dfy` | the optional value; lists without repetition |

## Where the code and its intent part

The code is modelled as written. For each of these there is a theorem about what the code does and one
about the condition, or the change, under which it does what was meant.

* The task registered for each created rule looks the loop variable up when it is called, so all of them
  delete the last rule (`common/application/security_group/service.py:258-264`). A failed request that
  had created n rules leaves the first n-1 (`RulesRestoredIff`, `LoopVariableLeak`); a per-iteration
  binding restores for every n.
* `asyncio.gather` passes on any exception that is not an `OpenStackException` while the other deletes
  are still running; their tasks are registered after the rollback has begun
  (`common/application/security_group/service.py:351-376`, `LateDeleteLeak`).
* Leaving any `@transactional` call clears the ambient session, also when the call had only joined it
  (`common/infrastructure/database.py:73-74`). A detachment reported as successful therefore commits
  the status DETACHING without a server (`DetachVolumeFromServer`); with one session it commits AVAILABLE.
  Attaching has no outer transaction and commits what it means to (`AttachVolumeToServer`).
* The resized volume object belongs to a session that is closed, so a successful resize commits nothing
  (`common/application/volume/service.py:186-205`, `UpdateVolumeSize`); re-reading the row repairs it.
* The version check runs only if the row is changed. Requests that want different names or descriptions,
  none of them the row's own, always change it, and linearize (`DistinctWantsLinearize`). Two requests
  can both succeed and mix their rules exactly if one of them wants the row's own name and description,
  and either neither wants all that the other wants, or they differ in two contents or more of which one
  exists (`PairMixesIff`). Among any number, a content can survive exactly if somebody wants it, and
  vanish exactly if somebody does not (`ContentFateIff`).
* The compensating rename of a project runs after its row has been released. Keystone ends with the
  committed name exactly if the last write to it was never made, was a rename that got committed, or
  restored a row that is still the committed one (`KeystoneMatchesIff`, `CompensationOvertaken`).
* The removal that a server deletion begins with iterates over `Server._linked_volumes` while
  `detach_from_server` assigns `_server`, which takes the volume out of that very list
  (`common/application/server/service.py:573-576`, `common/domain/server/entity.py:30`,
  `common/domain/volume/entity.py:46`). It visits every second volume and leaves the others linked, with
  their status, to a server that becomes DELETED; so it frees all of them exactly if there is at most one
  (`SkippedIff`, `RemovalFreesIff`, `SkippedInDeletion`, `SecondVolumeStays`). Over a copy of the list it
  frees all. Every theorem about removals holds for both iterations.
* Between the two halves of a server deletion a volume can still be attached. A deletion frees every
  volume exactly if every volume that the removal skipped is detached by somebody, and no transaction
  after the removal really links one without a later one unlinking it (`Cascade`, `CascadeFreesIff`);
  otherwise the volume stays linked to the deleted server (`AttachedDuringDeletion`).
* The compensating tasks of attaching and detaching a floating IP read its id from the entity when they are
  called (`common/application/network_interface/service.py:51-56`, `82-88`). By then the failed
  transaction has been rolled back, which expires the entity, and its session is closed, so the task
  raises and is swallowed: a failed commit always leaves Neutron alone changed (`AgreementKeptIff`,
  `StrandedAttachment`). All other tasks captured their ids before.
* `delete_volume` checks the row, waits for Cinder and then writes only `deleted_at`
  (`common/application/volume/service.py:217-249`). The check holds up to the commit exactly if no
  transaction in between spoils it (`StillDeletableIff`), and what is deleted may by then be linked
  (`DeletedWhileLinkedIff`, `AttachedDuringVolumeDeletion`).
* Attaching a floating IP, creating a server and writing a status commit what they looked up earlier. They
  leave consistent tables exactly if nothing in between deletes what they refer to
  (`AttachmentOverlapIff`, `CreationOverlapIff`, `StatusOverlapIff`).
* A volume creation that never settles is documented to raise a `TimeoutError`; the code marks the
  volume ERROR and returns (`common/application/volume/service.py:116-154`). The model follows the code.

## Model

| member | source | states |
|---|---|---|
| Compensation.CompensationManager.AddTask | common/util/compensating_transaction.py:13-14 | the log grows at its end |
| Compensation.CompensationManager.Rollback | common/util/compensating_transaction.py:16-24 | every registered task is called exactly once, newest first; the state is unwound by those whose calls get through, and one that raises stops no other |
| Compensation.UnwindConcat | common/util/compensating_transaction.py:16-24 | unwinding a log is unwinding its newer part, then its older part |
| Compensation.SagaRestores | common/util/compensating_transaction.py:9-34 | steps that each register their exact inverse: whatever the failure point, unwinding ends in the state before the saga |
| Compensation.CompensatingScope | common/util/compensating_transaction.py:27-34 | on failure exactly the registered tasks were called, and if all get through the initial state is back; on success none was called |
| SecurityGroupRules.Surplus | common/application/security_group/service.py:305-311 | the listed rules whose content nobody asked for, and only those |
| SecurityGroupRules.Kept | common/application/security_group/service.py:305-311 | the listed rules whose content was asked for, and only those |
| SecurityGroupRules.Missing | common/application/security_group/service.py:313-319 | the requested contents no listed rule has, and only those |
| SecurityGroupRules.SplitExisting | common/application/security_group/service.py:305-311 | the loop computes the surplus and the kept rules in listed order |
| SecurityGroupRules.SelectMissing | common/application/security_group/service.py:313-319 | the comparison through converted records computes the missing contents, repetitions included |
| SecurityGroupRules.SurplusGoneIsKept | common/application/security_group/service.py:305-330 | deleting the surplus leaves exactly the kept rules, in order and with their ids |
| SecurityGroupRules.WithoutBatch | common/application/security_group/service.py:344-376 | deleting distinct rules takes exactly their contents out of the multiset |
| SecurityGroupRules.Reconciled | common/application/security_group/service.py:293-342 | after the diff is applied the set of contents is the requested one, a rule keeps its id exactly if its content is requested, nothing is both deleted and created, and a second diff is empty |
| SecurityGroupRules.InStep | common/application/security_group/service.py:321-322 | a list with the requested set of contents gives the diff nothing to do |
| SecurityGroupRules.GroupRules | common/application/security_group/service.py:61-71 | one pass over the rules gives each group exactly its rules in listed order |
| SecurityGroupRules.GroupingConserves | common/application/security_group/service.py:61-71 | over distinct groups the response shows the rules of listed groups, each as often as Neutron did |
| SecurityGroupRules.SurplusAt | common/application/security_group/service.py:305-311 | a surplus rule stands where the number of surplus rules listed before it says: listed order |
| SecurityGroupRules.KeptAt | common/application/security_group/service.py:305-311 | likewise a kept rule |
| SecurityGroupRules.MissingAt | common/application/security_group/service.py:313-319 | likewise a missing content, in requested order |
| SecurityGroupRules.OfGroupAt | common/application/security_group/service.py:61-71 | likewise a rule in its group's list |
| SecurityGroupUpdate.ScheduleIsPermutation | common/application/security_group/service.py:375-376 | every completion order handles every pending delete |
| SecurityGroupUpdate.ScheduleKeepsDistinct | common/application/security_group/service.py:375-376 | and each of them only once |
| SecurityGroupUpdate.DeleteSecurityGroupRules | common/application/security_group/service.py:344-381 | which rules are gone, which tasks were registered and in which order, which deletes come too late, and when the phase raises |
| SecurityGroupUpdate.CreateSecurityGroupRules | common/application/security_group/service.py:246-265 | n rules are created and n tasks registered that all look up the one loop variable, left at the last rule |
| SecurityGroupUpdate.UpdateSecurityGroupInfo | common/application/security_group/service.py:267-291 | the row is changed always, Neutron only for a new name, and the old name is what the task restores |
| SecurityGroupUpdate.UpdateSecurityGroupRules | common/application/security_group/service.py:293-342 | the phase as one function of the listed rules, the request and the oracle |
| SecurityGroupUpdate.SecurityGroup.UpdateInfo | common/domain/security_group/entity.py:71-73 | name and description are assigned, the version is not |
| SecurityGroupUpdate.Commit | common/domain/security_group/entity.py:23-38 | the version is compared and moved only for a changed row |
| SecurityGroupUpdate.UpdateSecurityGroupDetail | common/application/security_group/service.py:178-218 | one try: guards before any remote work, then rename, rules and commit, with every early exit |
| SecurityGroupUpdate.HandleUpdate | api_server/router/security_group/router.py:103-112 | up to three tries share one log; a success calls no task, a failure calls every task of all tries once |
| SecurityGroupOutcomes.UnwindRecreations | common/application/security_group/service.py:357-370 | the tasks of the delete phase bring back the multiset of contents |
| SecurityGroupOutcomes.UnwindSharedCreation | common/application/security_group/service.py:258-264 | the tasks of the create phase as written: one that gets through is as good as all, the last rule goes and the first n-1 stay; if none does, all n stay |
| SecurityGroupOutcomes.UnwindBoundCreation | common/application/security_group/service.py:258-264 | bound per iteration, exactly the rules whose calls do not get through stay, for every n |
| SecurityGroupOutcomes.PhaseUnwinds | common/application/security_group/service.py:293-381 | unwinding a rule phase, wherever it stopped and whichever calls get through, restores the multiset of contents but for late deletes, contents not recreated and created contents not taken back |
| SecurityGroupOutcomes.PhaseReconciles | common/application/security_group/service.py:293-342 | a phase that raises nothing leaves the requested set of contents and returns what is there |
| SecurityGroupOutcomes.StaleTryIsReconciled | common/application/security_group/service.py:178-218 | a stale version surfaces only at the commit, when Neutron already has the requested rules |
| SecurityGroupOutcomes.LaterTriesOnlyRename | common/application/security_group/service.py:178-218 | the tries after it mutate no rule and register nothing but renames |
| SecurityGroupOutcomes.FailedRequest | common/application/security_group/service.py:178-381 | the exact name and multiset of contents after a failed request, over all tries and every subset of compensating calls that fail |
| SecurityGroupOutcomes.RulesRestoredIff | common/application/security_group/service.py:246-265 | a failed request restores the rules exactly when, in its first try, no delete succeeds after the gather has given up, every recreation gets through, and - as written - at most one rule is created and its deletion gets through |
| SecurityGroupOutcomes.DeletedLateIff | common/application/security_group/service.py:375-376 | rules are lost to late deletes exactly when some delete succeeds past the point of the completion order at which the rollback can start |
| SecurityGroupOutcomes.NameRestoredIff | common/application/security_group/service.py:267-291 | if the rows it read carried Neutron's name, a failed request restores it exactly when its first try does not rename, or its restoring call gets through, or that try meets a stale row and the call of a later try, at a position fixed by the listed rules, gets through |
| SecurityGroupOutcomes.SuccessfulRequest | common/application/security_group/service.py:178-218 | a success, at whichever try, leaves the requested contents, name and row, and the response lists what is there |
| SecurityGroupOutcomes.LoopVariableLeak | common/application/security_group/service.py:258-264 | a concrete failed request that leaves a rule behind |
| SecurityGroupOutcomes.LateDeleteLeak | common/application/security_group/service.py:351-376 | a concrete failed request that loses a rule |
| SecurityGroupEndings.GatherErrorIff | common/application/security_group/service.py:371-381 | the gathered deletes raise nothing exactly if all succeed, the transport error exactly if one breaks, and the deletion error exactly if one is refused and none breaks |
| SecurityGroupEndings.TryEnds | common/application/security_group/service.py:178-218 | for every world and oracle: exactly when one try returns and with which row, when it meets a newer version, and exactly when it ends in each of the seven errors |
| SecurityGroupEndings.RequestEnds | api_server/router/security_group/router.py:103-112 | a request ends as its first try that does not meet a newer version, or else as its last |
| SecurityGroupEndings.RequestSucceedsIff | common/application/security_group/service.py:178 | a request succeeds exactly if one of its three tries does and all before it met a newer version, told from the plans and the listed rules |
| SecurityGroupEndings.RequestKeepsGroup | common/application/security_group/service.py:246-265 | however a request ends and whichever compensating calls get through, all rules - created and recreated ones too - belong to the group, under distinct ids, and so do those of the response |
| SecurityGroupRace.StepKeepsInv | common/application/security_group/service.py:178-218 | every step of every interleaving keeps what is known of names, rows, rules and commit order |
| SecurityGroupRace.RunKeepsInv | common/application/security_group/service.py:178-218 | so does every run |
| SecurityGroupRace.Linearization | common/application/security_group/service.py:178-218 | if all requests end by committing a changed row, both stores end as after a serial execution in commit order: name, rules and row are the last committer's |
| SecurityGroupRace.RunChanges | common/domain/security_group/entity.py:38 | if the wanted names and descriptions differ from each other and from the row's, no attempt of any run commits an unchanged row |
| SecurityGroupRace.DistinctWantsLinearize | common/application/security_group/service.py:178-218 | such requests linearize in every interleaving in which all of them succeed |
| SecurityGroupRace.NamesMidRun | common/application/security_group/service.py:275-291 | mid-run, Neutron's name is the committed one or one that an unfinished request wants |
| SecurityGroupPair.MixableIff | common/application/security_group/service.py:305-319 | among all blends of two wanted sets over the existing contents, one differs from both exactly if neither contains the other, or they differ in two contents or more of which one exists |
| SecurityGroupPair.StepKeepsPair | common/application/security_group/service.py:178-218 | if one of two requests wants the row's own name and description, every step keeps what is known of the row, of who listed what, who deleted what and what is new |
| SecurityGroupPair.NeverStale | common/domain/security_group/entity.py:38 | then no commit of either ever finds a newer version |
| SecurityGroupPair.PairOutcomes | common/application/security_group/service.py:178-218 | every interleaving in which both succeed leaves the contents one of them wants, or a blend |
| SecurityGroupPair.BlendHappens | common/application/security_group/service.py:178-218 | every blend is what some interleaving leaves |
| SecurityGroupPair.RivalsNeverMix | common/application/security_group/service.py:178-218 | if both change the row, every interleaving in which both succeed leaves the contents that one of them wants |
| SecurityGroupPair.PairMixesIff | common/domain/security_group/entity.py:38 | exactly when two requests, whatever they want, can both succeed with contents that neither wants |
| SecurityGroupPair.UnchangedRowsRace | common/domain/security_group/entity.py:38 | an instance: two requests for one rule each, side by side from an empty group, leave both rules |
| SecurityGroupMany.FatesBounded | common/application/security_group/service.py:293-342 | in every interleaving of any number of requests in which all succeed, retries included, what everybody wants is there and what nobody wants is not |
| SecurityGroupMany.SerialRun | common/application/security_group/service.py:178-218 | there is a run in which all succeed and any given request has the last word |
| SecurityGroupMany.ContentFateIff | common/application/security_group/service.py:293-342 | a content can be there afterwards exactly if some request wants it, and missing exactly if some request does not |
| SecurityGroupAttempts.OutOfAttemptsIff | common/application/security_group/service.py:178 | at the end of any run, a commit fails for good exactly if it is the third attempt and finds a newer version, and then three other requests have committed since; the first two attempts start over |
| SecurityGroupAttempts.ThreeNeverRunOut | common/application/security_group/service.py:178 | of three concurrent requests none fails because its row is stale |
| SecurityGroupAlone.AloneIsOneTry | common/application/security_group/service.py:178-218 | the serial specification of the interleaved model is what one successful try of the saga does |
| ProjectRename.TryUpdate | common/application/project/service.py:81-120 | one try as a function of its oracle: rejected, stale without a trace, refused, renamed and committed, or renamed and failed |
| ProjectRename.StaleTriesVanish | common/application/project/service.py:81-82 | a request is its first try that does not find its row stale |
| ProjectRename.RenameSucceedsIff | common/application/project/service.py:81-120 | a request succeeds exactly if in one of its three tries the project is found, the requester a member, the name free and other than the project's own, the row current, and Keystone and the commit get through, and all before it found a newer row |
| ProjectRename.UpdateProject | common/application/project/service.py:81-120 | success exactly if that try is admitted, renames and commits; a failed request calls at most one task and puts back the name of the row that try had read, if Keystone answers |
| ProjectRename.StepKeepsInv | common/application/project/service.py:81-120 | lock discipline, commit history, remembered rows and the meaning of the last Keystone write are kept by every step |
| ProjectRename.RunKeepsInv | common/application/project/service.py:81-120 | and by every run |
| ProjectRename.KeystoneMatchesIff | common/application/project/service.py:103-118 | over every run, at rest: Keystone has the committed name if the last write put it there - and, if no name is used twice, only then: a compensation breaks the match exactly when the row has moved on |
| ProjectRename.RowIsLastCommit | common/infrastructure/project/repository.py:81-84 | the row is the last committer's, one version per commit |
| ProjectRename.RenamesAreCommits | common/infrastructure/project/repository.py:81-84 | with no failure after a rename, Keystone was written exactly once per commit, in commit order |
| ProjectRename.CompensationOvertaken | common/application/project/service.py:112-118 | a run in which a late compensation leaves Keystone with a name no row has, as an instance of that condition |
| ProjectRename.OutOfAttemptsIff | common/application/project/service.py:81 | a flush fails for good exactly in the third attempt on a newer version, and then three other requests have committed; otherwise it locks the row or starts over |
| AmbientSession.Database.Enter | common/infrastructure/database.py:29-38 | a call joins the ambient session or opens its own |
| AmbientSession.Database.Leave | common/infrastructure/database.py:39-47 | only the owner commits or rolls back, and closes |
| AmbientSession.Database.RunAndReset | common/infrastructure/database.py:64-74 | the ambient variable is cleared on every exit, whoever owns the session |
| AmbientSession.Database.Query | common/infrastructure/database.py:29-47 | a repository call preserves the ambient session and writes into it, or commits alone |
| AmbientSession.Database.Invoke | common/infrastructure/database.py:29-76 | running any call tree against the variable does what the recursive specification says, which has no variable |
| AmbientSession.RepositoriesShare | common/infrastructure/database.py:29-47 | repository calls leave the session to what follows them |
| AmbientSession.AllOrNothing | common/infrastructure/database.py:50-76 | a transactional body of repository calls uses one session and is all or nothing |
| AmbientSession.SiblingsCommitFirst | common/infrastructure/database.py:64-74 | only the first nested call shares its parent's session; all later calls commit before it and survive its failure |
| AmbientSession.RaisedIff | common/infrastructure/database.py:64-74 | an exception anywhere in a call tree reaches the top |
| AmbientSession.InTurn | common/infrastructure/database.py:29-47 | calls on their own commit in the order in which they are made |
| AmbientSession.NothingAfterRaise | common/infrastructure/database.py:64-74 | what stands after the first call that raises is not called, on its own or in a session |
| AmbientSession.RaisingChildEndsParent | common/infrastructure/database.py:40-47 | so the parent raises, and what is committed is only what earlier calls, and the raising one, committed on their own |
| AmbientSession.ThirdSiblingNotCalled | common/infrastructure/database.py:64-74 | an instance: of three siblings the second raises, and only the first's write is committed |
| AmbientSession.NoWriteLost | common/infrastructure/database.py:29-76 | if nothing raises, every write is committed exactly once |
| AmbientSession.SessionsAreLeaves | common/infrastructure/database.py:29-76 | the number of sessions opened is the number of leaf calls plus the repository calls made adrift |
| Volumes.Volume.PrepareForAttachment | common/domain/volume/entity.py:117-140 | the guard and its effect, or no effect |
| Volumes.Volume.AttachToServer | common/domain/volume/entity.py:148-151 | the guard and its effect, or no effect |
| Volumes.Volume.PrepareForDetachment | common/domain/volume/entity.py:162-173 | not attached, root volume, or DETACHING |
| Volumes.Volume.DetachFromServer | common/domain/volume/entity.py:153-156 | no server, and AVAILABLE |
| Volumes.Volume.Resize | common/domain/volume/entity.py:111-130 | only an AVAILABLE volume grows, strictly |
| Networking.FloatingIp.AttachToNetworkInterface | common/domain/floating_ip/entity.py:68-73 | refused if attached, otherwise up and on the interface |
| Networking.FloatingIp.DetachFromNetworkInterface | common/domain/floating_ip/entity.py:75-78 | down and on none |
| Networking.FloatingIpGuards | common/domain/floating_ip/entity.py:62-66 | only a floating IP on no interface that is not deleted can be deleted, and which error says why not |
| Networking.NetworkInterface.AddSecurityGroups | common/domain/network_interface/entity.py:63-73 | one link row per group, after the existing ones |
| Networking.NetworkInterface.Delete | common/domain/network_interface/entity.py:75-78 | no link rows, and soft-deleted |
| Polling.Settles | common/application/server/service.py:358-383 | the first observation that is not transient among the first max, or max |
| Polling.SettlesUnique | common/application/server/service.py:358-383 | two facts identify that index, so each loop's invariants do |
| Polling.EffortBounded | common/application/server/service.py:358-359 | polls are min(index + 1, max), and sleep is at most max intervals |
| Polling.FirstOtherExists | common/application/server/service.py:358-383 | among the first max polls there is a first that shows none of the waited-out values, or a timeout |
| Polling.WaitUntilServerStarted | common/application/server/service.py:353-383 | result, committed status, polls and sleep from the deciding observation |
| Polling.WaitUntilServerStopped | common/application/server/service.py:385-414 | the same for stopping |
| Polling.FinalizeServerCreation | common/application/server/service.py:416-474 | active with a linked AVAILABLE root volume, or failed, or raised |
| Polling.WaitServerUntilDeletedAndFinalize | common/application/server/service.py:543-564 | soft-deleted and DELETED exactly when Nova first answers that the server is gone |
| Polling.WaitUntilVolumeAttachmentAndFinalize | common/application/server/service.py:630-683 | linked and IN_USE, the unexpected status, or ERROR on timeout |
| Polling.SyncCreatingVolumeUntilAvailable | common/application/volume/service.py:110-154 | AVAILABLE or ERROR; a timeout does not raise |
| Polling.WaitVolumeUntilDeletedAndFinalize | common/application/volume/service.py:251-278 | deleted exactly when Cinder first answers that the volume is gone |
| Polling.DeleteVolume | common/application/volume/service.py:209-249 | only an unlinked volume in a deletable status is ever deleted, and only after Cinder |
| Polling.WaitForVolumeResizeCompletion | common/application/volume/service.py:317-341 | success exactly when the deciding poll shows AVAILABLE at the requested size |
| PollingOutcomes.StartingServer | common/application/server/service.py:358-383 | SHUTOFF and ERROR are waited out; ACTIVE commits ACTIVE, every other status and a timeout fail; polls and sleep |
| PollingOutcomes.StoppingServer | common/application/server/service.py:390-414 | ACTIVE is waited out; SHUTOFF commits SHUTOFF, every other status and a timeout fail |
| PollingOutcomes.CreatingServer | common/application/server/service.py:432-474 | BUILD is waited out; ACTIVE inserts the root volume - root, AVAILABLE, on the server, of its project and the requested size - under Nova's first id, everything else marks the server ERROR |
| PollingOutcomes.DeletingServer | common/application/server/service.py:550-564 | a server still there is waited out; gone means DELETED, a timeout raises |
| PollingOutcomes.AttachingVolume | common/application/server/service.py:647-683 | RESERVED and ATTACHING are waited out; IN_USE links the volume if it still may be, any other status is committed, a timeout commits ERROR |
| PollingOutcomes.CreatingVolume | common/application/volume/service.py:119-154 | CREATING and DOWNLOADING are waited out; AVAILABLE is committed, anything else ERROR |
| PollingOutcomes.DeletingVolume | common/application/volume/service.py:251-278 | a volume still there is waited out; gone means soft-deleted, a timeout raises |
| PollingOutcomes.ExtendingVolume | common/application/volume/service.py:317-341 | EXTENDING is waited out; only AVAILABLE at the target size is a success |
| PollingOutcomes.VolumeGuards | common/domain/volume/entity.py:103-170 | which volumes may be attached, detached, deleted and resized, and which error says why not |
| VolumeSessions.Database.Enter | common/infrastructure/database.py:29-38 | joins the ambient session or opens an empty one |
| VolumeSessions.Database.Leave | common/infrastructure/database.py:39-47 | on commit exactly the changed columns of the session's own objects are written |
| VolumeSessions.CommitsMerge | common/infrastructure/database.py:39-47 | a commit writes all that its session changed and nothing else; sessions that change different columns of a row both get through, in either order |
| VolumeSessions.Database.Find | common/infrastructure/volume/repository.py:53-77 | a live row's object, the same one if the session already has it |
| VolumeSessions.InitiateVolumeDetachment | common/application/server/service.py:265-285 | marks the volume DETACHING in its session exactly if every guard and Nova accept |
| VolumeSessions.WaitUntilVolumeDetachment | common/application/server/service.py:287-319 | the change to the session's object, from the deciding observation, or an error if the volume is gone |
| VolumeSessions.DetachingVolume | common/application/server/service.py:295-319 | IN_USE and DETACHING are waited out; what a started detachment commits for every other status, and that a timeout commits nothing |
| VolumeSessions.InitiateInside | common/infrastructure/database.py:64-74 | a nested transactional call joins the session and resets the ambient variable all the same |
| VolumeSessions.DetachVolumeFromServer | common/application/server/service.py:240-263 | as written, whatever other requests committed during the wait: exactly when it succeeds, and all committed outcomes - DETACHING without server on success, the unexpected status, nothing on timeout |
| VolumeSessions.ReportedDetachmentLeavesDetaching | common/application/server/service.py:240-263 | after a reported success the volume can be attached, but neither deleted, resized nor detached |
| VolumeSessions.DetachInOneSession | common/application/server/service.py:240-319 | in one session: AVAILABLE without server, or nothing |
| VolumeSessions.InitiateVolumeAttachment | common/application/server/service.py:595-628 | commits ATTACHING exactly if every guard and Nova accept |
| VolumeSessions.FinalizeVolumeAttachment | common/application/server/service.py:630-683 | commits the deciding observation's outcome to the row as it then is |
| VolumeSessions.AttachingRows | common/application/server/service.py:647-683 | what a started attachment commits for each status, a timeout and an exception |
| VolumeSessions.AttachVolumeToServer | common/application/server/service.py:476-499 | exactly when it succeeds, and that a success commits the volume linked and IN_USE |
| VolumeSessions.PrepareVolumeForResize | common/application/volume/service.py:301-311 | hands out an object whose session is over |
| VolumeSessions.ResizeAndPersistVolume | common/application/volume/service.py:313-315 | changes that object and no row |
| VolumeSessions.UpdateVolumeSize | common/application/volume/service.py:178-207 | as written: exactly when it succeeds - having seen AVAILABLE at the requested size -, that it returns the strictly larger size, and that it commits nothing |
| VolumeSessions.UpdateVolumeSizeRereading | common/application/volume/service.py:178-207 | with the last step reading the row again: exactly when it succeeds, and that a success commits the requested size |
| ServerCreation.StepsAreInvertible | common/application/server/service.py:172-196 | port and server creation register exact inverses |
| ServerCreation.CreateServer | common/application/server/service.py:138-217 | port, server and link rows on success; after a failure anywhere neither port nor server if the compensating calls get through, and exactly what stays if they do not |
| ServerCreation.OldestFirstLeavesThePort | common/util/compensating_transaction.py:17 | the reverse order is needed: oldest first, the port in use stays |
| TwoStores.AssignUserOnProject | common/application/project/service.py:122-165 | both stores change, or none, or Keystone alone exactly if the compensation failed too |
| TwoStores.UnassignUserFromProject | common/application/project/service.py:167-211 | the same for removing a member |
| TwoStores.CreateNewFloatingIp | common/application/floating_ip/service.py:65-94 | the same, with the remote call before the insert |
| TwoStores.AttachFloatingIpToNetworkInterface | common/application/network_interface/service.py:29-56 | the same for attaching, with Neutron deciding whether the port is free; the compensation gets through only if the id was read when the task was registered, which it is not |
| TwoStores.DetachFloatingIpFromNetworkInterface | common/application/network_interface/service.py:58-88 | the same for detaching |
| TwoStores.EffectsCorrespond | common/application/network_interface/service.py:29-88 | the local and the remote half of a request are the same, non-empty change |
| TwoStores.AgreementKeptIff | common/util/compensating_transaction.py:16-24 | a request keeps the stores in agreement exactly unless it failed after its remote call and that call was not undone - which as written it never is for attaching and detaching |
| TwoStores.RunsAgreeIff | common/util/compensating_transaction.py:27-34 | over every run with faults anywhere, also in compensating calls, the stores agree at every moment exactly if no request strands its remote change |
| TwoStores.RunsAgree | common/application/network_interface/service.py:29-88 | in particular if whatever fails after its remote call can be undone |
| TwoStores.FailuresLeaveNoTrace | common/util/compensating_transaction.py:27-34 | then leaving the failed requests out of the run changes neither store |
| TwoStores.StrandedAttachment | common/application/network_interface/service.py:51-56 | an instance: a failed commit after which Neutron has the floating IP attached and the row does not |
| ServerDeletion.LinkedVolumes.DetachFromServer | common/domain/volume/entity.py:153-156 | the volume has no server and is AVAILABLE, and it is gone from the server's loaded list |
| ServerDeletion.ReleaseVolumes | common/application/server/service.py:573-576 | the loop as written, over the list that shrinks under it: exactly the volumes at even positions are released, in whatever order they were loaded |
| ServerDeletion.ReleaseCopiedVolumes | common/application/server/service.py:573-576 | the loop as meant, over a copy: every volume is released |
| ServerDeletion.SkippedIff | common/application/server/service.py:573-576 | as written the volumes at odd positions are skipped, so none exactly if there is at most one volume; over a copy none |
| ServerDeletion.DeleteNic | common/application/server/service.py:581-584 | one interface: soft-deleted, off its groups, its floating IP down |
| ServerDeletion.RemoveServerResources | common/application/server/service.py:566-593 | the whole removal, or nothing if a port deletion or the commit fails |
| ServerDeletion.RemovalClearsIff | common/application/server/service.py:566-593 | what it leaves: exactly the skipped volumes attached to the server, and none exactly if it iterates over a copy or there is at most one; nothing else changed; a group deletable exactly if only these interfaces used it |
| Lifecycle.RemovedKeeps | common/application/server/service.py:566-593 | the removal keeps the link invariants |
| Lifecycle.CommitKeeps | common/application/server/service.py:138-683 | every other one-step transaction keeps them |
| Lifecycle.CommitMonotone | common/domain/server/entity.py:78-100 | no other transaction deletes or revives a server or interface, or moves an interface |
| Lifecycle.JobStepKeeps | api_server/router/server/router.py:150-165 | each background task of a deletion keeps them and achieves its stage: interfaces deleted, server deleted, root volume deleted |
| Lifecycle.FinishedDeletionKeeps | common/application/volume/service.py:217-249 | so does the commit of a volume deletion, whatever the row has become since its check |
| Lifecycle.FinishedDetachmentKeeps | common/application/server/service.py:240-319 | and that of a detachment |
| Lifecycle.StepKeepsInv | common/application/server/service.py:138-683 | the invariant over every step of every interleaving of transactions |
| Lifecycle.RunKeepsInv | common/application/server/service.py:138-683 | and over every run |
| LifecycleRuns.ReachableStates | common/domain/floating_ip/entity.py:62-78 | link rows join live rows; a floating IP is up exactly if attached, and then to a live interface; DELETED exactly if soft-deleted; IN_USE implies a server |
| LifecycleRuns.DeletedServersStay | common/domain/server/entity.py:78-80 | DELETED is final |
| LifecycleRuns.OnlyAttachmentSetsInUse | common/domain/volume/entity.py:148-151 | only a finished attachment sets IN_USE, on an unlinked volume, which it links |
| LifecycleRuns.LinkChanges | common/application/server/service.py:566-576 | exactly which events link a volume to a server - a finished attachment, a server creation, both to a live server - and which unlink it - a finished detachment, the removal unless it skips the volume |
| LifecycleRuns.RootVolumeStays | common/application/server/service.py:442-463 | a root volume leaves its server exactly through a committed removal of that server's resources that does not skip it |
| LifecycleRuns.LinkedIff | common/application/server/service.py:240-319 | which volumes are linked after any run, from the events alone |
| LifecycleRuns.VolumeDeletedIff | common/application/volume/service.py:231-278 | a volume gets deleted exactly by the last step of an accepted deletion or the last task of its server's deletion, once Cinder has lost it |
| LifecycleRuns.DeletableStep | common/domain/volume/entity.py:103-109 | exactly which events spoil a deletable volume |
| LifecycleRuns.StillDeletableIff | common/application/volume/service.py:217-249 | the check holds at every moment up to the commit exactly if no event in between spoils the volume |
| LifecycleRuns.DeletedWhileLinkedIff | common/application/volume/service.py:231-249 | the deleted row is linked to a server exactly if an event during the wait linked it and no later one unlinked it |
| LifecycleRuns.AttachedDuringVolumeDeletion | common/application/volume/service.py:231-249 | any deletable volume of the project can be attached during the wait, and ends up deleted and linked |
| LifecycleRuns.RemovalFreesIff | common/application/server/service.py:566-593 | what the removal leaves at once: the skipped volumes linked and unchanged - none exactly over a copy or with at most one volume -, the others AVAILABLE and unlinked, floating IPs DOWN, groups deletable exactly if only those interfaces used them |
| LifecycleRuns.Cascade | common/application/server/service.py:501-593 | the deletion cascade with any transactions in between: server DELETED, interfaces deleted and off every group and floating IP, and still linked exactly the volumes that the removal skipped and nobody unlinked, and those that an event in between linked and none unlinked |
| LifecycleRuns.JobAchieved | api_server/router/server/router.py:155-165 | what holds in every state after the finalization, and of the root volume once the last task is done |
| LifecycleRuns.LinksOfDeletedServersIff | common/application/server/service.py:278-283 | a volume is linked to a deleted server in a continuation exactly if it was before and no event, necessarily a detachment under way, unlinks it |
| LifecycleRuns.CascadeFreesIff | common/application/server/service.py:528-593 | a deletion frees every volume exactly when every skipped one is unlinked by some event and no event links one without a later one unlinking it |
| LifecycleRuns.UndisturbedCascadeFreesIff | common/application/server/service.py:566-576 | if nobody else attaches or detaches, exactly when the removal iterates over a copy or the server has at most one volume |
| LifecycleRuns.SkippedInDeletion | common/application/server/service.py:573-576 | as written, with no detachment under way, every volume at an odd position stays linked to the DELETED server whatever happens later |
| LifecycleRuns.SecondVolumeStays | common/application/server/service.py:573-576 | an instance: of a root and an attached volume the second stays IN_USE on the deleted server |
| LifecycleRuns.AttachedDuringDeletion | common/application/server/service.py:528-541 | any attachable volume of the project can be attached in the window, and is then lost |
| LifecycleRows.ServerInserted | common/application/server/service.py:166-217 | a server appears exactly by a creation whose live groups are all of its project, in BUILD, with one interface of the project linked to exactly those groups |
| LifecycleRows.VolumeInserted | common/application/server/service.py:442-463 | a volume appears exactly by a volume creation, CREATING and on no server, or as the root volume of a server that Nova reports ACTIVE |
| LifecycleRows.RootVolumeNeverDetached | common/application/server/service.py:442-463 | such a root volume is on its server at once, and in no continuation leaves a server but through a removal that comes to it |
| LifecycleRows.DeletionRequested | common/application/server/service.py:501-526 | exactly when a server deletion is accepted, and that it notes all the server's interfaces and its root volume |
| LifecycleRows.VolumeRequested | common/application/server/service.py:265-285 | exactly when an attachment, a detachment or a deletion of a volume is started, and what is committed by then |
| LifecycleRows.StatusCommitted | common/application/server/service.py:353-414 | the statuses that the waits commit, status by status |
| LifecycleRows.ProjectsStayApart | common/application/server/service.py:166-170 | over every run no row changes its project, and links, interfaces and floating IPs stay within one project |
| Overlaps.AttachmentOverlapIff | common/application/network_interface/service.py:29-56 | an attachment whose lookup and Neutron call lie before any run and whose commit lies after it leaves consistent tables exactly if the run deletes neither the interface with its server nor the floating IP |
| Overlaps.DetachmentOverlaps | common/application/network_interface/service.py:58-88 | a detachment always does |
| Overlaps.StatusOverlapIff | common/domain/server/entity.py:78-100 | a late status is that of a deleted server exactly if a deletion job finalized the server in between |
| Overlaps.FinalizationOverlaps | common/application/server/service.py:543-558 | a finalization that looked its server up before polling leaves consistent tables whatever happened in between |
| Overlaps.CreationOverlapIff | common/application/server/service.py:166-215 | the link rows of a server creation join live rows exactly if no group it found is deleted before it commits |

## Left out

- SecurityGroupRace.Linearization: requests that fail are excluded, because their rollback may do anything to the name and the rules; contents are compared as a set, and the bulk creation is one step. A gathered delete may only run while its rule is still listed: a rival that has already deleted it makes the request fail.
- SecurityGroupRace.StepKeepsInv: for the same reason steps into a failed request or a commit of an unchanged row are excluded; `DistinctWantsLinearize` gives requests that never commit an unchanged row, `SecurityGroupPair.dfy` and `SecurityGroupMany.dfy` treat those that do.
- SecurityGroupRace.RunKeepsInv: likewise.
- SecurityGroupRace.NamesMidRun: likewise.
- SecurityGroupMany.ContentFateIff: content by content; which combinations of contents three or more requests can leave is said for two only (`PairMixesIff`). Requests that fail are excluded in both.
- ProjectRename.KeystoneMatchesIff: the only-if half for a restored row assumes that no name is used twice.
- TwoStores.RunsAgree: requests run one after the other; `RunsAgreeIff` has no condition on the faults.
- TwoStores.DetachFloatingIpFromNetworkInterface: relies on Neutron having at most one floating IP per port, which the database does not enforce (`docs/erd.md:13`).
- Lifecycle.StepKeepsInv: what checks, waits for OpenStack and writes is split at the wait, but a lookup and the write that follows it without a wait are one step; `Overlaps.dfy` says when one such transaction may be overlapped by any run, two overlapping ones are not treated; one floating IP per interface is Neutron's guarantee.
- Lifecycle.RunKeepsInv: likewise.
- LifecycleRuns.ReachableStates: likewise.
- LifecycleRuns.DeletedServersStay: likewise; `StatusOverlapIff` is the exact condition for a late status.
- Overlaps.AttachmentOverlapIff: assumes, as Neutron guarantees, that no other floating IP is on the interface at the commit.
- VolumeSessions.UpdateVolumeSizeRereading: the repaired variants of resizing and detaching, the per-iteration binding, the copied list and ids bound at registration are not in the repository.
- SQLAlchemy beyond sessions, identity, changed columns, the version check, commit or rollback, the back-reference between a server and its volumes, and the expiry of attributes after a rollback: lazy loading, other back-references, isolation levels.
- Ports that were deleted before another port deletion failed: the rows are rolled back, Neutron's ports are not modelled there.
- Row ids and OpenStack ids are the same in `TwoStores.dfy` and the lifecycle; Neutron returns the contents it was given; tokens, timestamps, addresses and logging have no counterpart.
- Resizing in the lifecycle: as written it commits nothing.
- `create_security_group`, `create_volume`, `delete_floating_ip` and `delete_security_group` as agreement between the stores: the last three have no compensation, so a failed commit leaves the stores different.
- Routers beyond the compensating scope and the order of background tasks, request and response classes, list and sort queries, name-duplicate checks on creation, renaming of servers and volumes.
- Users, authentication, token refresh, settings and the HTTP clients.
