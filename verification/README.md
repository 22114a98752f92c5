# A Dafny model of the VAST CSI driver's state machines

The driver serves CSI, COSI and CSI-Addons RPCs. Its hard parts are small state machines that
must survive retries, kills and concurrent calls, and one quote-aware grammar of mount flags.
This project models those parts and proves what they promise for every input, every run and
every interleaving. Check it with `dafny verify dfyconfig.toml`.

| file | models | main results |
|---|---|---|
| `MountFlags.dfy`, `NfsOptions.dfy`, `OptionOrders.dfy`, `Capability.dfy` | tokenizer and printer of mount flags, the `-o` argument and mode of an NFS mount, options kept as a set, capability flags carried from RPC to RPC | round trips, each with its exact condition |
| `HostPrune.dfy`, `HostMappings.dfy` | publish and unpublish of block volumes with automatic host removal, any number of calls interleaved | safety, exclusion, exact completeness, who changes which mapping and host, single-node volumes on one host |
| `LockTable.dfy` | `resource_locked` under exit stacks | one holder per key, table equals open contexts |
| `BlockEphemeral.dfy` | inline ephemeral block volumes on a node | write-ahead record, nothing left behind |
| `NfsNode.dfy`, `NfsMeaning.dfy` | the mount stack at an NFS target path | stack shape over all runs, convergence of retries, exactly which runs lose an ephemeral volume |
| `Replication.dfy` | replication roles and promotion | request order, termination of retried promotion |
| `WorkerPool.dfy`, `XprtGauges.dfy`, `XprtSchedules.dfy` | transport statistics: worker pool and gauges | conservation under every schedule, label agreement, which gauges depend on the schedule |
| `ValidationCache.dfy` | LRU cache that lets a Modify call skip a check, and the check | soundness over all interleavings, exact condition of the check, LRU order |
| `DataDirectory.dfy`, `DirectoryMeaning.dfy` | NFS volumes, snapshots and their data directory | exactly which calls orphan data or hollow out a view over every run, retried delete equals one delete |
| `CosiBucket.dfy` | bucket ids, owners, create and delete of buckets | id round trip, exactly when a retried delete equals one delete, which quota goes |
| `SubsystemWalk.dfy` | search for the view above a directory | nearest ancestor, exact termination condition |
| `Strings.dfy`, `Lists.dfy`, `QuotaLookup.dfy`, `Faults.dfy`, `Histories.dfy`, `Wrappers.dfy` | shared: strings, lists, the quota query by path end, fault schedules, causes and cures over a run, options | |

Modelling conventions:

- The VMS backend and the kernel mount table are explicit abstract state. A backend or mount call
  is one atomic step that succeeds, or fails with no effect.
- Sequential RPCs are classes whose methods take a fault schedule: `goes(k)` says whether step k
  goes through. A step that does not stands for a failure or for a kill of the driver.
- Concurrent RPCs are a `State`, an `Action` type, a total `Apply`, and `Run` over arbitrary action
  lists.
- Clocks, the network and `sysfs` reads are parameters.
- Of several `ro` and `rw` mount options the last one counts, as mount(8) documents.

Where the code does not meet an obvious promise, the model keeps the code:

- List-valued mount flags do not always survive split, join, split: two list items that each leave a
  quote open are read back as one flag. `SplitJoinSplit` gives the exact condition. The same merge
  happens to capability flags on the next RPC (`HopMergesOpenQuotes`).
- An Unpublish that unmapped, failed, and on retry no longer finds its volume leaves an empty
  managed host (`MissedVolumeLeavesHost`). The lookup goes by the end of the name, so the retry may also
  find another volume, and turn to the host of that one's tenant (`OtherVolumeLeavesHost`);
  `FindsOwnExactly` says for which names it does not. `PruneCompleteness` is exact: at rest a managed host
  is empty if and only if it was empty at the start, or when some Unpublish did not find its own volume,
  and has been neither mapped nor deleted since.
- `ensure_map_exclusive` promises one host for a single-node volume, but the check and the mapping are under
  the lock of one node: two overlapping Publish calls for two nodes map it to both (`OverlapMapsTwice`). One
  Publish of the volume at a time is enough (`SingleNodeOnce`).
- Enforced read-only is lost on a mount whose flags hold `ro` before `rw` (`EnforcedExactly`).
- `has_snapshots` is a substring query. Deleting the last snapshot of a deleted volume leaves its
  directory behind while a volume whose path contains the first one's has a snapshot
  (`ContainedPathLeavesOrphan`, for all such paths).
- A create stopped before its quota leaves a directory that even a completed DeleteVolume does not
  remove (`TornCreateLeavesOrphan`). A DeleteSnapshot stopped between the snapshot and the data leaves
  the data, and a retry, which finds no snapshot, changes nothing (`TornDeleteLeavesOrphan`).
  `OrphanHasCause` shows that these three are the only causes.
- A DeleteVolume stopped between data and view, and the volume created again, give a volume with view and
  quota but no directory (`TornDeleteHollows`), because an existing view is taken as it is.
  `CreateOverHollow` and `HollowHasCause` give the exact condition.
- `quotas.delete(name=...)` looks at the end of the path. Deleting bucket b beside a bucket ab of the
  same tenant fails for good when both have a quota (`TwoQuotasBlock`), and takes the quota of ab when b
  has none (`ForeignQuotaGoes`). `OwnQuotaGoes` gives the exact condition.
- DriverDeleteBucket stopped between view and folder and then retried takes the folder from
  `root_export`: without it the folder stays, and with another one another folder goes.
  `RetriesConverge` gives the exact condition.
- DriverDeleteBucket deletes a user of the bucket's name also when it existed before the bucket.
- An ephemeral NFS volume has no write-ahead record, unlike a block one: it is made before anything is
  recorded, and the cleanup after a failed mount removes the record. `LossHasCause` says for every run,
  retried publishes included, when the volume is lost; `UnpublishUntilDone` leaves it in the backend
  exactly then.
- With `ro` among the mount flags of a request that is not read-only, the mount is read-only and
  repeating the publish is a conflict (`ReadonlyFlagConflicts`). `RepeatedWithFlags` gives the exact
  condition.
- `normalize_mount_options` cuts options at every comma, also inside quotes, and lists the pieces in any
  order. `OrderIrrelevantExactly` gives the exact condition under which that makes no difference for
  pieces without spaces and brackets; with spaces it is another one (`SpacedPiecesCoincide`). Options
  of inline volumes are cut at every comma and space (`InlineOptionCut`).
- The membership check of NFS volume groups is a prefix query: with base directory `/apps/db` it accepts
  a volume of `/apps/db2` (`SiblingAccepted`). `ListingExact`: it accepts only volumes of the base
  directory if and only if that is given with a trailing slash.
- DeleteVolume deletes whichever volume's path ends with the id. After a volume is gone, deleting it again
  deletes another one whose path ends with its id (`ForeignVolumeGoes`); `OwnVolumeGoes` is exact.
- A block Unpublish killed between DeleteVolume and unstaging leaves the old device bound, and the next
  Publish, with a new volume, mounts that device (`TornUnpublishKeepsDevice`). This presumes that the
  check of the filesystem type (vast_csi/plugins/block.py:810-814) still reads the device of the deleted
  volume; when it does not, the Publish fails there.
- A clone of a bucket that is asked for again and fails with an error other than an Abort deletes the
  user that owns the existing view (`RaisingCloneTakesOwner`), until a later attempt succeeds.
- A per-destination gauge shows the transport that the workers appended last. It is independent of
  their schedule if and only if all transports of the destination agree (`DisplayIndependence`).
- Retried NFS unpublish converges with one configured unmount attempt; two are not needed. With
  none, nothing ever moves.
- When writing the meta record fails, NodePublishVolume leaves an empty tmpfs layer, because its
  cleanup starts only after the record is written. A later unpublish removes it.
- The docstring of PromoteVolume (vast_csi/plugins/replication.py:483-488) says the call that sends
  `force_failover` returns successfully. The code reads the role once, so that call ends ABORTED
  (547) and a later call succeeds. The model follows the code.
- The subsystem search never ends on a path with a leading double slash and no view above it,
  because `//` is its own parent. `EndsExactly` gives the condition.

## Model

| member | source | states |
|---|---|---|
| MountFlags.SplitMountFlags | vast_csi/filesystem_utils.py:500-536 | the nested loops of `split_mount_flags` compute `Split`, for absent, single and listed flags |
| MountFlags.SplitCharacters | vast_csi/filesystem_utils.py:517-535 | the character loop with its buffer and quote flag computes `Lex` |
| MountFlags.RemoveBrackets | vast_csi/filesystem_utils.py:518 | the regular expression removes exactly the square brackets |
| MountFlags.DropBracketsExactly | vast_csi/filesystem_utils.py:518 | square brackets go wherever they are, and nothing else |
| MountFlags.JoinMountFlags | vast_csi/filesystem_utils.py:539-548 | the printing loop computes `Join` |
| MountFlags.SplitItemClean | vast_csi/filesystem_utils.py:514-535 | every token of one item is non-empty, bracket-free, without a bare separator or trailing space, and all but the last close their quotes |
| MountFlags.SplitItemsTokens | vast_csi/filesystem_utils.py:513-536 | every flag of any input is such a token |
| MountFlags.SplitKeepsText | vast_csi/filesystem_utils.py:517-535 | nothing is lost: the tokens, run together, are the bracket-free text without its unquoted separators, up to trailing space inside an unclosed quote |
| MountFlags.CommaJoinRoundTrip | vast_csi/filesystem_utils.py:500-548 | a comma-joined list reads back as itself if and only if each entry is a token and all but the last close their quotes |
| MountFlags.FormattedTokens | vast_csi/filesystem_utils.py:539-548 | the printer leaves the tokenizer's output unchanged |
| MountFlags.FormattedExactly | vast_csi/filesystem_utils.py:539-548 | the value is quoted from the first `=` on exactly for a flag with `=` and comma and no quote; any other is printed as it is |
| MountFlags.SplitJoinSplit | vast_csi/filesystem_utils.py:500-548 | for every input, split of join of split is split if and only if no flag but the last leaves a quote open |
| MountFlags.SplitJoinSplitText | vast_csi/filesystem_utils.py:500-548 | for every single string it always holds |
| MountFlags.SplitJoinSplitFailsOnOpenQuotes | vast_csi/filesystem_utils.py:508-536 | a two-item list for which it does not |
| MountFlags.FormattedPrintable | vast_csi/filesystem_utils.py:539-548 | a space-free, quote-balanced flag with commas only in a quote-free value is printed as one closed token |
| MountFlags.SplitOfJoin | vast_csi/filesystem_utils.py:500-548 | a printed list of such flags reads back one for one, each in its printed form |
| NfsOptions.JoinPieces | vast_csi/plugins/nfs.py:101 | cutting at commas and joining with commas is the identity |
| NfsOptions.PiecesOfJoin | vast_csi/plugins/nfs.py:101 | joining comma-free pieces and cutting again gives the pieces |
| NfsOptions.NfsArgumentIsJoin | vast_csi/plugins/nfs.py:100-111 | the final `-o` argument is the comma-join of the flags if and only if every piece between commas is a token |
| NfsOptions.NfsArgumentSurvives | vast_csi/plugins/nfs.py:750 | flags without space, brackets and empty pieces always reach mount unchanged, commas inside quotes included |
| NfsOptions.NfsArgumentEmpty | vast_csi/filesystem_utils.py:567-587 | no flags: no `-o` argument |
| NfsOptions.UsedFlagsCorrect | vast_csi/filesystem_utils.py:567-587 | for every mount no flag but `ro` is added or lost, a bind mount never gets `ro`, another gets it exactly when asked for or enforced, and the argument reads back exactly under the quote condition |
| NfsOptions.EnforcedExactly | vast_csi/filesystem_utils.py:567-570 | enforcing read-only works if and only if the flags do not ask for `ro`, or ask for it last |
| NfsOptions.ReadonlyPasses | vast_csi/plugins/nfs.py:721 | the `ro` of a read-only request is passed on before the other flags |
| NfsOptions.AskedModeExactly | vast_csi/plugins/nfs.py:721-727 | of `ro` and `rw` the last one counts |
| NfsOptions.ModeAsRequested | vast_csi/plugins/nfs.py:721-727 | the mount has the requested mode if and only if the flags that are passed on ask for none, or for that one |
| NfsOptions.ModeWithoutRw | vast_csi/plugins/nfs.py:721-727 | without `rw` among them: if and only if `ro` among them goes with a read-only request |
| OptionOrders.OrderIrrelevantExactly | vast_csi/utils.py:273-277 | for options without spaces and brackets every order of the set is read by mount as the same flags if and only if each piece closes its quotes, or there is only one |
| OptionOrders.OrdersDiffer | vast_csi/utils.py:273-277 | otherwise two orders that mount reads differently |
| OptionOrders.SpacedPiecesCoincide | vast_csi/utils.py:273-277 | with a space in a piece two different options pass the same flags in either order, whatever their quotes |
| OptionOrders.BalancedOptionsSurvive | vast_csi/plugins/nfs.py:725-727 | with closed quotes every order is read as the flags of the option text, empty pieces or not |
| OptionOrders.EmptyPiecesSkipped | vast_csi/filesystem_utils.py:517-535 | with closed quotes the flags read are the pieces that are not empty, in order |
| OptionOrders.ReadIsPassed | vast_csi/plugins/nfs.py:746-752 | the argument of such a mount is the comma-join of the order |
| OptionOrders.ReadPieces | vast_csi/filesystem_utils.py:517-535 | cut at commas, the flags read are the listed pieces in their order |
| OptionOrders.InlineOptionCut | vast_csi/plugins/base.py:517-521 | an option with a comma inside quotes is cut into two flags with open quotes, where the quote-aware reader sees one |
| OptionOrders.WordsExactly | vast_csi/plugins/base.py:517-521 | options of inline volumes are cut at every comma and space and nowhere else |
| Capability.LessTotal | vast_csi/capabilities.py:256-258 | string comparison is irreflexive, asymmetric and total |
| Capability.LessTransitive | vast_csi/capabilities.py:256-258 | string comparison is transitive |
| Capability.LessExactly | vast_csi/capabilities.py:256-258 | the order is by code point, a proper prefix first |
| Capability.SortedSetCorrect | vast_csi/capabilities.py:256-258 | the sorted set is strictly sorted and has exactly the given elements |
| Capability.SortedUnique | vast_csi/capabilities.py:256-258 | a set has only one strictly sorted listing |
| Capability.CapabilityFlagsCorrect | vast_csi/capabilities.py:237-258 | capability flags are strictly sorted tokens, exactly those of the context and of the request |
| Capability.ReadonlyExactly | vast_csi/capabilities.py:249-275 | read-only exactly for the two read-only access modes, or with `ro` among the requested flags or those of the volume context, or of the publish context if that has none |
| Capability.OptionsTextReadsBack | vast_csi/capabilities.py:189-196 | the text written into a context reads back as the list if and only if no flag but the last leaves a quote open |
| Capability.HopKeepsFlags | vast_csi/builders/block.py:124-131 | the next RPC, given that text and any part of the capability, computes the same flags and the same read-only decision, if no flag but the last leaves a quote open |
| Capability.HopsKeepFlags | vast_csi/builders/nfs.py:57-62 | the flags are those of the first RPC after any number of RPCs |
| Capability.HopMergesOpenQuotes | vast_csi/capabilities.py:249-258 | two requested flags with open quotes become one flag on the next RPC |
| Capability.UnbalancedFlagsCanSurvive | vast_csi/capabilities.py:249-258 | the converse of `HopKeepsFlags` fails: two flags with open quotes that the next RPC reproduces |
| HostPrune.PublishSafe | vast_csi/plugins/block.py:356-387 | every step of ControllerPublishVolume keeps safety: exact locks, unique host ids, no dangling mapping, true memories |
| HostPrune.UnpublishSafe | vast_csi/plugins/block.py:422-454 | every step of ControllerUnpublishVolume keeps safety, though it unmaps outside the lock |
| HostPrune.LookUpSafe | vast_csi/plugins/block.py:422-434 | the lookup keeps safety, also when it finds another volume |
| HostPrune.MapSafe | vast_csi/plugins/block.py:382-387 | mapping never lands on a host that another call is about to delete |
| HostPrune.DeleteSafe | vast_csi/plugins/block.py:438-452 | deleting a host leaves no mapping and no other call's memory dangling |
| HostPrune.FoundHostIsOwn | vast_csi/session/resources.py:868-873 | the mapping lookup, which names the host without its tenant, finds only the host of the volume's tenant |
| HostPrune.OneHolder | vast_csi/filesystem_utils.py:1019-1029 | two calls holding the lock of one host are the same call |
| HostPrune.ApplySafe | vast_csi/plugins/block.py:356-454 | starts, steps, lookups of the volume with any answer, failures and a crash of the controller keep safety |
| HostPrune.RunSafe | vast_csi/plugins/block.py:356-454 | from every start without calls, empty managed hosts included, safety holds after every action list |
| HostPrune.PruneSafety | vast_csi/plugins/block.py:438-452 | from every start, in every interleaving each mapping is to an existing host of its tenant, and a host about to be deleted has no mapping |
| HostPrune.PruneExclusion | vast_csi/plugins/block.py:362-371 | in every interleaving at most one call is in the locked section of a host |
| HostPrune.PublishReplies | vast_csi/plugins/block.py:382-387 | a Publish that has mapped leaves a host that is not empty |
| HostPrune.UnpublishEnds | vast_csi/plugins/block.py:435-454 | an Unpublish that ends leaves its host gone, mapped or not managed |
| HostPrune.ApplyCovered | vast_csi/plugins/block.py:372-454 | every step keeps: an empty managed host has a pending call, or is remembered from an Unpublish that missed its own volume |
| HostPrune.RunCovered | vast_csi/plugins/block.py:372-454 | that holds after every action list |
| HostPrune.ApplyMissed | vast_csi/plugins/block.py:372-454 | every step keeps: what is remembered as missed is empty |
| HostPrune.RunMissed | vast_csi/plugins/block.py:372-454 | that holds after every action list |
| HostPrune.PruneCompleteness | vast_csi/plugins/block.py:435-452 | whenever no call runs or awaits retry, the locks are free, and a managed host is empty if and only if it was so at the start, or when an Unpublish missed its own volume, and was neither mapped nor deleted since |
| HostPrune.FoundVolumesLeaveNothing | vast_csi/plugins/block.py:435-452 | started without empty managed hosts, if each Unpublish of an empty host finds its own volume, then at rest no managed host is empty |
| HostPrune.FindsOwnExactly | vast_csi/plugins/block.py:422-434 | for which names: the lookup by name end finds the own volume if and only if it exists and no other existing volume ends with the id |
| HostPrune.MissedVolumeLeavesHost | vast_csi/plugins/block.py:422-434 | the exception is real, on every node and for every volume |
| HostPrune.OtherVolumeLeavesHost | vast_csi/plugins/block.py:422-434 | a retry that finds another tenant's volume turns away from its empty host for good |
| HostMappings.MappingGoes | vast_csi/plugins/block.py:428-431 | in every interleaving a mapping goes only by a step of an Unpublish of its own volume, whose node and tenant name its own host |
| HostMappings.MappingComes | vast_csi/plugins/block.py:378-387 | and comes only by a step of a Publish of its own volume, on the host of its node and tenant |
| HostMappings.HostGoes | vast_csi/plugins/block.py:438-452 | in every interleaving a host goes only by an Unpublish for its node and tenant, while it is managed and nothing is mapped to it |
| HostMappings.HostComes | vast_csi/session/resources.py:790-831 | and comes only by a Publish for its node and tenant, managed and under an id that no host or mapping had; a host that stays is unchanged |
| HostMappings.UnmapDone | vast_csi/session/resources.py:868-873 | in every interleaving an Unpublish that comes to the lock has left its volume unmapped from the host it found, or from all hosts of the node if it found none |
| HostMappings.PublishAlone | vast_csi/plugins/block.py:356-387 | an undisturbed Publish makes the host if there is none, is refused exactly for a single-node volume mapped to another host, and else maps the volume to that host and changes nothing else |
| HostMappings.UnpublishAlone | vast_csi/plugins/block.py:428-452 | an undisturbed Unpublish takes its volume's mapping to its host and no other; the host goes exactly when it is managed and nothing else is mapped to it |
| HostMappings.LookUpExact | vast_csi/plugins/block.py:422-427 | no volume found by name end: the call ends; several: it is left to be retried; one: it goes on with that one; the backend is not touched |
| HostMappings.LockPerHost | vast_csi/plugins/block.py:362-371 | two hosts share a lock only if node and tenant are the same, for node ids without colon |
| HostMappings.SingleNodeOnce | vast_csi/session/resources.py:840-861 | in every interleaving with one Publish of the volume at a time, a volume published for single-node access is never mapped to two hosts |
| HostMappings.OverlapMapsTwice | vast_csi/session/resources.py:840-861 | one at a time is needed: two overlapping Publish calls for two nodes, in every such state, map the volume to both |
| LockTable.ResourceLocks.Enter | vast_csi/filesystem_utils.py:1019-1029 | entry is refused exactly when the key is held, with the holder's message and the table unchanged; else the key is added with its message |
| LockTable.ResourceLocks.Leave | vast_csi/filesystem_utils.py:1031-1035 | leaving removes the key and nothing else |
| LockTable.Interleave | vast_csi/filesystem_utils.py:993-1036 | calls stepping over one shared table end in exactly the state of the transition system |
| LockTable.ApplyExact | vast_csi/filesystem_utils.py:1019-1036 | every step keeps: the table is exactly the keys of open contexts, one context per key |
| LockTable.LocksExact | vast_csi/filesystem_utils.py:993-1036 | that holds in every interleaving of calls stacking any number of locks |
| LockTable.RefusedLeavesTable | vast_csi/filesystem_utils.py:1020-1024 | an attempt changes nothing if and only if some open context, even its own, holds the key |
| LockTable.RefusalShows | vast_csi/filesystem_utils.py:1019-1029 | in every interleaving a refused call is shown the message of the call that entered, or the default one |
| LockTable.EmptyWhenAllEnded | vast_csi/filesystem_utils.py:1033-1035 | the table is empty when all calls have ended |
| BlockEphemeral.Node.NodePublishVolume | vast_csi/plugins/block.py:741-884 | stopped anywhere it keeps the invariant; exactly when it succeeds, and the exact volume, mapping, bind, mounts and files wherever it stops; success means volume, mapping, bind and record exist under the mounted filesystem |
| BlockEphemeral.Node.NodeUnpublishVolume | vast_csi/plugins/block.py:886-922 | stopped anywhere it keeps the invariant; exactly when it completes, a timed-out unmount being retried lazily if enabled, and the exact volume, mapping, bind, mounts and files wherever it stops; completion means nothing is left |
| BlockEphemeral.Node.StoreRecord | vast_csi/plugins/block.py:766-782 | directory, tmpfs, record: exactly when it completes, and what is there wherever it stops |
| BlockEphemeral.Node.Stage | vast_csi/plugins/block.py:537-690 | device file, bind and filesystem mount: exactly when it completes, and what is there wherever it stops; a device found bound is taken as it is |
| BlockEphemeral.Node.ProcessRecord | vast_csi/plugins/base.py:613-656 | mapping, volume, bind and then the record go in this order: exactly when it completes, and what is left wherever it stops |
| BlockEphemeral.Node.Unstage | vast_csi/plugins/block.py:692-718 | the device is unbound, lazily when that times out and it is enabled, then its file and the record go: exactly when it completes, and what is left wherever it stops |
| BlockEphemeral.Node.WriteFile | vast_csi/plugins/base.py:576-611 | a file is written to the topmost layer only |
| BlockEphemeral.Node.RemoveFile | vast_csi/plugins/block.py:692-718 | a file is removed from the topmost layer only |
| BlockEphemeral.Node.Run | vast_csi/plugins/base.py:499-542 | over every run a backend volume exists only if its record is on the target's tmpfs; without an Unpublish torn after DeleteVolume the bound device is always that of the volume |
| BlockEphemeral.RunThenUnpublish | vast_csi/plugins/block.py:886-922 | from nothing, through any run, one undisturbed unpublish leaves nothing |
| BlockEphemeral.TornUnpublishKeepsDevice | vast_csi/plugins/block.py:556-561 | after such an Unpublish the next Publish succeeds with a new volume and the old device |
| NfsNode.GetVolumeMount | vast_csi/utils.py:129-161 | the scan of the mount table finds the last entry at the path that is not tmpfs, and none if and only if all entries at the path are tmpfs |
| NfsNode.VolumeLayerCorrect | vast_csi/utils.py:157-161 | none is found if and only if all layers are tmpfs; what is found is an export of the stack |
| NfsNode.Target.Cleanup | vast_csi/plugins/base.py:567-574 | the layers it leaves are exactly those of its two steps, and no layer below is touched |
| NfsNode.Target.MountExport | vast_csi/plugins/nfs.py:736-760 | success exactly when both steps work, with the export over the record; failure leaves exactly what the cleanup leaves |
| NfsNode.Target.MountOverRecord | vast_csi/plugins/nfs.py:704-760 | success adds record and export; otherwise the layers are exactly `Layers` of the faults |
| NfsNode.Target.StoreRecord | vast_csi/plugins/nfs.py:705-718 | the tmpfs layer is there once mounted, with the record exactly on success |
| NfsNode.Target.Provision | vast_csi/plugins/base.py:499-542 | an ephemeral volume is made, unless bound to a bucket, before anything is recorded |
| NfsNode.Target.CheckTarget | vast_csi/plugins/nfs.py:676-703 | stale, conflicting and identical mounts are told apart; the target is free of volumes when the call goes on |
| NfsNode.LayersBound | vast_csi/plugins/nfs.py:704-760 | a publish adds at most one tmpfs layer, none when a failed mount is cleaned up, and its record exactly when it is written and not cleaned up |
| NfsNode.PublishKeepsShape | vast_csi/plugins/nfs.py:676-760 | a publish stopped anywhere keeps: tmpfs layers with at most one export on top, over a record |
| NfsNode.PublishMeaning | vast_csi/plugins/nfs.py:676-760 | success puts the requested export on top, over the call's own record if it mounted anew; otherwise only a stale volume may go and one layer come |
| NfsNode.RepeatedPublish | vast_csi/plugins/nfs.py:678-703 | repeating a successful publish succeeds if and only if it mounted nothing or in the requested mode; else it is a conflict |
| NfsNode.RepeatedWithFlags | vast_csi/plugins/nfs.py:721-752 | that is, if and only if the flags passed on ask for no mode or for the requested one |
| NfsNode.ReadonlyFlagConflicts | vast_csi/plugins/nfs.py:696-700 | `ro` among the flags of a request that is not read-only: the repetition is a conflict |
| NfsNode.PublishLoses | vast_csi/plugins/nfs.py:621-760 | from every state, a publish leaves the volume lost exactly when it makes it without a record, or it was lost and no record is left |
| NfsNode.AfterExplained | vast_csi/plugins/nfs.py:606-817 | each call, stopped anywhere, keeps the shape of the target, and the volume is lost after it exactly if the call lost it, or it was lost and the call left no record |
| NfsNode.RunWellFormed | vast_csi/plugins/nfs.py:606-817 | over every run: tmpfs layers with at most one export on top, over a record |
| NfsNode.LossHasCause | vast_csi/plugins/nfs.py:606-817 | at the end of any run of the two calls, stopped anywhere, the volume is lost if and only if some publish lost it, or it was lost at the start, and no later publish left a record |
| NfsNode.RetryFinds | vast_csi/plugins/nfs.py:621-760 | a failed publish whose retry mounts the volume loses nothing |
| NfsNode.Target.NodePublishVolume | vast_csi/plugins/nfs.py:606-760 | the exact new state and when it succeeds or conflicts, for any faults; the volume is lost exactly as `Loses` and `Finds` say |
| NfsNode.Target.UnmountVolume | vast_csi/plugins/nfs.py:778-799 | the unmount loop leaves exactly the layers of the attempts that went through, and tells the volume unmounted exactly when it was seen to be |
| NfsNode.Target.RemoveRecord | vast_csi/plugins/nfs.py:800-817 | runs without a volume layer; the exact new state and success: the record, the topmost tmpfs, the credentials, the directory in this order |
| NfsNode.Target.HandleRecord | vast_csi/plugins/nfs.py:800-810 | the exact new state: the record is processed, then removed where the path leads |
| NfsNode.Target.ProcessRecord | vast_csi/plugins/base.py:613-656 | the backend volume is deleted exactly for an ephemeral record without bucket, and the deletion is logged |
| NfsNode.Target.UmountTmpfs | vast_csi/filesystem_utils.py:636-644 | removes the topmost layer only if it is tmpfs |
| NfsNode.Target.SetTopMeta | vast_csi/plugins/base.py:607-610 | writes where the path leads, the topmost layer, and logs what that layer was |
| NfsNode.Target.NodeUnpublishVolume | vast_csi/plugins/nfs.py:772-817 | the exact new state and success for any faults and any number of attempts; the volume is neither lost nor found |
| NfsNode.UnpublishKeeps | vast_csi/plugins/nfs.py:772-817 | an unpublish stopped anywhere keeps the shape, and neither loses nor finds the volume |
| NfsNode.FinishedUnpublish | vast_csi/plugins/nfs.py:772-817 | it finishes if and only if the directory is gone, and then no layer and no record is left, and the backend volume exactly if it was lost |
| NfsNode.UnpublishProgress | vast_csi/plugins/nfs.py:772-817 | it never mounts anything; undisturbed it finishes or strictly reduces the layers, and finishes at once over one tmpfs layer with two attempts; without an attempt nothing moves |
| NfsNode.Target.Run | vast_csi/plugins/nfs.py:606-817 | every run leaves exactly the state of its calls, one after the other, so the lemmas over runs apply; records only ever written to tmpfs, no record, backend volume or directory deleted while a volume is mounted |
| NfsNode.Target.UnpublishUntilDone | vast_csi/plugins/nfs.py:772-817 | from every state, retries end within one call more than there are layers, and leave the backend volume if and only if it was lost before |
| NfsNode.RunThenUnpublish | vast_csi/plugins/nfs.py:606-817 | after any run from a fresh target, unpublished until done, the backend volume is left if and only if some publish of the run lost it and no later one left a record |
| NfsNode.PublishThenUnpublish | vast_csi/plugins/nfs.py:621-760 | published once with any faults and unpublished, the backend volume is left if and only if it was made and its record was not written or was cleaned up |
| NfsNode.FailedMountLosesVolume | vast_csi/plugins/nfs.py:746-760 | a failed mount with a working cleanup loses the volume |
| NfsMeaning.PathPartOf | vast_csi/plugins/nfs.py:682-683 | the path of a mount is what follows the first colon, for every server and path |
| NfsMeaning.OtherExport | vast_csi/plugins/nfs.py:681-695 | with another export mounted the call is a conflict that changes nothing if and only if the paths differ; with the same path on another server the old entry gives way to record and new export |
| NfsMeaning.SameExport | vast_csi/plugins/nfs.py:696-703 | with the same export mounted nothing changes, and the call succeeds if and only if the mode is the requested one, else it is a conflict |
| NfsMeaning.FreeTarget | vast_csi/plugins/nfs.py:676-760 | without an export it is never a conflict and succeeds if and only if every step works; what is on the target after each failing step |
| NfsMeaning.ProvisionFirst | vast_csi/plugins/nfs.py:621-654 | the backend volume is made exactly for an ephemeral mount without bucket whose CreateVolume works; if provisioning fails nothing is mounted |
| NfsMeaning.UnpublishMounted | vast_csi/plugins/nfs.py:778-817 | a published target is finished if and only if two attempts are allowed and the unmount works, or times out with the lazy one enabled and working; the exact state otherwise |
| NfsMeaning.UnpublishRecord | vast_csi/plugins/nfs.py:800-817 | a record alone: finished if and only if each needed step works; the backend volume goes exactly for a processed record of an ephemeral mount without bucket; each step keeps what is after it |
| NfsMeaning.UnpublishNothing | vast_csi/plugins/nfs.py:772-776 | no directory: done, and nothing changes |
| Replication.FromStringExact | vast_csi/plugins/replication.py:84-95 | for any upper-casing of characters, a text is read as a role if and only if it spells that role, spaces for underscores, or N/A |
| Replication.ValueReadsBack | vast_csi/plugins/replication.py:84-95 | what the backend reports for a role is read as that role |
| Replication.SpellingReads | vast_csi/plugins/replication.py:84-95 | however a role is spelled, in either case and with spaces or underscores, it is read as that role |
| Replication.NamesDistinct | vast_csi/plugins/replication.py:65-82 | no two roles share a name |
| Replication.TransitionalRoles | vast_csi/plugins/replication.py:103-105 | the substring test is true of exactly the nine roles on the way to another |
| Replication.PromoteDescends | vast_csi/plugins/replication.py:516-554 | an accepted promotion step strictly lowers the role rank; where none is possible the path is in transit, at SOURCE, outside the roles, or standalone under graceful promotion |
| Replication.ProtectedPath.ReadRole | vast_csi/plugins/replication.py:510 | the role of the record, through the parser, is the role of the path |
| Replication.ProtectedPath.PromoteVolume | vast_csi/plugins/replication.py:462-563 | succeeds exactly on a path read as SOURCE, which ends enabled; sends the one request its role asks for, none in transition |
| Replication.ProtectedPath.EnsureEnabled | vast_csi/plugins/replication.py:556-561 | enables unless enabled, failing only when a needed request is refused |
| Replication.ProtectedPath.EnableVolumeReplication | vast_csi/plugins/replication.py:358-401 | succeeds exactly on a path that is found, active or active in time, and enabled or accepted; requests no role change |
| Replication.ProtectedPath.DisableVolumeReplication | vast_csi/plugins/replication.py:407-456 | a missing or unreachable path counts as disabled, an error status does not; no role change |
| Replication.ProtectedPath.DemoteVolume | vast_csi/plugins/replication.py:569-621 | only enables replication; an unreachable cluster counts as demoted, a missing path does not; no role change |
| Replication.ProtectedPath.ResyncVolume | vast_csi/plugins/replication.py:627-688 | replicates exactly on SOURCE with a protection policy, fails in transition, does nothing elsewhere; `ready` exactly on a success that found SOURCE active or another role; no role change |
| Replication.ProtectedPath.Run | vast_csi/plugins/replication.py:358-688 | over any events the rank never rises; from DESTINATION ungraceful requests are a prefix of failover then force_failover, from STANDALONE of force_failover, from SOURCE none; a success saw them all |
| Replication.ProtectedPath.PromoteUntilDone | vast_csi/plugins/replication.py:483-563 | retried ungraceful promotion over any rounds ends at SOURCE, enabled, at the latest with the third call that is neither refused nor in transition; only the first two of those request anything |
| Replication.ProtectedPath.PromoteGracefully | vast_csi/plugins/replication.py:479-481 | retried graceful promotion from DESTINATION ends at SOURCE with exactly one failover, at the latest with the second useful call; from STANDALONE it never succeeds and requests nothing |
| WorkerPool.StepConserves | vast_csi/metrics.py:998-1012 | each worker step keeps, for each record, the sum of appended and still owed copies |
| WorkerPool.TakeConserves | vast_csi/metrics.py:1001-1005 | taking a directory moves what is owed from the queue to the worker |
| WorkerPool.AppendConserves | vast_csi/metrics.py:1006-1008 | appending moves what is owed into the list |
| WorkerPool.StepCounts | vast_csi/metrics.py:998-1012 | each worker step keeps the queue's unfinished count exact |
| WorkerPool.ProduceConserves | vast_csi/metrics.py:1021-1031 | each producer step keeps that sum |
| WorkerPool.ProduceCounts | vast_csi/metrics.py:1021-1031 | each producer step keeps the count |
| WorkerPool.RunConserves | vast_csi/metrics.py:994-1033 | conservation holds under every schedule |
| WorkerPool.RunCounts | vast_csi/metrics.py:994-1033 | the count is exact under every schedule |
| WorkerPool.PoolResults | vast_csi/metrics.py:994-1033 | once the join has returned the list is, as a multiset, the non-empty, non-raising parse of each directory once |
| WorkerPool.TotalsIndependentOfSchedule | vast_csi/metrics.py:1158-1181 | every published total is the same for any two schedules and numbers of workers |
| WorkerPool.StepsCost | vast_csi/metrics.py:994-1033 | every step that does anything lowers a bound, so no schedule runs for ever |
| WorkerPool.PoolProgress | vast_csi/metrics.py:994-1033 | with at least one worker some step is possible until all workers have stopped |
| WorkerPool.PillsMatchWorkers | vast_csi/metrics.py:1028-1031 | once the producer has returned, queued pills equal running workers, and a stopped worker stays stopped |
| WorkerPool.NoWorkersNoResult | vast_csi/metrics.py:1014-1027 | without workers the join never returns on a non-empty list |
| XprtGauges.RelevantCorrect | vast_csi/metrics.py:1158-1166 | the filter keeps exactly the transports of mounted destinations |
| XprtGauges.LastColon | vast_csi/metrics.py:1162-1163 | the port is cut at the last colon only |
| XprtGauges.ShownKeys | vast_csi/metrics.py:1187-1217 | a gauge has exactly the labels of the transports it shows |
| XprtGauges.ShownLast | vast_csi/metrics.py:1187-1217 | of several transports of one destination the last is shown |
| XprtGauges.ShownMeans | vast_csi/metrics.py:1187-1217 | a destination is the address without its port; connected takes both flags, congested either of two, in terms of its last transport |
| XprtGauges.Filter | vast_csi/metrics.py:1158-1166 | the filtering loop computes `Relevant` |
| XprtGauges.Gauges.SetPerTransport | vast_csi/metrics.py:1183-1217 | the loop sets five gauges per transport and collects the destinations |
| XprtGauges.Gauges.SetMounts | vast_csi/metrics.py:1219-1223 | the loop sets the mount count of each destination |
| XprtGauges.Gauges.Pop | vast_csi/metrics.py:1228-1240 | all six labels go if all six are there; the first missing one ends the pops |
| XprtGauges.Gauges.Remove | vast_csi/metrics.py:1225-1240 | the removal loop misses no key when every gauge has every removed label |
| XprtGauges.Gauges.Refresh | vast_csi/metrics.py:1183-1243 | setting current labels and removing vanished ones leaves exactly the current readings |
| XprtGauges.Gauges.Update | vast_csi/metrics.py:1150-1243 | after an update all six gauges have exactly the destinations of relevant transports, the remembered set, with this update's readings |
| XprtGauges.Gauges.Run | vast_csi/metrics.py:1146-1243 | after any number of updates the gauges show what the last one found, and nothing older |
| XprtSchedules.DisplayIndependence | vast_csi/metrics.py:994-1217 | with two workers, a gauge shows the same for a destination under all schedules if and only if all its transports agree on the reading |
| XprtSchedules.DisagreementShows | vast_csi/metrics.py:994-1217 | otherwise two schedules that show different values |
| XprtSchedules.AnyCanBeLast | vast_csi/metrics.py:998-1033 | with two workers any directory's record can be appended last |
| XprtSchedules.DisplayFrom | vast_csi/metrics.py:1158-1217 | a destination is shown exactly when a directory reports it, with the reading of one that does |
| ValidationCache.VolumeGroupValidationCache.Lookup | vast_csi/lru_cache.py:158-183 | a lookup returns the group's ids and makes it most recent |
| ValidationCache.VolumeGroupValidationCache.AreAllValidated | vast_csi/lru_cache.py:158-183 | true exactly when the group is cached with all ids |
| ValidationCache.VolumeGroupValidationCache.AddValidated | vast_csi/lru_cache.py:185-199 | the new cache is `Add` of the old, and fails only at size zero |
| ValidationCache.VolumeGroupValidationCache.Clear | vast_csi/lru_cache.py:201-212 | clears one group, or everything for an empty id |
| ValidationCache.AddWellFormed | vast_csi/lru_cache.py:185-199 | adding keeps the recency list duplicate-free, equal to the keys and within the bound |
| ValidationCache.TouchWellFormed | vast_csi/lru_cache.py:158-183 | a lookup keeps it |
| ValidationCache.ClearedWellFormed | vast_csi/lru_cache.py:201-212 | a clear keeps it |
| ValidationCache.ClearForgets | vast_csi/lru_cache.py:201-212 | a clear forgets its group and no other, or all without an id |
| ValidationCache.UseKeepsOrder | vast_csi/lru_cache.py:158-183 | using a group keeps the list ordered by time of last use |
| ValidationCache.AddKeepsOrder | vast_csi/lru_cache.py:185-199 | adding with eviction keeps it ordered by time of last use |
| ValidationCache.AddEvictsLeastRecent | vast_csi/lru_cache.py:185-199 | the evicted group was used before every group that is kept, and those keep their ids |
| ValidationCache.RunOrdered | vast_csi/lru_cache.py:158-212 | in every interleaving the cache is ordered by time of last use |
| ValidationCache.RunEvictsLeastRecent | vast_csi/lru_cache.py:185-199 | in every interleaving a group dropped other than by a clear is the least recently used, dropped from a full cache, and the others keep their ids |
| ValidationCache.BasenameTwice | vast_csi/plugins/volumegroup.py:207-213 | normalising an id twice is normalising it once |
| ValidationCache.RunSound | vast_csi/plugins/volumegroup.py:431-469 | in every interleaving each cached id was found by a check for that group, as the name of a view whose path starts with the base directory, and the cache stays well formed |
| ValidationCache.ModifySoundness | vast_csi/plugins/volumegroup.py:377-469 | a Modify call succeeds only if each id was so found for the same group, now or earlier; the cache stays within its bound |
| ValidationCache.ModifyAnswers | vast_csi/plugins/volumegroup.py:431-469 | an undisturbed Modify succeeds if and only if all ids are cached for the group, or all are names of views under the base directory and the cache has room for a group; it then remembers exactly them besides those known |
| ValidationCache.ModifyInDir | vast_csi/plugins/volumegroup.py:431-469 | with base directories given with a trailing slash, each id was found inside the base directory |
| ValidationCache.ListingExact | vast_csi/plugins/volumegroup.py:389-398 | whatever views there are, the check accepts only volumes inside the base directory, if and only if that ends with a slash |
| ValidationCache.ListingComplete | vast_csi/plugins/volumegroup.py:389-393 | every volume inside the base directory is accepted |
| ValidationCache.SiblingAccepted | vast_csi/plugins/volumegroup.py:431-469 | for every group, directory without trailing slash and name, a run in which Modify accepts a volume beside the directory |
| DataDirectory.Backend.CreateVolume | vast_csi/builders/nfs.py:139-168 | the exact new store and success, stopped anywhere |
| DataDirectory.Backend.CreateSnapshot | vast_csi/plugins/nfs.py:483-559 | succeeds exactly when one quota has the name; the exact new store |
| DataDirectory.Backend.RemoveData | vast_csi/plugins/nfs.py:247-266 | the directory goes exactly when no snapshot of it is left |
| DataDirectory.Backend.DeleteAt | vast_csi/plugins/nfs.py:355-376 | data, view, quota in this order: the exact store wherever it stops; completes exactly undisturbed and not barred by snapshots in trash mode |
| DataDirectory.Backend.DeleteVolume | vast_csi/plugins/nfs.py:351-379 | the exact store wherever it stops, for no, one and several volumes found by the id |
| DataDirectory.DeleteAtOrphans | vast_csi/plugins/nfs.py:355-376 | wherever it stops, no directory is left without quota and snapshot |
| DataDirectory.AfterDeleteResumes | vast_csi/plugins/nfs.py:355-376 | wherever it stops, the quota is still there and finishing leads to the same store, or all of the volume is gone |
| DataDirectory.DeleteResumes | vast_csi/plugins/nfs.py:351-379 | the same for a retry that looks the volume up by its id again |
| DataDirectory.OwnVolumeGoes | vast_csi/session/resources.py:534-541 | a delete completes and nothing but the own volume goes if and only if no other volume's path ends with the id |
| DataDirectory.ForeignVolumeGoes | vast_csi/plugins/nfs.py:351-379 | otherwise, with the own volume gone, the other one goes, data included unless it has a snapshot |
| DataDirectory.ForeignPathExample | vast_csi/session/resources.py:534-541 | such paths exist |
| DataDirectory.Backend.DeleteSnapshot | vast_csi/plugins/nfs.py:561-580 | the exact store wherever it stops, and when it succeeds |
| DataDirectory.DropSparesOwned | vast_csi/plugins/nfs.py:561-580 | data goes only with its last snapshot and without a quota, and repeating the call changes nothing |
| DataDirectory.Backend.DeleteVolumeUntilDone | vast_csi/plugins/nfs.py:351-379 | stopped anywhere any number of times and then completed, the store is that of one undisturbed call, and the orphans are the same |
| DataDirectory.Backend.Run | vast_csi/plugins/nfs.py:351-580 | every run leaves exactly the store of its calls, one after the other, so the lemmas over runs apply |
| DataDirectory.Backend.Step | vast_csi/plugins/nfs.py:351-580 | that, for one call of any kind stopped anywhere |
| DataDirectory.AfterExplained | vast_csi/plugins/nfs.py:351-580 | after any call the orphans are those before, without a path that gets a quota, and with the path that a torn create, a torn snapshot deletion or a hidden one loses |
| DataDirectory.OrphanHasCause | vast_csi/plugins/nfs.py:351-580 | at the end of any run a directory is orphaned if and only if a torn create, a torn snapshot deletion or a hidden one left it so, or it was so at the start, and no later create completed on it |
| DataDirectory.AfterHollow | vast_csi/plugins/nfs.py:351-580 | after any call a view is without its directory exactly if a deletion took the data and not the view, or it was so before and no deletion came to the view |
| DataDirectory.HollowHasCause | vast_csi/plugins/nfs.py:351-580 | at the end of any run a view is without its directory if and only if such a deletion made it so, or it was so at the start, and no later deletion came to the view |
| DataDirectory.CreateOverHollow | vast_csi/builders/nfs.py:139-168 | a completed create leaves a volume without a directory if and only if it finds such a view |
| DataDirectory.TornDeleteHollows | vast_csi/plugins/nfs.py:355-376 | for every path, a delete stopped between data and view and the volume created again give such a volume |
| DataDirectory.Backend.RunApart | vast_csi/plugins/nfs.py:351-580 | without torn creates and snapshot deletions, on paths that do not contain each other, nothing is ever orphaned |
| DataDirectory.WholeLosesNothing | vast_csi/plugins/nfs.py:561-580 | on such paths no untorn call loses a directory |
| DataDirectory.TornCreateLeavesOrphan | vast_csi/builders/nfs.py:147-160 | for every path, a torn create followed by a completed delete leaves an orphan |
| DataDirectory.TornDeleteLeavesOrphan | vast_csi/plugins/nfs.py:561-580 | for every path, a torn snapshot deletion retried to completion leaves an orphan |
| DataDirectory.ApartNamesOwn | vast_csi/session/resources.py:575-578 | on such paths the containment query finds exactly the path's own snapshots |
| DataDirectory.OwnIsContained | vast_csi/session/resources.py:575-578 | the containment query never misses an own snapshot |
| DataDirectory.ContainedPathLeavesOrphan | vast_csi/plugins/nfs.py:561-580 | for all distinct paths of which one contains the other there is a run of completed calls that leaves an orphan |
| DataDirectory.ContainedPathExample | vast_csi/session/resources.py:534-541 | such paths exist |
| DirectoryMeaning.SnapshotBarsDelete | vast_csi/plugins/nfs.py:356-359 | in trash mode a snapshot whose path contains the volume's makes DeleteVolume fail and change nothing, wherever it stops |
| DirectoryMeaning.DeleteGoesThrough | vast_csi/plugins/nfs.py:351-379 | without one, or outside trash mode, the undisturbed call completes: view and quota go, the directory too unless a snapshot was taken of it, and nothing else |
| DirectoryMeaning.DeleteOrder | vast_csi/plugins/nfs.py:360-376 | wherever it stops: while the data is there nothing has gone, and the quota goes only after the view, with a completed call |
| DirectoryMeaning.DeleteFindsNotOne | vast_csi/session/resources.py:129-145 | no volume of the name: done; several: an error; nothing changes either way |
| DirectoryMeaning.SnapshotOf | vast_csi/plugins/nfs.py:483-559 | CreateSnapshot records the path of the one volume whose path ends with the name; for none or several there is no snapshot |
| DirectoryMeaning.DropExact | vast_csi/plugins/nfs.py:561-580 | an undisturbed DeleteSnapshot takes the directory exactly if its path has no quota and no other snapshot's path contains it; with clone streams nothing changes |
| DirectoryMeaning.CreateDeleteCreate | vast_csi/builders/nfs.py:139-168 | create makes directory, view and quota, and delete undoes it |
| DirectoryMeaning.ContainsExact | vast_csi/session/resources.py:575-578 | the containment query is true exactly of paths with the other one somewhere in them |
| CosiBucket.BucketIdRoundTrip | vast_csi/plugins/cosi.py:47-60 | an id reads back if and only if name and tenant hold no '@' |
| CosiBucket.ParseRebuilds | vast_csi/plugins/cosi.py:56-60 | what is read is what was written, and exactly the written texts are read |
| CosiBucket.CutAtFirst | vast_csi/builders/cosi.py:304-314 | a joined part is read back up to its own first '@' |
| CosiBucket.OwnerDecisionAgrees | vast_csi/cosi_owner.py:30-51 | delete removes the user exactly for the parameters for which create makes it, and an external owner never has the bucket's name |
| CosiBucket.ResolveOwnerExact | vast_csi/cosi_owner.py:30-51 | which owners are accepted, space and letter case aside: none without context, or one other than the bucket with one of the four contexts; delete removes the user exactly if there is none |
| CosiBucket.BucketPathEnds | vast_csi/session/resources.py:369-372 | a bucket's path ends with its name |
| CosiBucket.BucketPathExact | vast_csi/session/resources.py:369-372 | for every root: the root without outer space and then without outer slashes, between slashes, before the name; a root of nothing else is left out |
| CosiBucket.BucketPathTells | vast_csi/session/resources.py:369-372 | two trimmed roots give one name the same path only if they are the same |
| CosiBucket.RetriesConverge | vast_csi/plugins/cosi.py:113-145 | deletes stopped anywhere any number of times and then finished equal one undisturbed delete, if and only if the context names the view's folder, there is no view, or neither folder exists |
| CosiBucket.DivergingRetry | vast_csi/plugins/cosi.py:132-143 | otherwise one stop between view and folder makes the folders differ |
| CosiBucket.OwnQuotaGoes | vast_csi/session/resources.py:101-109 | a delete completes and takes the own quota and no other if and only if no other quota of the tenant ends with the bucket name |
| CosiBucket.TwoQuotasBlock | vast_csi/session/resources.py:129-145 | two such quotas: no retry ever completes |
| CosiBucket.ForeignQuotaGoes | vast_csi/session/resources.py:534-541 | no own quota and one other: the other one goes |
| CosiBucket.SuffixExample | vast_csi/session/resources.py:534-541 | buckets b and ab under any root are such a pair |
| CosiBucket.Backend.EnsureView | vast_csi/builders/cosi.py:327-388 | exactly when it succeeds, and the exact user, view and folder wherever it stops; a view is made once, at the bucket's path; one of another owner is a conflict |
| CosiBucket.Backend.EnsureRules | vast_csi/builders/cosi.py:284-285 | the named rules are added one by one; it succeeds exactly when each step does |
| CosiBucket.Backend.PostProvision | vast_csi/builders/cosi.py:281-301 | rules and quota, for both kinds of bucket: exactly when it succeeds; at most the view's own quota is made, one of another size is a conflict |
| CosiBucket.Backend.EnsureClone | vast_csi/builders/cosi.py:414-472 | exactly when a clone succeeds, aborts or raises, and what is there then; a raise takes the managed user, so a view loses its owner exactly when an attempt raises over it |
| CosiBucket.Backend.CloneView | vast_csi/builders/cosi.py:435-466 | snapshot, stream and view in order, wherever it stops; the first failing step decides how it ends |
| CosiBucket.Backend.DriverCloneBucket | vast_csi/plugins/cosi.py:98-101 | the same for the whole call, with its rules and quota |
| CosiBucket.Backend.DriverCreateBucket | vast_csi/builders/cosi.py:281-301 | exactly when it succeeds, and the exact user, view, folder and quota wherever it stops; no rule is without a view |
| CosiBucket.Backend.DeleteRules | vast_csi/plugins/cosi.py:132-135 | the listed rules go one by one, and stopping leaves a part of them |
| CosiBucket.Backend.DeleteClone | vast_csi/plugins/cosi.py:115-127 | stream, snapshot, and the user exactly when asked, each exactly once its step is done |
| CosiBucket.Backend.DeleteQuota | vast_csi/session/resources.py:101-109 | fails exactly when more than one quota ends with the bucket name; else what is found goes |
| CosiBucket.Backend.DeleteAll | vast_csi/plugins/cosi.py:113-145 | the store is exactly that of an undisturbed delete, or of one stopped after some steps; no rule outlives its view; success exactly when undisturbed with at most one quota found |
| CosiBucket.Backend.DriverDeleteBucket | vast_csi/plugins/cosi.py:113-145 | the same with the decisions of the delete context |
| CosiBucket.Backend.DeleteUntilDone | vast_csi/plugins/cosi.py:113-145 | any stopped deletes and then an undisturbed one are a list of attempts, so `RetriesConverge` applies; it completes if and only if at most one quota is found |
| CosiBucket.Backend.CreateThenDelete | vast_csi/plugins/cosi.py:98-145 | create, stopped anywhere, then delete leaves nothing of the bucket, an existing user of its name exactly for an external owner, and exactly the other quotas if and only if no other ends with its name |
| CosiBucket.Backend.CloneThenDelete | vast_csi/plugins/cosi.py:98-145 | the same for a cloned bucket, its stream, snapshot and folder included |
| CosiBucket.CreateTwice | vast_csi/builders/cosi.py:281-388 | undisturbed, a new bucket is made with all its parts unless a quota of another size is in the way, and made again nothing changes |
| CosiBucket.CloneTwice | vast_csi/builders/cosi.py:414-466 | the same for a cloned bucket, with its snapshot and stream |
| CosiBucket.OtherOwnerConflicts | vast_csi/builders/cosi.py:352-367 | a bucket of another owner is a conflict for both kinds of create, and nothing of it changes |
| CosiBucket.DeleteOrder | vast_csi/plugins/cosi.py:113-145 | wherever a delete stops: while the stream is left nothing else has gone, then the snapshot, the user, the view with its rules, the folder, and last the quota |
| CosiBucket.DivergingDelete | vast_csi/plugins/cosi.py:132-145 | for every store and context that do not converge, a run of the driver that ends with other folders |
| CosiBucket.RaisingCloneTakesOwner | vast_csi/builders/cosi.py:467-472 | for every existing clone, a repeated attempt that raises at any guarded step leaves its view without the user that owns it |
| SubsystemWalk.DirnameShape | vast_csi/plugins/volumegroup.py:529-534 | one step up reaches the nearest directory above, or there is none |
| SubsystemWalk.DoubleSlashStays | vast_csi/plugins/volumegroup.py:534 | a leading double slash is never climbed away |
| SubsystemWalk.EndsExactly | vast_csi/plugins/volumegroup.py:529-534 | the loop ends if and only if the path has no leading double slash or a view stops it |
| SubsystemWalk.ClimbToView | vast_csi/plugins/volumegroup.py:529-534 | the loop ends at the first directory up that stops it |
| SubsystemWalk.FindSubsystem | vast_csi/plugins/volumegroup.py:521-538 | the first directory up that has a view is returned; without a leading double slash it is the nearest view above, and NOT_FOUND means there is none |
| SubsystemWalk.RelativeRebuilds | vast_csi/plugins/volumegroup.py:625-628 | path, slash and relative prefix rebuild the directory if and only if one slash separates them |

## Left out

- Capability.HopKeepsFlags: one direction only, because the converse fails (`UnbalancedFlagsCanSurvive`); the exact condition is that of `OptionsTextReadsBack`, on the list.
- SubsystemWalk.FindSubsystem: the precondition is that the loop ends; for other inputs the code does not return.
- CosiBucket.Backend.DriverCreateBucket: looking up an external owner is a parameter, and the expiry of clone snapshots is not modelled.
- Replication.ProtectedPath.ResyncVolume: does not model the expiry timestamps of the new snapshot.
- HostPrune.PruneSafety: assumes one controller process, and a volume context that carries the volume's tenant.
- HostMappings.SingleNodeOnce: one direction only, because overlapping calls map twice in some interleavings and not in others; from every state with two such calls there is one in which they do (`OverlapMapsTwice`).
- DataDirectory.Backend.RemoveData: assumes that volume directories are not nested in each other.
- BlockEphemeral: raw block volumes, staged volumes and LUKS devices.
- Changing the message of a lock while it is held (vast_csi/plugins/block.py:834-836).
- The flags a mock installation adds to every NFS mount (vast_csi/plugins/nfs.py:102-103).
- OptionOrders.OrderIrrelevantExactly: leaves out spaces and brackets inside a piece, which the reader drops: there different options can be read alike and the condition is not the same (`SpacedPiecesCoincide`).
- BlockEphemeral.TornUnpublishKeepsDevice: the failing Publish over a device that can no longer be read is not modelled.
- Mounts that complete after their timeout, node reboots and symbolic links on the target path.
- Aggregate gauges other than through `TotalsIndependentOfSchedule`, and the NVMe controller gauges.
- Volume group ids, membership of block groups and volume expansion, which read or write one backend object each; cloning of NFS and block volumes, which waits on streams of the backend.
- The Go controllers, the gRPC servers, the session layer beyond the cited queries, encryption, mTLS setup and the scripts.
