# Stockyard daemon: a verified model

Stockyard runs tasks in Firecracker VMs. A task is a database row, a VM (process, directory, TAP
device, rootfs clone), a ZFS workspace and an address; creating and destroying one changes all of
them in steps that can each fail, be cancelled, or be cut off by a crash of the daemon. This
project models that protocol and the parts around it, and proves what they guarantee.

## What is modelled

- `KeyedLock` - the per-task lock as a concurrent step system: any number of goroutines, any ids,
  every interleaving of the two mutex levels, plus the mutable lock table itself.
- `Lifecycle`, `LifecycleTheorems` - create, restart, stop, fail, restore and destroy as a labelled
  step system over the four stores. A label carries every choice of the environment (how a step
  ends, what a failed backend call leaves behind, a cancelled context, a process that dies, a
  crash), so a run is any sequence of labels. The theorems are about all reachable worlds and all
  runs.
- `LockedLifecycle` - the protocol under the real lock: goroutines take every step of the lock and
  work only while inside it, and each of their runs is proved to be a run of the protocol. Progress
  is proved there too: every run without new work ends, and a requested destroy completes.
- `TaskManager` - the same operations as the code performs them, in place on mutable stores, with
  arbitrary steps of other goroutines between any two of their own. Every store change is proved to
  be one step of the protocol, so the operations inherit its theorems.
- `TaskTable` - the tasks table with its guards and its status callback.
- `IPv4`, `AllocationDoc`, `IpPool` - the byte-carry walk over a subnet, the allocation file as JSON
  tokens, and the pool: save to a temporary file, rename, then commit to memory.
- `OrphanAudit`, `LifecycleAudit` - the audit's reconciliation loops, proved equivalent to a plain
  statement about the inventory, and what that verdict means for a world the lifecycle can reach.
- `ImageRegistry` - images in a table and in ZFS, changed together by steps that can all fail.
- `Firecracker` - finding a VM's process through stable handles on a host that changes between any
  two system calls, stopping it, and deleting the VM.
- `ConsoleArchive`, `Prune` - archive names, their order, truncation, and retention.
- `Framing`, `ShellQuote` - length-prefixed messages on streams, and quoting for a POSIX shell.
- `Common` - shared vocabulary.

The database, ZFS, `ip`, /proc, sockets, signals and clocks appear as outcomes: parameters that
say how each call ends. An outcome of a backend or ZFS call also says what it leaves behind, within
its documented contract (an error may leave anything, nil of `DeleteVM` means verified absent).

## Findings

- After a goroutine has finished its function it can still hold a locked lock entry that the table
  no longer knows, while another goroutine is already inside for the same id
  (`KeyedLock.DetachedEntryCanOverlap`). That is the only overlap: whoever owns an entry beside a
  runner of the same id has dropped its reference, and its entry is not the runner's
  (`KeyedLock.OverlapOnlyDetached`). Mutual exclusion of the functions holds all the same.
- A daemon that dies between allocating a task's address and recording the task leaves resources
  that no row leads to, and these are the only orphans a crash makes: an id without a row that
  nobody was creating is an orphan afterwards exactly if it had something on the host or in the
  state file before (`LifecycleTheorems.CrashLeaksExactlyCreates`,
  `LifecycleTheorems.CrashOrphansAreCutCreates`; `LifecycleTheorems.CrashedCreateLeaks` is one such
  run). It is safe, since the address stays allocated, but no later run of operations reaches what
  is left: workspace, directory, TAP, rootfs clone and address stay for good
  (`LifecycleTheorems.NothingReachesOrphans`); the audit reports it as an orphan.
- A failed create whose clean-up meets no fault does not always leave nothing. It does if and only
  if neither an allocation was saved by a rename whose directory sync failed, nor a failed
  `zfs create` made the dataset, for which the clean-up does not look
  (pkg/daemon/tasks.go:131-135). `TaskManager.TaskManager.CreateTask` states the condition;
  `LifecycleTheorems.HalfSavedCreate` and `LifecycleTheorems.HalfMadeWorkspace` show both failing
  inputs in every world in which they can occur.
- The gateway is withheld from the pool exactly when it is configured in canonical dotted text,
  because it is compared as text (`IPv4.GatewayWithheld`).
- Two image names can want one dataset; the collision check keeps them apart
  (`ImageRegistry.NamesCollide`, `ImageRegistry.RunSparesImage`).
- An import can fail without any fault of its own: exactly when an unregistered dataset holding
  @base is in its way, which it then removes, so that the next import succeeds
  (`ImageRegistry.FaultFreeImport`).
- `EnsureDefault` reads a failing snapshot query as a missing snapshot, and the import it then starts
  can destroy the default dataset. An existing snapshot is lost if and only if the query fails, the
  import gets past `zfs create`, its clean-up leaves no snapshot, and no disks are cloned from the
  dataset (`ImageRegistry.EnsureDefaultOnBase`, for every outcome of every step). No other operation
  but a new import of the default image can lose it (`ImageRegistry.DefaultSurvives`, over runs).
- The tasks table refuses to write cleanup_pending except by its marking operation, but an ordinary
  update can take a row out of it (`TaskTable.UpdateCanLeavePending`). A pending row stays pending
  over a run of table operations if and only if none of them is a written update of it to another
  status or its deletion (`TaskTable.PendingUnlessEscape`); that no such update happens is due to
  the checks under the task's lock (`LifecycleTheorems.SealedStays`).
- The name of a TAP device keeps eight characters of the VM's id, so "nothing of another VM changes"
  rests on the ids having no more, as generated ones do (`Firecracker.TapsApart`).
- In the audit, the branches for an owner found in the wrong task table, and for a duplicate VM id,
  cannot be taken: both tables always have the same keys (`OrphanAudit.Audit.IndexTasks`).
- Writers of framed messages do not check sizes; a message is read back exactly if its payload is
  within the reader's limit (`Framing.FrameRoundTrip`).

## Model

| member | source | states |
|---|---|---|
| KeyedLock.RunKeepsInv | pkg/daemon/task_lifecycle.go:34-61 | after every run of any number of goroutines, both mutex levels agree with the program points, counted goroutines hold the current entry of their id, and every entry's count is the number of goroutines between admission and release |
| KeyedLock.MutualExclusion | pkg/daemon/task_lifecycle.go:34-61 | in every interleaving at most one goroutine is inside fn for an id |
| KeyedLock.WaitersHoldCurrentEntry | pkg/daemon/task_lifecycle.go:39-51 | every waiter or runner for an id holds the entry the table currently maps the id to |
| KeyedLock.EntryExactlyWhileCounted | pkg/daemon/task_lifecycle.go:39-59 | an entry exists exactly while somebody is between admission and release, and refs is their number |
| KeyedLock.DetachedEntryCanOverlap | pkg/daemon/task_lifecycle.go:50-60 | a concrete interleaving in which a finished goroutine still owns a detached, locked entry while another is inside fn for the same id |
| KeyedLock.OverlapOnlyDetached | pkg/daemon/task_lifecycle.go:50-60 | in every run, a goroutine that owns an entry of an id while another is inside fn for that id has already dropped its reference, and the two entries differ |
| KeyedLock.SomebodyCanStep | pkg/daemon/task_lifecycle.go:34-61 | while a call is unfinished some goroutine can step: no deadlock between the table mutex and the entry mutexes |
| KeyedLock.QuiescentIsEmpty | pkg/daemon/task_lifecycle.go:52-59 | when every call is over, the table is empty and no mutex is held |
| KeyedLock.EveryScheduleDrains | pkg/daemon/task_lifecycle.go:34-61 | without new calls every schedule ends within a fixed number of steps, and one that cannot go on has finished every call and emptied the table |
| KeyedLock.BlockedWhileRunning | pkg/daemon/task_lifecycle.go:50-60 | a call queued behind a running one stays blocked whatever the others do, which is why operations under the lock must not enter it again |
| KeyedLock.LifecycleLocks.Acquire | pkg/daemon/task_lifecycle.go:35-45 | the admission section on the mutable table is the step system's Admit; the entry returned is the listed one and counted, and entries stay counted and unshared |
| KeyedLock.LifecycleLocks.Release | pkg/daemon/task_lifecycle.go:52-59 | the deferred release section is the step system's Drop; the entry stays listed exactly while others are counted on it |
| IPv4.ParseAddrExact | cmd/stockyard/gc_audit.go:636-639 | the reader accepts exactly the canonical text of an address and returns that address |
| IPv4.Increment | pkg/network/ip_pool.go:122-128 | the byte-carry loop adds one to the 32-bit value, wrapping past 255.255.255.255 |
| IPv4.StopsExact | pkg/network/ip_pool.go:130-140 | the two stop tests in 32-bit arithmetic fire exactly after the last host, for every prefix and where the address wraps around |
| IPv4.Walk | pkg/network/ip_pool.go:113-147 | the loop terminates and collects the hosts in order but the gateway |
| IPv4.GenerateAvailable | pkg/network/ip_pool.go:113-147 | the list generated is UsableList, characterised by the next rows |
| IPv4.UsableExact | pkg/network/ip_pool.go:113-147 | that list is every address strictly inside the network the gateway text does not denote, strictly ascending; nothing for /31 and /32 |
| IPv4.UsableTextExact | pkg/network/ip_pool.go:142-145 | as text: exactly the canonical addresses in the network other than the gateway text, none twice |
| IPv4.GatewayWithheld | pkg/network/ip_pool.go:142-145 | the gateway address is withheld if and only if the configured text is canonical |
| AllocationDoc.Marshal | pkg/network/ip_pool.go:258-265 | the written document lists exactly the map, each key once, in some order |
| AllocationDoc.UnmarshalRendered | pkg/network/ip_pool.go:331-334 | the pool reads back the map that was written, whatever the order |
| AllocationDoc.SameUsableSet | cmd/stockyard/gc_audit.go:618-647 | for a /24 the audit's usable set is exactly the pool's |
| AllocationDoc.DecodeAllocations | cmd/stockyard/gc_audit.go:573-616 | the inner reader accepts exactly objects with distinct canonical ids and distinct usable addresses, and returns their map and the position after them |
| AllocationDoc.ParseAllocations | cmd/stockyard/gc_audit.go:518-571 | the whole document is accepted if and only if it is one object whose only member is such an allocated object, and the answer is then that object's map |
| AllocationDoc.RenderedIsGood | cmd/stockyard/gc_audit.go:583-607 | a document the pool wrote is acceptable to the strict reader if and only if the map is injective with canonical ids and usable addresses |
| IpPool.RunKeepsInv | pkg/network/ip_pool.go:192-235 | over every run of allocations, releases, failed saves and reloads the usable set is the disjoint union of leased and available addresses without repeats, and the file's map is injective into it |
| IpPool.GeneratedPoolKeepsPartition | pkg/network/ip_pool.go:113-235 | the same for the addresses the pool really generates, from a new pool on |
| IpPool.AllocationSticks | pkg/network/ip_pool.go:196-199 | an allocation recorded on disk is returned again after every later run that does not release it, restarts included |
| IpPool.AllocatedForGood | pkg/network/ip_pool.go:192-214 | a new address handed out is the answer to every later allocation for that VM, over every run that does not release it, restarts and failed saves included |
| IpPool.WrittenStateIsAuditable | pkg/network/ip_pool.go:253-349 | every document a /24 pool can write with canonical ids is accepted by the audit as the recorded map, and reloading it gives that map and the rest of the addresses |
| IpPool.IPPool.PersistLocked | pkg/network/ip_pool.go:253-312 | for every pattern of file errors the file holds the old map or the proposed one; it reports success exactly if every step succeeded; a temporary file stays behind only if its removal failed |
| IpPool.IPPool.AllocateIP | pkg/network/ip_pool.go:192-215 | an address held already is the answer; otherwise it is the first available one, which leaves the list, if and only if the save succeeds, and a failed save leaves memory alone; the file holds its prior map or the proposed one |
| IpPool.IPPool.ReleaseIP | pkg/network/ip_pool.go:218-235 | a held address goes to the end of the available list if and only if the save succeeds, and a failed save leaves memory alone; the file holds its prior map or the proposed one |
| IpPool.IPPool.Restore | pkg/network/ip_pool.go:336-346 | in whatever order the map is visited, its allocations are added and exactly its addresses leave the available list |
| IpPool.IPPool.LoadState | pkg/network/ip_pool.go:315-349 | a missing file changes nothing, an unreadable one is an error without effect, a written one is taken over |
| IpPool.OpenPool | pkg/network/ip_pool.go:59-77 | a pool built over an existing file is exactly the reloaded pool |
| IpPool.FirstAfterReload | pkg/network/ip_pool.go:192-214 | after a restart the next address handed out is the first in pool order that the state file does not record |
| Lifecycle.RunKeepsInv | pkg/daemon/tasks.go:81-720 | the protocol's invariant holds after every run, whatever fails, is cancelled or crashes |
| Lifecycle.StepKeepsInv | pkg/daemon/tasks.go:116-720 | every step of every operation, with every outcome, keeps it for its own task and all others |
| Lifecycle.CrashKeepsInv | pkg/network/ip_pool.go:315-349 | a crash that reloads the pool from its file keeps it: every present VM still has its address |
| Lifecycle.MeetingIsHarmless | pkg/daemon/task_lifecycle.go:63-72 | a create (which takes no lock) and a locked call can meet on one id only before the latter has read the row, and then neither disturbs the other |
| LifecycleTheorems.PendingMeansAbsent | pkg/daemon/tasks.go:652-706 | in every reachable world a cleanup_pending row implies that VM and workspace are absent |
| LifecycleTheorems.SealedStays | pkg/daemon/state.go:390-393 | the only step out of cleanup_pending is the deletion of the row |
| LifecycleTheorems.PendingIsFinal | pkg/daemon/state.go:444-457 | once cleanup is pending, after every further run the row is pending or deleted, VM and workspace are absent, and a deleted row means everything is gone |
| LifecycleTheorems.PendingIsTurnedAway | pkg/daemon/task_lifecycle.go:146-151 | while cleanup is pending, restart, stop, fail and restore turn back at their first step without touching anything |
| LifecycleTheorems.PresentVmsOwnDistinctAddresses | pkg/daemon/tasks.go:116-125 | in every reachable world each present VM has its address allocated in memory and on disk alike, and no two present VMs share one |
| LifecycleTheorems.AddressFreedOnlyWhenAbsent | pkg/daemon/tasks.go:334-354 | whatever step takes an address from an id, in memory or on disk, the VM of that id is absent before and after it |
| LifecycleTheorems.DestroyOnlyShrinks | pkg/daemon/tasks.go:630-720 | no step of a destroy, however it ends, brings back a VM part, the workspace, the row or the address |
| LifecycleTheorems.SuccessMeansGone | pkg/daemon/tasks.go:634-640 | a destroy that reports success leaves nothing of a task that ever had a row, and for an unknown id changes nothing |
| LifecycleTheorems.OthersSpareOwner | pkg/daemon/task_lifecycle.go:34-61 | no step of another goroutine changes the row, workspace, history or address of a task somebody is working on, or starts or removes part of its VM; only its process may exit by itself |
| LifecycleTheorems.FaultFreeDestroyCompletes | pkg/daemon/tasks.go:626-720 | from every reachable world, seven fault-free turns of a destroy, interleaved with anything the others do or suffer, end with VM, workspace, address and row all gone |
| LifecycleTheorems.DestroyAgainChangesNothing | pkg/daemon/tasks.go:634-638 | a destroy of a task without a row returns at once and changes no store |
| LifecycleTheorems.CrashedCreateLeaks | pkg/daemon/tasks.go:254-294 | a concrete reachable world in which a crashed create has left a VM, a workspace and the only address of the pool without a row |
| LifecycleTheorems.CrashLeaksExactlyCreates | pkg/daemon/tasks.go:254-294 | after a crash in any reachable world an id is an orphan if and only if it was being created, or had no row and left something on the host or in the state file before |
| LifecycleTheorems.CrashOrphansAreCutCreates | pkg/daemon/tasks.go:116-294 | where every orphan is a create under way, the orphans after a crash are exactly the creates it cut short |
| LifecycleTheorems.NothingReachesOrphans | pkg/daemon/tasks.go:634-638 | over every later run, destroys included, an orphan nobody is creating keeps its workspace, directory, TAP, rootfs clone and an address recorded in memory and on disk alike, only its process can die, no part of it appears, and no row for it |
| LifecycleTheorems.HalfSavedCreate | pkg/network/ip_pool.go:303-311 | in every reachable world with a free address, a create whose save replaced the file but was not confirmed fails and leaves that address in the file under its id |
| LifecycleTheorems.HalfMadeWorkspace | pkg/daemon/tasks.go:131-135 | in every reachable world, a create whose dataset creation fails after making the dataset ends, after a fault-free clean-up, with the address released and the dataset left |
| LockedLifecycle.LockAdmits | pkg/daemon/task_lifecycle.go:50-60 | whenever a goroutine can take the entry mutex of a task, no other call is at work on that task: the lock provides the admission the protocol relies on |
| LockedLifecycle.RunRefines | pkg/daemon/task_lifecycle.go:34-61 | every run of goroutines using the lock, creates and crashes included, is on the stores a run of the protocol, and work under the lock is only done by goroutines inside fn on their own task |
| LockedLifecycle.GuaranteesUnderTheLock | pkg/daemon/tasks.go:626-628 | under the real lock, in every interleaving, a cleanup_pending row means absence and present VMs have distinct addresses |
| LockedLifecycle.SomebodyCanMove | pkg/daemon/task_lifecycle.go:34-61 | while a call or its work is unfinished somebody can get on, and without a fault |
| LockedLifecycle.EveryRunFinishes | pkg/daemon/task_lifecycle.go:34-61 | without new work in every run, with any failures, the calls make at most a fixed number of moves, and one in which nobody can get on has finished every call and freed every lock |
| LockedLifecycle.CanFinish | pkg/daemon/task_lifecycle.go:34-61 | from every reachable state such a run exists in which no work fails |
| LockedLifecycle.DestroyUnderTheLock | pkg/daemon/tasks.go:626-720 | a destroy requested while waiting for the lock leaves its function only when nothing of the task is left, over every run in which its own work meets no fault, whatever the others do and suffer |
| LockedLifecycle.RequestedDestroyCompletes | pkg/daemon/tasks.go:626-720 | so without new work every such run, taken as far as anybody can get on, ends with VM, workspace, address and row of that task gone and every call over |
| TaskManager.TaskManager.CreateTask | pkg/daemon/tasks.go:81-332 | it succeeds if and only if an address is free and no step fails, and then leaves a running row, the workspace, all of the VM, and the first free address in memory and on disk; failure leaves no row, and after a fault-free clean-up nothing at all if and only if no address was free or neither the save nor the dataset creation half succeeded; the address of a VM that could not be deleted again stays allocated |
| TaskManager.TaskManager.CleanupCreateTask | pkg/daemon/tasks.go:334-354 | it fails if and only if one of its steps fails; a fault-free clean-up leaves nothing of the task if and only if it is told of the dataset or there is none; the address stays allocated when the VM could not be deleted |
| TaskManager.TaskManager.UndoAddress | pkg/daemon/tasks.go:348-352 | the address is released only if the VM could be deleted; otherwise the pool is untouched |
| TaskManager.TaskManager.RestartTask | pkg/daemon/tasks.go:454-541 | it succeeds if and only if the task is stopped or failed and no step fails; then the row is running and process and TAP are up; once begun, a failed start leaves the row failed, or starting where that write fails; otherwise the row stays; workspace and address stay |
| TaskManager.TaskManager.StopTask | pkg/daemon/tasks.go:544-585 | it succeeds if and only if the task is admitted and the row can be written, and then the row is stopped; process and TAP are gone but for what the backend leaves; failure leaves the row, and workspace, address and files stay |
| TaskManager.TaskManager.FailTask | pkg/daemon/tasks.go:589-623 | only the row changes, to failed, if and only if the task is admitted and that can be written |
| TaskManager.TaskManager.RestoreSnapshot | pkg/daemon/task_lifecycle.go:178-197 | a running task is stopped, by the locked form, before the rollback, row and VM as after a stop, and the rollback only follows if that succeeds; it succeeds if and only if the task is admitted and no step fails; no other change of row, VM, workspace or address |
| TaskManager.TaskManager.DestroyTask | pkg/daemon/tasks.go:626-720 | success means nothing is left; it succeeds if and only if nothing it needs fails and it is not cancelled in between, whatever the others do; VM and workspace are what its steps left of them; the row changes only once both are gone, to cleanup_pending or deleted; on failure nothing it removed is back |
| TaskManager.TaskManager.DestroyTasksByImage | pkg/daemon/tasks.go:766-780 | it takes up the tasks of the image and no others, in listing order, until one fails; on success nothing is left of any task that had the image when the rows were listed; it waits only for a task of the image whose lock is held |
| TaskManager.TaskManager.RestartDaemon | pkg/daemon/daemon.go:188-244 | after a crash exactly the running rows without a live process become stopped, where that can be written; the pool is what its file says; nothing else changes |
| TaskTable.OnlyMarkMakesPending | pkg/daemon/state.go:390-457 | over every run of table operations a row can read cleanup_pending only if it did at the start or the marking operation wrote it |
| TaskTable.UpdateCanLeavePending | pkg/daemon/state.go:390-440 | a concrete run showing that the table alone does not guard the way out of cleanup_pending |
| TaskTable.OneEscape | pkg/daemon/state.go:390-440 | one operation takes a row out of cleanup_pending if and only if it is a written update of it to another status or its deletion |
| TaskTable.PendingUnlessEscape | pkg/daemon/state.go:390-457 | over every run a pending row stays pending throughout if and only if the run has no such operation |
| TaskTable.AnnouncementsAreFaithful | pkg/daemon/state.go:394-439 | over every run of updates of a task, and anything on others, following the callback's announcements from its first status leads to its last, each announcing a real change |
| TaskTable.FailureChangesNothing | pkg/daemon/state.go:442-457 | an operation that reports anything but success leaves the table as it was, except a mark or delete whose row count could not be read |
| TaskTable.State.CreateTask | pkg/daemon/state.go:196-223 | the row appears as given and without a stop time, if and only if it is not cleanup_pending, is new, and the statement succeeds; nothing else changes |
| TaskTable.State.UpdateTaskStatus | pkg/daemon/state.go:390-440 | on success the row has the status given, and the stop time of now if that is stopped, and exactly a real change is announced, from the old status to the new; every answer has its exact condition, and any other than success changes nothing |
| TaskTable.State.MarkTaskCleanupPending | pkg/daemon/state.go:444-457 | the row reads cleanup_pending, its stop time kept, exactly if the statement was written and it exists; the answer is exact for every outcome of the statement and of the row count; nothing is announced |
| TaskTable.State.DeleteTask | pkg/daemon/state.go:595-612 | the row is gone exactly if the statement was written, and no other changes; the answer is exact for every outcome of the statement and of the row count |
| OrphanAudit.Audit.Run | cmd/stockyard/gc_audit.go:84-104 | the audit succeeds if and only if the document can be written, every listing was read and the inventory is Clean; unread listings are noted and empty; without the tasks nothing is reconciled, and otherwise the report is Found, also when other listings are missing |
| OrphanAudit.Audit.IndexTasks | cmd/stockyard/gc_audit.go:171-192 | both task tables end up equal, with the first good row of each id, and the mismatches reported are exactly the verdicts on the rows |
| OrphanAudit.Audit.ReconcileResources | cmd/stockyard/gc_audit.go:305-333 | the loop reports exactly the verdict on each item, for any two tables |
| OrphanAudit.Audit.ReconcileProcesses | cmd/stockyard/gc_audit.go:335-356 | the same for processes |
| OrphanAudit.Audit.ReconcileAllocations | cmd/stockyard/gc_audit.go:358-379 | the same for allocations, for whatever order the map is visited in |
| OrphanAudit.Audit.ReconcileTaskExpectations | cmd/stockyard/gc_audit.go:234-303 | the counting loops report exactly the demands of each task's status, skipping listings that could not be read |
| OrphanAudit.CountOwners | cmd/stockyard/gc_audit.go:264-278 | the counting loop computes the multiplicity of every owner |
| OrphanAudit.CleanExact | cmd/stockyard/gc_audit.go:170-262 | the loops report nothing if and only if the inventory is Clean, for all visiting orders |
| OrphanAudit.CleanOrderFree | cmd/stockyard/gc_audit.go:170-379 | reordering any listing does not change the verdict |
| OrphanAudit.TaskReports | cmd/stockyard/gc_audit.go:170-192 | a mismatch of the task rows is reported if and only if a row is malformed, has another VM id, or repeats the id of an earlier good row |
| OrphanAudit.ResourceReports | cmd/stockyard/gc_audit.go:305-333 | a mismatch of a resource listing is reported if and only if an item has no owner, an owner seen before, or, seen first, an unlisted owner |
| OrphanAudit.ProcessReports | cmd/stockyard/gc_audit.go:335-356 | the same for processes, of which those without owner or real id are malformed |
| OrphanAudit.LeaseReports | cmd/stockyard/gc_audit.go:358-379 | the same for allocations; a duplicate names the first holder of its address |
| OrphanAudit.ExpectationsExact | cmd/stockyard/gc_audit.go:234-303 | for any set of unread listings exactly the unmet needs of each status are reported, one of a kind or none, and nothing about a listing that was not read |
| OrphanAudit.ResourceOrphans | cmd/stockyard/gc_audit.go:317-331 | the owners reported as orphans are exactly the unlisted ones, and no owner is reported as being in the wrong table |
| OrphanAudit.ProcessOrphans | cmd/stockyard/gc_audit.go:347-354 | the same for processes |
| OrphanAudit.LeaseOrphans | cmd/stockyard/gc_audit.go:361-377 | an allocation reported as an orphan is well formed and belongs to no listed task |
| OrphanAudit.UnlistedLeases | cmd/stockyard/gc_audit.go:365-377 | a well-formed allocation to an unlisted task is reported, as an orphan or for a repeated address |
| OrphanAudit.LeasesPlain | cmd/stockyard/gc_audit.go:358-379 | no allocation is reported as being in the wrong table, and none as a duplicate where addresses are distinct |
| LifecycleAudit.PendingTasksPass | cmd/stockyard/gc_audit.go:241-247 | in every reachable world the audit demands nothing of a cleanup_pending task that the protocol does not guarantee |
| LifecycleAudit.AllocationsPass | cmd/stockyard/gc_audit.go:252-252 | in every reachable world every other row has its allocation, no address is recorded twice, and every allocation is well formed |
| LifecycleAudit.OrphansAreUnrecorded | cmd/stockyard/gc_audit.go:331-331 | what an unlisted id owns was left by a create, never by a task that had a row |
| LifecycleAudit.AuditVerdict | cmd/stockyard/gc_audit.go:234-262 | on a reachable world the inventory is Clean if and only if every task has exactly what its status says and nothing belongs to anybody else |
| LifecycleAudit.AuditVerdictForPool | pkg/network/ip_pool.go:113-147 | the same for the addresses the pool really generates, for every network and gateway |
| ImageRegistry.NamesCollide | pkg/zfs/zfs.go:248-259 | distinct names can map to the same dataset, also to the default's |
| ImageRegistry.RunKeepsCoherent | pkg/daemon/image_registry.go:100-211 | over every run with any failures each row names its own dataset, no two rows share one, and clones hang only on snapshots of registered images |
| ImageRegistry.RunSparesImage | pkg/daemon/image_registry.go:122-130 | over every run without an operation on an image, its row and dataset stay exactly as they are, although other names may map to the same dataset |
| ImageRegistry.ImportDone | pkg/daemon/image_registry.go:144-157 | an import that reports success has registered the image with a snapshot of its source |
| ImageRegistry.FaultFreeImport | pkg/daemon/image_registry.go:132-157 | a fault-free import of a valid, free name fails if and only if the name is unregistered and its dataset already holds @base, and then the dataset is gone |
| ImageRegistry.TwoImportsHeal | pkg/daemon/image_registry.go:128-157 | after any run with any failures two fault-free imports suffice, and it is stated exactly when one does not |
| ImageRegistry.TwoImportsNeeded | pkg/daemon/image_registry.go:151-156 | a concrete failure after which the first of them does not suffice |
| ImageRegistry.FaultFreeEnsure | pkg/daemon/image_registry.go:184-211 | fault-free, the default ends registered with a snapshot if and only if no other image owns its dataset |
| ImageRegistry.RemoveExact | pkg/daemon/image_registry.go:161-179 | a removal succeeds if and only if the image is registered, is not the default, and tasks, dataset and row can be removed, in this order; where the tasks cannot, row and dataset stay; the row goes only after the dataset |
| ImageRegistry.ImportExact | pkg/daemon/image_registry.go:100-158 | an import succeeds if and only if the name is valid and free of collisions, the image it replaces can be dropped, no snapshot is in the way, and no step fails; a refused one changes nothing, a failed one adds no row, and where the row cannot be written the dataset goes |
| ImageRegistry.EnsureExact | pkg/daemon/image_registry.go:184-211 | seeding succeeds if and only if the row is there or can be made and the snapshot is seen, or there is none and the import goes through; what then is in row and dataset |
| ImageRegistry.EnsureDefaultOnBase | pkg/daemon/image_registry.go:198-202 | on an existing snapshot, for every outcome of every step: success if and only if the snapshot is seen, and then nothing changes; the snapshot is lost if and only if the query fails, the import gets past the create, the clean-up leaves no snapshot and no disks are cloned from the dataset; the rows stay |
| ImageRegistry.DefaultSurvives | pkg/daemon/image_registry.go:100-211 | over every run without a new import of the default image, its snapshot is there throughout, with the same content, if and only if no EnsureDefault of the run meets that condition |
| ImageRegistry.ImageRegistry.ImportImageRootfs | pkg/zfs/zfs.go:264-304 | create, mountpoint, copy, snapshot with the deferred clean-up, for every outcome: success means file and snapshot are the source and there was no snapshot before; a failed one whose clean-up works leaves no dataset; a snapshot with clones survives; other datasets stay |
| ImageRegistry.ImageRegistry.DestroyDatasetRecursive | pkg/zfs/zfs.go:320-339 | destroy between two existence queries, for every outcome: success means the dataset is absent; nothing gains clones; other datasets stay |
| ImageRegistry.ImageRegistry.Import | pkg/daemon/image_registry.go:100-158 | the in-place import is Imported for every outcome and succeeds exactly under ImportExact's condition; it keeps the registry coherent, spares every other image, and on success serves the source |
| ImageRegistry.ImageRegistry.Remove | pkg/daemon/image_registry.go:161-179 | the in-place removal succeeds exactly under RemoveExact's condition and then leaves neither row nor dataset; it keeps the registry coherent and spares every other image |
| ImageRegistry.ImageRegistry.EnsureDefault | pkg/daemon/image_registry.go:184-211 | the in-place seeding succeeds exactly under EnsureExact's condition, leaving a seen snapshot alone and otherwise one of the source; it keeps the registry coherent and spares every other image |
| Firecracker.ArgumentsOwnSocket | pkg/firecracker/process_handle.go:132-139 | true if and only if some --api-sock argument is followed by the socket path |
| Firecracker.Client.CandidatePids | pkg/firecracker/process_handle_linux.go:31-56 | the loop over the process table yields every process that owns the socket when it is done, if nothing starts on the socket and the table lists owners; on a calm host exactly the owners |
| Firecracker.Client.FindProcessBySocket | pkg/firecracker/process_handle.go:46-111 | for every process table, every host and every pattern of failures, each handle opened is closed exactly once but the one returned, and an error returns none; a returned handle was opened before the executable and arguments of an owner were read for its id; if nothing starts on the socket and owners are listed, no other owner is left; on a calm host an error means several owners or a foreign executable, and only that |
| Firecracker.Client.Choose | pkg/firecracker/process_handle.go:51-111 | the same for every list of candidates: conservation without any assumption, the found process identified, the answer exact on a calm host |
| Firecracker.Client.ReachedIsIdentified | pkg/firecracker/process_handle_linux.go:74-92 | if the process of an identified handle can still be reached through it, it is the owner that was identified, at whatever moments processes exit and ids are reused |
| Firecracker.Client.StopDetachedProcess | pkg/firecracker/client.go:575-601 | the handle is closed exactly once on every path; TERM is sent if and only if the process is there to receive it, KILL if and only if it is still there after the wait; nil if and only if it is found to have exited before any call fails and the handle can be closed |
| Firecracker.Client.RequireProcessAbsent | pkg/firecracker/client.go:603-616 | no handle stays open, whatever fails; nil means no process owns the socket, if nothing starts on it and owners are listed; on a host that can be observed it is nil if and only if no process owns the socket |
| Firecracker.Client.DeleteVM | pkg/firecracker/client.go:459-559 | on every path no handle stays open, only processes that own the VM's socket and run the configured executable are signalled through one, whatever ids are reused, and only things of this VM go; a tracked process gets TERM, and KILL if it is late; nil means TAP, rootfs clone (with ZFS) and directory are absent and the VM is untracked, and no process owns its socket if nothing starts on it after the last removal and owners are listed; nothing is removed while a process owns the socket, and the directory goes last; on a host that can be observed, a VM without process is deleted if and only if its things can be removed, and an owner that does not react is sent TERM and KILL and the VM kept |
| Firecracker.TapsApart | pkg/firecracker/network.go:71-77 | ids of at most eight characters have the same TAP only if they are the same |
| ConsoleArchive.ParseExact | pkg/consolearchive/consolearchive.go:37-39 | the entry pattern matches a name in at most one way |
| ConsoleArchive.StampExact | pkg/consolearchive/consolearchive.go:75-76 | formatting and parsing time stamps undo each other, on exactly the calendar's times |
| ConsoleArchive.BuiltNamesParse | pkg/consolearchive/consolearchive.go:63-77 | every name the archiver builds is accepted and reads back the same time, id and suffix |
| ConsoleArchive.AcceptedNamesAreBuilt | pkg/consolearchive/consolearchive.go:70-77 | every accepted name is built from one time, id and suffix only |
| ConsoleArchive.EntriesAreNotHidden | pkg/consolearchive/prune.go:59-74 | an accepted name is neither hidden nor a staging name |
| ConsoleArchive.NameOrderIsAge | pkg/consolearchive/prune.go:78-79 | byte order of two names with different times is the order of the times |
| ConsoleArchive.HeadExact | pkg/consolearchive/consolearchive.go:209-213 | the head kept of an oversized console is half the budget and at most 8 MiB |
| ConsoleArchive.TruncateCopy | pkg/consolearchive/consolearchive.go:209-249 | success is the first and last bytes around a marker, never overlapping, together exactly the budget if the file has not changed; whatever step fails, marker writes cut short included, what is out is the start of that text, and an error is reported exactly when a step failed |
| Prune.Archiver.Collect | pkg/consolearchive/prune.go:49-76 | the walk collects exactly the archive entries, removes exactly the stale staging directories, and passes over everything else |
| Prune.Archiver.AgePass | pkg/consolearchive/prune.go:81-91 | exactly the entries too old go, unless their removal fails |
| Prune.Archiver.BytePass | pkg/consolearchive/prune.go:93-105 | total is always the bytes of the kept entries not yet removed; only a name-ordered prefix is tried, never the newest; it stops once the rest fits and no removal is needless |
| Prune.Archiver.Prune | pkg/consolearchive/prune.go:34-111 | for every listing and every pattern of failures: others untouched, counts and bytes exact, kept entries exact, and the rest fits or only the newest is left to try |
| Prune.AgesExact | pkg/consolearchive/prune.go:49-91 | a staging directory with an accepted name goes if and only if it is older than an hour (and can be removed); an entry older than the maximum age goes if it can be removed, and a younger one passes the age check; everything else stays as it is |
| Prune.SurvivorsWithoutFailure | pkg/consolearchive/prune.go:81-105 | without failures the survivors are exactly the entries from the cut on, none too old |
| Prune.OldestGoFirst | pkg/consolearchive/prune.go:97-105 | what the byte pass removes has a smaller name than all that survives |
| Framing.FrameRoundTrip | pkg/shell/protocol.go:27-77 | a message followed by anything is read back, consuming exactly its bytes, if and only if its payload is within 1 MiB |
| Framing.FrameLayout | pkg/shell/protocol.go:27-47 | on the wire: type, length with its high byte first, payload |
| Framing.CutFrameFails | pkg/shell/protocol.go:50-77 | every strict prefix of a message is an error |
| Framing.ListRoundTrip | pkg/shell/protocol.go:27-77 | a list of messages is read back as that list; cut inside a later message, the whole ones before it are read and then an error |
| Framing.RequestRoundTrip | pkg/vsock/protocol.go:27-55 | a label is read back if and only if it is within 1024 bytes; every strict prefix is an error |
| Framing.SnapshotLayout | pkg/vsock/protocol.go:27-78 | on the wire: length with its low byte first, text; before a reply a status byte, zero for success |
| Framing.ReplyRoundTrip | pkg/vsock/protocol.go:58-105 | a reply is read back if and only if its text is within 4096 bytes; every strict prefix is an error |
| Framing.Writer.WriteMessage | pkg/shell/protocol.go:27-47 | on success exactly the frame is out, on an error a strict part of it |
| Framing.Writer.EncodeSnapshotRequest | pkg/vsock/protocol.go:27-36 | the same for requests |
| Framing.Writer.EncodeSnapshotResponse | pkg/vsock/protocol.go:58-78 | the same for replies |
| Framing.Reader.ReadFull | pkg/shell/protocol.go:52-55 | whatever the chunks, exactly n bytes or an error when the stream ends first |
| Framing.Reader.ReadMessage | pkg/shell/protocol.go:50-77 | reading from a stream is ReadFrame on the bytes ahead, and moves on by exactly what it used; of a message over the limit only type and length are read |
| Framing.Reader.DecodeSnapshotRequest | pkg/vsock/protocol.go:39-55 | the same for requests |
| Framing.Reader.DecodeSnapshotResponse | pkg/vsock/protocol.go:81-105 | the same for replies |
| ShellQuote.Quote | cmd/stockyard/destroy.go:19-29 | accepts exactly printable text without NUL, and a shell reads the result as that one word |
| ShellQuote.QuotedIsOneWord | cmd/stockyard/destroy.go:28-28 | under the POSIX quoting rules (Shell Command Language, sections 2.2.2 and 2.2.3) every quoted text is read back as that single word |
| ShellQuote.HintReadsBack | cmd/stockyard/destroy.go:75-76 | added to any readable command line, the printed hint adds exactly the force flag and the confirmation of that very name |

## Left out

- Lifecycle.RunKeepsInv: for the Firecracker backend with ZFS and an address pool, where a task's VM id is its id; the apple-container backend, a missing pool and a daemon without backend are not part of this model.
- Lifecycle.StepKeepsInv: a failed SQL statement has no effect, except where the code asks for affected rows afterwards, where it may have had its effect; the status callback, log tailing, metrics, activity feed, Tailscale and secrets have no effect on the four stores and are omitted.
- LifecycleTheorems.FaultFreeDestroyCompletes: that the destroy is admitted and gets its seven turns is assumed here; LockedLifecycle.RequestedDestroyCompletes has the wait for the lock and the turns.
- LockedLifecycle.RequestedDestroyCompletes: for runs without new calls, creates or crashes from some moment on, where no fairness is needed; that calls which never stop arriving do not starve a waiting one is left to the mutex.
- TaskManager.TaskManager.DestroyTask: admission is an atomic step that needs the lock to be free; how goroutines queue for it, and that this is what the lock provides, is in KeyedLock and LockedLifecycle.
- TaskManager.TaskManager.CreateTask: image resolution and VM configuration are one step that can fail without effect; the generated id is new.
- TaskManager.TaskManager.RestoreSnapshot: what the rollback does to the files in the workspace is ZFS's; here the dataset stays.
- TaskManager.TaskManager.RestartDaemon: a state file that cannot be read keeps the daemon from starting and is not a world of the protocol; whether a process is alive is an input.
- CreateSnapshot, ListTaskSnapshots, GetAttachTask and the other readers under the lock: the same first step as stop and restore, and no change of the four stores.
- IpPool.IPPool.LoadState: the pool's lenient reader is modelled on documents of the shape the pool writes; every other document is an error here.
- IpPool.IPPool.PersistLocked: a pool without a configured path saves nothing and is not modelled.
- AllocationDoc.ParseAllocations: JSON text is modelled as tokens; the lexical syntax of JSON is not.
- OrphanAudit.Audit.Run: the final sort of the mismatches and the JSON document itself are omitted, and the readers of the seven sources are inputs.
- LifecycleAudit.AuditVerdict: the listings are taken at one moment; an audit of a host that changes between two listings is not modelled.
- ImageRegistry.RunKeepsCoherent: reads of the image table succeed and no create is in flight during an import or removal, as the code itself guards only part of that race; a disk is cloned only from the snapshot of a registered image.
- Firecracker.Client.FindProcessBySocket: that no owner is left is stated for a socket on which nothing starts from the call on and for a process table that lists every owner; the kernel promises neither. Conservation of handles needs no assumption.
- Firecracker.Client.ReachedIsIdentified: rests on the kernel never reviving an exited process; a process that replaces its own program counts as another one here, and one reading of a file under /proc is a single moment.
- Firecracker.Client.DeleteVM: the same assumptions stand before its clauses about processes; the console archive call is omitted (it never changes the outcome), and paths are abbreviated to the id.
- Prune.Archiver.Prune: the size of a directory is read once and in full.
- ConsoleArchive.TruncateCopy: sizes are unbounded naturals; copying whole files and the staging of an entry are omitted.
- Framing.Writer.WriteMessage: JSON payloads of the shell messages are opaque bytes.
- ShellQuote.Quote: which characters are printable is an input.
- The dashboard, websockets, gRPC, configuration, DHCP, leases, flintlock, metrics, alerts, logs, VM configuration through the Firecracker API, and `gc --orphans` deletion itself are not part of this model.
