/**
 The task lifecycle as a labelled step system: create, restart, stop, fail, restore and
 destroy over four stores (database row, VM, workspace dataset, IP pool), with any number
 of goroutines, and with failures, cancellations and daemon crashes between any two steps.

 A label carries every choice the environment makes, so that the next world is a function
 of the world and the label; a label that is not enabled changes nothing. A run is therefore
 any sequence of labels. The lock that admits one call per task is the subject of KeyedLock.
 */
module Lifecycle {
  import opened Common
  import P = IpPool

  type Id = string
  type Tid = nat

  datatype Status = Starting | Running | Stopped | Failed | CleanupPending

  /** What makes up a VM on the host. */
  datatype Part = Process | Directory | Tap | Rootfs
  const ALL_PARTS: set<Part> := {Process, Directory, Tap, Rootfs}

  /** The next thing a call will do. */
  datatype Pc =
    // CreateTask, after its address has been allocated
    | CreateWorkspace | FindMountpoint | Configure | CreateVm | RecordTask
    // cleanupCreateTask; `canRelease` is false once the VM could not be deleted
    | UndoVm | UndoWorkspace(canRelease: bool) | UndoAddress(canRelease: bool)
    // restartTaskLocked
    | RestartRead | MarkStarting | StartVm | RevertToFailed | MarkRunning
    // stopTaskLocked, also as part of a snapshot restore
    | StopRead(restore: bool) | StopVm(restore: bool) | MarkStopped(restore: bool)
    // failTaskLocked
    | FailRead | MarkFailed
    // RestoreSnapshot
    | RestoreRead | Rollback
    // destroyTaskLocked; `pending` is the status read at the start
    | DestroyRead | DeleteVm(pending: bool) | DestroyWorkspace(pending: bool) | VerifyWorkspace(pending: bool)
    | MarkPending | ReleaseAddress | DeleteRow

  datatype Call = Call(id: Id, pc: Pc)

  datatype World = World(
    rows: map<Id, Status>,       // the tasks table
    parts: map<Id, set<Part>>,   // what exists of each VM
    work: set<Id>,               // workspace datasets
    pool: P.Pool,
    calls: map<Tid, Call>,
    serving: bool,               // false between a crash and the end of start-up
    used: set<Id>,               // history: every id ever generated
    recorded: set<Id>)           // history: every id that ever had a row

  /**
   How one step ends. `left`: the VM parts a failed (or partial) operation leaves behind.
   `work`: the dataset is there afterwards. `save`: how the pool's save ends.
   `applied`: a failed row write took effect nevertheless.
   */
  datatype Outcome = Outcome(ok: bool, left: set<Part>, work: bool, save: P.Persist, applied: bool)

  const FINE := Outcome(true, {}, false, P.Stored, false)

  datatype Op = Restart | Stop | Fail | Restore | Destroy

  datatype Label =
    | BeginCreate(t: Tid, id: Id, save: P.Persist)
    | Begin(t: Tid, id: Id, op: Op)
    | Step(t: Tid, out: Outcome)
    | Cancel(t: Tid)                   // the context of a destroy is found cancelled
    | ProcessDies(id: Id)              // a VM process exits by itself
    | Crash
    | Reconcile(id: Id, ok: bool)      // start-up: a running row whose process is gone
    | Serve

  // ---- one task --------------------------------------------------------------------------

  /** Everything but the address that concerns one id. */
  datatype Task = Task(row: Option<Status>, parts: set<Part>, work: bool, recorded: bool)

  datatype Next = Goto(pc: Pc) | Return

  /** A call at `pc` does its next step to its own task; `released` is the pool's answer. */
  function Local(k: Task, pc: Pc, out: Outcome, released: bool): (Task, Next) {
    match pc
    // create
    case CreateWorkspace =>
      if out.ok then (k.(work := true), Goto(FindMountpoint))
      else (k.(work := k.work || out.work), Goto(UndoAddress(true)))
    case FindMountpoint => (k, Goto(if out.ok then Configure else UndoWorkspace(true)))
    case Configure => (k, Goto(if out.ok then CreateVm else UndoWorkspace(true)))
    case CreateVm =>
      if out.ok then (k.(parts := ALL_PARTS), Goto(RecordTask)) else (k.(parts := out.left), Goto(UndoVm))
    case RecordTask =>
      if out.ok then (k.(row := Some(Running), recorded := true), Return) else (k, Goto(UndoVm))
    case UndoVm =>
      if out.ok then (k.(parts := {}), Goto(UndoWorkspace(true)))
      else (k.(parts := k.parts * out.left), Goto(UndoWorkspace(false)))
    case UndoWorkspace(canRelease) => (k.(work := k.work && out.work), Goto(UndoAddress(canRelease)))
    case UndoAddress(_) => (k, Return)
    // restart
    case RestartRead =>
      if out.ok && (k.row == Some(Stopped) || k.row == Some(Failed)) then (k, Goto(MarkStarting)) else (k, Return)
    case MarkStarting => if out.ok then (k.(row := Some(Starting)), Goto(StartVm)) else (k, Return)
    case StartVm =>
      if out.ok then (k.(parts := k.parts + {Process, Tap}), Goto(MarkRunning))
      else (k.(parts := (k.parts + {Process, Tap}) * out.left), Goto(RevertToFailed))
    case RevertToFailed => (if out.ok then k.(row := Some(Failed)) else k, Return)
    case MarkRunning => (if out.ok then k.(row := Some(Running)) else k, Return)
    // stop
    case StopRead(restore) => if out.ok && Admitted(k) then (k, Goto(StopVm(restore))) else (k, Return)
    case StopVm(restore) => (k.(parts := k.parts - ({Process, Tap} - out.left)), Goto(MarkStopped(restore)))
    case MarkStopped(restore) =>
      if !out.ok then (k, Return)
      else (k.(row := Some(Stopped)), if restore then Goto(Rollback) else Return)
    // fail
    case FailRead => if out.ok && Admitted(k) then (k, Goto(MarkFailed)) else (k, Return)
    case MarkFailed => (if out.ok then k.(row := Some(Failed)) else k, Return)
    // restore
    case RestoreRead =>
      if out.ok && Admitted(k) then (k, Goto(if k.row == Some(Running) then StopRead(true) else Rollback))
      else (k, Return)
    case Rollback => (k, Return)
    // destroy
    case DestroyRead =>
      if out.ok && k.row.Some? then (k, Goto(DeleteVm(k.row == Some(CleanupPending)))) else (k, Return)
    case DeleteVm(pending) =>
      if out.ok then (k.(parts := {}), Goto(DestroyWorkspace(pending)))
      else (k.(parts := k.parts * out.left), Return)
    case DestroyWorkspace(pending) =>
      (k.(work := k.work && out.work), if out.ok then Goto(VerifyWorkspace(pending)) else Return)
    case VerifyWorkspace(pending) =>
      (k, if out.ok && !k.work then Goto(if pending then ReleaseAddress else MarkPending) else Return)
    case MarkPending =>
      if out.ok then (k.(row := Some(CleanupPending)), Goto(ReleaseAddress))
      else (if out.applied then k.(row := Some(CleanupPending)) else k, Return)
    case ReleaseAddress => (k, if released then Goto(DeleteRow) else Return)
    case DeleteRow => (if out.ok || out.applied then k.(row := None) else k, Return)
  }

  /** Every operation but destroy turns a missing or cleanup-pending task away. */
  predicate Admitted(k: Task) {
    k.row.Some? && k.row != Some(CleanupPending)
  }

  predicate Releases(pc: Pc) {
    pc.ReleaseAddress? || (pc.UndoAddress? && pc.canRelease)
  }

  function Entry(op: Op): Pc {
    match op
    case Restart => RestartRead
    case Stop => StopRead(false)
    case Fail => FailRead
    case Restore => RestoreRead
    case Destroy => DestroyRead
  }

  predicate Destroying(pc: Pc) {
    pc.DestroyRead? || pc.DeleteVm? || pc.DestroyWorkspace? || pc.VerifyWorkspace? ||
    pc.MarkPending? || pc.ReleaseAddress? || pc.DeleteRow?
  }

  // ---- the world --------------------------------------------------------------------------

  function PartsOf(s: World, id: Id): set<Part> {
    if id in s.parts then s.parts[id] else {}
  }

  function TaskOf(s: World, id: Id): Task {
    Task(if id in s.rows then Some(s.rows[id]) else None, PartsOf(s, id), id in s.work, id in s.recorded)
  }

  function Put(s: World, id: Id, k: Task): World {
    s.(rows := SetRow(s.rows, id, k.row),
       parts := SetParts(s.parts, id, k.parts),
       work := if k.work then s.work + {id} else s.work - {id},
       recorded := if k.recorded then s.recorded + {id} else s.recorded - {id})
  }

  function SetRow(rows: map<Id, Status>, id: Id, row: Option<Status>): map<Id, Status> {
    if row.Some? then rows[id := row.value] else rows - {id}
  }

  function SetParts(parts: map<Id, set<Part>>, id: Id, ps: set<Part>): map<Id, set<Part>> {
    if ps == {} then parts - {id} else parts[id := ps]
  }

  function Init(usable: seq<string>): World {
    World(map[], map[], {}, P.Fresh(usable), map[], false, {}, {})
  }

  /** CreateTask runs outside the per-task lock, under an id nobody has yet. */
  predicate Creating(pc: Pc) {
    pc.CreateWorkspace? || pc.FindMountpoint? || pc.Configure? || pc.CreateVm? || pc.RecordTask? ||
    pc.UndoVm? || pc.UndoWorkspace? || pc.UndoAddress?
  }

  /** The first step under the lock: it reads the row and turns back when there is none. */
  predicate Reading(pc: Pc) {
    pc.RestartRead? || pc.StopRead? || pc.FailRead? || pc.RestoreRead? || pc.DestroyRead?
  }

  /** Some call holds the lifecycle lock of this id. */
  predicate Locked(s: World, id: Id) {
    exists t | t in s.calls :: s.calls[t].id == id && !Creating(s.calls[t].pc)
  }

  function DoStep(s: World, t: Tid, out: Outcome): World
    requires t in s.calls
  {
    var c := s.calls[t];
    var (pool, r) := if Releases(c.pc) then P.Release(s.pool, c.id, out.save) else (s.pool, Ok(()));
    var (k, next) := Local(TaskOf(s, c.id), c.pc, out, r.Ok?);
    Put(s, c.id, k).(pool := pool,
                     calls := if next.Goto? then s.calls[t := Call(c.id, next.pc)] else s.calls - {t})
  }

  predicate Enabled(s: World, l: Label) {
    match l
    case BeginCreate(t, id, _) => s.serving && t !in s.calls && id !in s.used
    case Begin(t, id, _) => s.serving && t !in s.calls && !Locked(s, id)
    case Step(t, _) => t in s.calls
    case Cancel(t) => t in s.calls && Destroying(s.calls[t].pc)
    case ProcessDies(id) => Process in PartsOf(s, id)
    case Crash => true
    case Reconcile(id, _) => !s.serving && id in s.rows && s.rows[id] == Running
    case Serve => !s.serving
  }

  function Apply(s: World, usable: seq<string>, l: Label): World {
    if !Enabled(s, l) then s
    else
      match l
      case BeginCreate(t, id, save) =>
        var (pool, r) := P.Allocate(s.pool, id, save);
        s.(pool := pool, used := s.used + {id},
           calls := if r.Ok? then s.calls[t := Call(id, CreateWorkspace)] else s.calls)
      case Begin(t, id, op) => s.(calls := s.calls[t := Call(id, Entry(op))])
      case Step(t, out) => DoStep(s, t, out)
      case Cancel(t) => s.(calls := s.calls - {t})
      case ProcessDies(id) => s.(parts := SetParts(s.parts, id, PartsOf(s, id) - {Process}))
      case Crash => s.(calls := map[], serving := false, pool := P.Reload(s.pool, usable))
      case Reconcile(id, ok) => if ok then s.(rows := s.rows[id := Stopped]) else s
      case Serve => s.(serving := true)
  }

  function Exec(s: World, usable: seq<string>, run: seq<Label>): World
    decreases |run|
  {
    if run == [] then s else Exec(Apply(s, usable, run[0]), usable, run[1..])
  }

  // ---- invariant ----------------------------------------------------------------------------

  /** The address of one id, in memory and in the state file. */
  datatype Lease = Lease(mem: Option<string>, disk: Option<string>)

  function LeaseOf(p: P.Pool, id: Id): Lease {
    Lease(if id in p.leased then Some(p.leased[id]) else None, if id in p.disk then Some(p.disk[id]) else None)
  }

  /** Allocated in memory and on disk alike. */
  predicate Firm(e: Lease) { e.mem.Some? && e.mem == e.disk }

  predicate GoneTask(k: Task, e: Lease) {
    k.row.None? && k.parts == {} && !k.work && e.mem.None? && e.disk.None?
  }

  predicate TaskOk(k: Task, e: Lease) {
    && (k.row == Some(CleanupPending) ==> k.parts == {} && !k.work)
    && (k.parts != {} ==> Firm(e))
    && (k.row.Some? && k.row != Some(CleanupPending) ==> Firm(e))
    && (k.row.Some? && e.mem.None? ==> e.disk.None?)
    && (k.row.Some? ==> k.recorded)
    && (k.recorded && k.row.None? ==> GoneTask(k, e))
  }

  /** What a call at `pc` may rely on about its task. */
  predicate CallOk(k: Task, e: Lease, pc: Pc) {
    match pc
    case CreateWorkspace => !k.recorded && k.parts == {} && Firm(e)
    case FindMountpoint => !k.recorded && k.parts == {} && Firm(e)
    case Configure => !k.recorded && k.parts == {} && Firm(e)
    case CreateVm => !k.recorded && k.parts == {} && Firm(e)
    case RecordTask => !k.recorded && Firm(e)
    case UndoVm => !k.recorded && Firm(e)
    case UndoWorkspace(can) => !k.recorded && Firm(e) && (can ==> k.parts == {})
    case UndoAddress(can) => !k.recorded && Firm(e) && (can ==> k.parts == {})
    case MarkStarting => Admitted(k)
    case StartVm => Admitted(k)
    case RevertToFailed => Admitted(k)
    case MarkRunning => Admitted(k)
    case StopVm(_) => Admitted(k)
    case MarkStopped(_) => Admitted(k)
    case MarkFailed => Admitted(k)
    case DeleteVm(pending) => k.row.Some? && (pending <==> k.row == Some(CleanupPending))
    case DestroyWorkspace(pending) => k.row.Some? && (pending <==> k.row == Some(CleanupPending)) && k.parts == {}
    case VerifyWorkspace(pending) => k.row.Some? && (pending <==> k.row == Some(CleanupPending)) && k.parts == {}
    case MarkPending => Admitted(k) && k.parts == {} && !k.work
    case ReleaseAddress => k.row == Some(CleanupPending)
    case DeleteRow => k.row == Some(CleanupPending) && e.mem.None? && e.disk.None?
    case Rollback => k.recorded
    case _ => true  // Reading
  }

  ghost predicate TasksOk(s: World) {
    forall id :: TaskOk(TaskOf(s, id), LeaseOf(s.pool, id))
  }

  /** An id that was never generated owns nothing, so a new id starts clean. */
  ghost predicate UnusedOk(s: World) {
    && (forall id :: id !in s.used ==> GoneTask(TaskOf(s, id), LeaseOf(s.pool, id)) && id !in s.recorded)
    && (forall t :: t in s.calls && Creating(s.calls[t].pc) ==> s.calls[t].id in s.used)
  }

  ghost predicate CallsOk(s: World) {
    forall t :: t in s.calls ==> CallOk(TaskOf(s, s.calls[t].id), LeaseOf(s.pool, s.calls[t].id), s.calls[t].pc)
  }

  /** Per id one call under the lock (what KeyedLock provides) and one create (its id is new). */
  ghost predicate OneCallEach(s: World) {
    forall t, u | t in s.calls && u in s.calls && s.calls[t].id == s.calls[u].id &&
                  Creating(s.calls[t].pc) == Creating(s.calls[u].pc) :: t == u
  }

  ghost predicate Inv(s: World, usable: seq<string>) {
    && NoDup(usable) && P.Inv(s.pool, usable)
    && TasksOk(s) && UnusedOk(s) && CallsOk(s) && OneCallEach(s)
    && (s.serving || s.calls == map[])
    && forall id :: id in s.parts ==> s.parts[id] != {}
  }

  /** Another id's save can only bring the state file in line with memory. */
  predicate Refreshed(e: Lease, e': Lease) {
    e' == e || e' == Lease(e.mem, e.mem)
  }

  lemma RefreshKeeps(k: Task, e: Lease, e': Lease)
    requires TaskOk(k, e) && Refreshed(e, e')
    ensures TaskOk(k, e')
    ensures GoneTask(k, e) ==> GoneTask(k, e')
    ensures forall pc :: CallOk(k, e, pc) ==> CallOk(k, e', pc)
  {
  }

  lemma PoolFrame(p: P.Pool, id: Id, save: P.Persist, other: Id)
    requires other != id
    ensures Refreshed(LeaseOf(p, other), LeaseOf(P.Allocate(p, id, save).0, other))
    ensures Refreshed(LeaseOf(p, other), LeaseOf(P.Release(p, id, save).0, other))
  {
  }

  lemma CreateKeeps(k: Task, e: Lease, pc: Pc, out: Outcome)
    requires TaskOk(k, e) && CallOk(k, e, pc) && Creating(pc) && !Releases(pc)
    ensures var (k', next) := Local(k, pc, out, true);
            TaskOk(k', e) && (next.Goto? ==> CallOk(k', e, next.pc))
  {
  }

  lemma DestroyKeeps(k: Task, e: Lease, pc: Pc, out: Outcome)
    requires TaskOk(k, e) && CallOk(k, e, pc) && Destroying(pc) && !Releases(pc)
    ensures var (k', next) := Local(k, pc, out, true);
            TaskOk(k', e) && (next.Goto? ==> CallOk(k', e, next.pc))
  {
  }

  lemma OtherOpsKeep(k: Task, e: Lease, pc: Pc, out: Outcome)
    requires TaskOk(k, e) && CallOk(k, e, pc) && !Creating(pc) && !Destroying(pc)
    ensures var (k', next) := Local(k, pc, out, true);
            TaskOk(k', e) && (next.Goto? ==> CallOk(k', e, next.pc))
  {
  }

  lemma ReleaseKeeps(k: Task, p: P.Pool, id: Id, pc: Pc, out: Outcome)
    requires TaskOk(k, LeaseOf(p, id)) && CallOk(k, LeaseOf(p, id), pc) && Releases(pc)
    ensures var (p', r) := P.Release(p, id, out.save);
            var (k', next) := Local(k, pc, out, r.Ok?);
            TaskOk(k', LeaseOf(p', id)) && (next.Goto? ==> CallOk(k', LeaseOf(p', id), next.pc))
  {
  }

  /** One step of a call keeps its own task in order and establishes what its next step needs. */
  lemma LocalKeeps(k: Task, p: P.Pool, id: Id, pc: Pc, out: Outcome)
    requires TaskOk(k, LeaseOf(p, id)) && CallOk(k, LeaseOf(p, id), pc)
    ensures var (p', r) := if Releases(pc) then P.Release(p, id, out.save) else (p, Ok(()));
            var (k', next) := Local(k, pc, out, r.Ok?);
            TaskOk(k', LeaseOf(p', id)) && (next.Goto? ==> CallOk(k', LeaseOf(p', id), next.pc))
  {
    hide Local, CallOk, TaskOk, P.Release;
    if Releases(pc) {
      ReleaseKeeps(k, p, id, pc, out);
    } else if Creating(pc) {
      CreateKeeps(k, LeaseOf(p, id), pc, out);
    } else if Destroying(pc) {
      DestroyKeeps(k, LeaseOf(p, id), pc, out);
    } else {
      OtherOpsKeep(k, LeaseOf(p, id), pc, out);
    }
  }

  lemma PutExact(s: World, id: Id, k: Task, other: Id)
    ensures TaskOf(Put(s, id, k), other) == if other == id then k else TaskOf(s, other)
  {
  }

  /** A step, as what it makes of its own task, the pool and the table of calls. */
  lemma StepIsLocal(s: World, t: Tid, out: Outcome)
    requires t in s.calls
    ensures var c, s' := s.calls[t], DoStep(s, t, out);
            var (pool, r) := if Releases(c.pc) then P.Release(s.pool, c.id, out.save) else (s.pool, Ok(()));
            var (k, next) := Local(TaskOf(s, c.id), c.pc, out, r.Ok?);
            && TaskOf(s', c.id) == k && s'.pool == pool
            && s'.calls == if next.Goto? then s.calls[t := Call(c.id, next.pc)] else s.calls - {t}
  {
    hide Local, P.Release, Releases, TaskOf;
    var c := s.calls[t];
    var (pool, r) := if Releases(c.pc) then P.Release(s.pool, c.id, out.save) else (s.pool, Ok(()));
    var k := Local(TaskOf(s, c.id), c.pc, out, r.Ok?).0;
    PutExact(s, c.id, k, c.id);
    SameStores(DoStep(s, t, out), Put(s, c.id, k));
  }

  /** Only one id's stores change; the others' addresses are at most refreshed on disk. */
  ghost predicate OnlyTouches(s: World, s': World, id: Id) {
    forall other :: other != id ==>
      TaskOf(s', other) == TaskOf(s, other) && Refreshed(LeaseOf(s.pool, other), LeaseOf(s'.pool, other))
  }

  lemma TouchKeepsTasks(s: World, s': World, id: Id)
    requires TasksOk(s) && OnlyTouches(s, s', id)
    requires TaskOk(TaskOf(s', id), LeaseOf(s'.pool, id))
    ensures TasksOk(s')
  {
  }

  lemma TouchKeepsUnused(s: World, s': World, id: Id)
    requires TasksOk(s) && UnusedOk(s) && OnlyTouches(s, s', id)
    requires s.used <= s'.used
    requires id !in s'.used ==> GoneTask(TaskOf(s', id), LeaseOf(s'.pool, id)) && id !in s'.recorded
    requires forall u :: u in s'.calls && Creating(s'.calls[u].pc) ==> s'.calls[u].id in s'.used
    ensures UnusedOk(s')
  {
  }

  lemma TouchKeepsCalls(s: World, s': World, id: Id, t: Tid)
    requires TasksOk(s) && CallsOk(s) && OnlyTouches(s, s', id)
    requires forall u :: u in s'.calls && u != t ==> u in s.calls && s'.calls[u] == s.calls[u]
    requires forall u :: u in s'.calls && u != t && s.calls[u].id == id ==>
               CallOk(TaskOf(s', id), LeaseOf(s'.pool, id), s.calls[u].pc)
    requires t in s'.calls ==>
               s'.calls[t].id == id && CallOk(TaskOf(s', id), LeaseOf(s'.pool, id), s'.calls[t].pc)
    ensures CallsOk(s')
  {
    forall u | u in s'.calls
      ensures CallOk(TaskOf(s', s'.calls[u].id), LeaseOf(s'.pool, s'.calls[u].id), s'.calls[u].pc)
    {
      if u != t && s.calls[u].id != id {
        var other := s.calls[u].id;
        RefreshKeeps(TaskOf(s, other), LeaseOf(s.pool, other), LeaseOf(s'.pool, other));
      }
    }
  }

  lemma StepTouches(s: World, t: Tid, out: Outcome)
    requires t in s.calls
    ensures OnlyTouches(s, DoStep(s, t, out), s.calls[t].id)
  {
  }

  /** A create and a locked call can meet on one id only while the latter has not read the
      row yet, and such a read turns back: neither disturbs the other. */
  lemma MeetingIsHarmless(k: Task, p: P.Pool, id: Id, pc: Pc, other: Pc, out: Outcome)
    requires TaskOk(k, LeaseOf(p, id)) && CallOk(k, LeaseOf(p, id), pc) && CallOk(k, LeaseOf(p, id), other)
    requires Creating(pc) != Creating(other)
    ensures var (p', r) := if Releases(pc) then P.Release(p, id, out.save) else (p, Ok(()));
            var (k', next) := Local(k, pc, out, r.Ok?);
            CallOk(k', LeaseOf(p', id), other)
  {
  }

  lemma NextKeepsKind(k: Task, pc: Pc, out: Outcome, released: bool)
    ensures var next := Local(k, pc, out, released).1;
            next.Goto? ==> Creating(next.pc) == Creating(pc)
    ensures k.recorded ==> Local(k, pc, out, released).0.recorded
    ensures Reading(pc) ==> Local(k, pc, out, released).0 == k
  {
  }

  /** What a step does to its own id. */
  lemma StepOnOwnId(s: World, usable: seq<string>, t: Tid, out: Outcome)
    requires Inv(s, usable) && t in s.calls
    ensures var id := s.calls[t].id;
            var s' := DoStep(s, t, out);
            var (k', e') := (TaskOf(s', id), LeaseOf(s'.pool, id));
            && TaskOk(k', e')
            && (id !in s.used ==> GoneTask(k', e') && !k'.recorded)
            && (t in s'.calls ==> CallOk(k', e', s'.calls[t].pc))
            && forall u :: u in s.calls && u != t && s.calls[u].id == id ==> CallOk(k', e', s.calls[u].pc)
  {
    var c := s.calls[t];
    var (pool, r) := if Releases(c.pc) then P.Release(s.pool, c.id, out.save) else (s.pool, Ok(()));
    var (k, next) := Local(TaskOf(s, c.id), c.pc, out, r.Ok?);
    StepIsLocal(s, t, out);
    LocalKeeps(TaskOf(s, c.id), s.pool, c.id, c.pc, out);
    forall u | u in s.calls && u != t && s.calls[u].id == c.id ensures CallOk(k, LeaseOf(pool, c.id), s.calls[u].pc) {
      MeetingIsHarmless(TaskOf(s, c.id), s.pool, c.id, c.pc, s.calls[u].pc, out);
    }
    if c.id !in s.used {
      UnusedIsReading(TaskOf(s, c.id), LeaseOf(s.pool, c.id), c.pc);
      NextKeepsKind(TaskOf(s, c.id), c.pc, out, r.Ok?);
    }
  }

  /** What a step does to the table of calls. */
  lemma StepOnCalls(s: World, t: Tid, out: Outcome)
    requires t in s.calls
    ensures var s' := DoStep(s, t, out);
            && (forall u :: u in s'.calls ==> u in s.calls && s'.calls[u].id == s.calls[u].id &&
                                              Creating(s'.calls[u].pc) == Creating(s.calls[u].pc))
            && (forall u :: u in s'.calls && u != t ==> s'.calls[u] == s.calls[u])
            && s'.used == s.used && s'.serving == s.serving
            && ((forall i :: i in s.parts ==> s.parts[i] != {}) ==> forall i :: i in s'.parts ==> s'.parts[i] != {})
  {
    var c := s.calls[t];
    var (pool, r) := if Releases(c.pc) then P.Release(s.pool, c.id, out.save) else (s.pool, Ok(()));
    NextKeepsKind(TaskOf(s, c.id), c.pc, out, r.Ok?);
    hide Local, P.Release;
  }

  lemma StepKeepsInv(s: World, usable: seq<string>, t: Tid, out: Outcome)
    requires Inv(s, usable) && t in s.calls
    ensures Inv(DoStep(s, t, out), usable)
  {
    var id := s.calls[t].id;
    var s' := DoStep(s, t, out);
    P.ReleaseKeepsInv(s.pool, usable, id, out.save);
    assert P.Inv(s'.pool, usable);
    StepOnOwnId(s, usable, t, out);
    StepOnCalls(s, t, out);
    StepTouches(s, t, out);
    hide DoStep, P.Inv, CallOk, TaskOk, OnlyTouches;
    TouchKeepsTasks(s, s', id);
    TouchKeepsUnused(s, s', id);
    TouchKeepsCalls(s, s', id, t);
  }

  lemma UnusedIsReading(k: Task, e: Lease, pc: Pc)
    requires GoneTask(k, e) && !k.recorded && CallOk(k, e, pc) && !Creating(pc)
    ensures Reading(pc)
  {
  }

  /** A new id starts clean, and nobody but a reader can be at its door. */
  lemma NewIdIsClean(s: World, usable: seq<string>, id: Id)
    requires Inv(s, usable) && id !in s.used
    ensures TaskOf(s, id) == Task(None, {}, false, false) && id !in s.pool.leased && id !in s.pool.disk
    ensures forall u :: u in s.calls && s.calls[u].id == id ==> Reading(s.calls[u].pc)
  {
    forall u | u in s.calls && s.calls[u].id == id ensures Reading(s.calls[u].pc) {
      UnusedIsReading(TaskOf(s, id), LeaseOf(s.pool, id), s.calls[u].pc);
    }
  }

  /** What the allocation for a new id gives its create. */
  lemma NewAllocation(p: P.Pool, id: Id, save: P.Persist)
    requires id !in p.leased && id !in p.disk
    ensures var (p', r) := P.Allocate(p, id, save);
            var k := Task(None, {}, false, false);
            TaskOk(k, LeaseOf(p', id)) && (r.Ok? ==> CallOk(k, LeaseOf(p', id), CreateWorkspace))
  {
  }

  lemma ReadersNeedNothing(k: Task, e: Lease, pc: Pc)
    requires Reading(pc)
    ensures CallOk(k, e, pc) && !Creating(pc)
  {
  }

  /** A new create touches its own id only. */
  lemma AllocationTouches(s: World, s': World, id: Id, save: P.Persist)
    requires s'.rows == s.rows && s'.parts == s.parts && s'.work == s.work && s'.recorded == s.recorded
    requires s'.pool == P.Allocate(s.pool, id, save).0
    ensures OnlyTouches(s, s', id) && TaskOf(s', id) == TaskOf(s, id)
  {
    SameStores(s, s');
    hide P.Allocate, LeaseOf, Refreshed;
    forall other | other != id ensures Refreshed(LeaseOf(s.pool, other), LeaseOf(s'.pool, other)) {
      PoolFrame(s.pool, id, save, other);
    }
  }

  lemma BeginCreateKeepsInv(s: World, usable: seq<string>, t: Tid, id: Id, save: P.Persist)
    requires Inv(s, usable) && Enabled(s, BeginCreate(t, id, save))
    ensures Inv(Apply(s, usable, BeginCreate(t, id, save)), usable)
  {
    hide P.Allocate, P.Inv, TaskOk, CallOk, GoneTask, NoDup, LeaseOf, OnlyTouches, Reading, TaskOf;
    var s' := Apply(s, usable, BeginCreate(t, id, save));
    P.AllocateKeepsInv(s.pool, usable, id, save);
    NewIdIsClean(s, usable, id);
    NewAllocation(s.pool, id, save);
    AllocationTouches(s, s', id, save);
    forall u | u in s'.calls && u != t && s.calls[u].id == id
      ensures CallOk(TaskOf(s', id), LeaseOf(s'.pool, id), s.calls[u].pc) && !Creating(s.calls[u].pc)
    {
      ReadersNeedNothing(TaskOf(s', id), LeaseOf(s'.pool, id), s.calls[u].pc);
    }
    TouchKeepsTasks(s, s', id);
    TouchKeepsUnused(s, s', id);
    TouchKeepsCalls(s, s', id, t);
  }

  /** A restart takes memory from the state file; every present VM still has its address. */
  lemma CrashKeepsInv(s: World, usable: seq<string>)
    requires Inv(s, usable)
    ensures Inv(Apply(s, usable, Crash), usable)
  {
    var s' := Apply(s, usable, Crash);
    P.ReloadKeepsInv(s.pool, usable);
    forall id ensures TaskOk(TaskOf(s', id), LeaseOf(s'.pool, id)) {
      assert TaskOk(TaskOf(s, id), LeaseOf(s.pool, id));
      assert TaskOf(s', id) == TaskOf(s, id);
    }
  }

  /** A change of one task that every call on it can live with. */
  lemma HarmlessKeepsInv(s: World, s': World, usable: seq<string>, id: Id)
    requires Inv(s, usable) && OnlyTouches(s, s', id) && id in s.used
    requires s'.pool == s.pool && s'.calls == s.calls && s'.used == s.used && s'.serving == s.serving
    requires TaskOk(TaskOf(s', id), LeaseOf(s'.pool, id))
    requires forall pc :: CallOk(TaskOf(s, id), LeaseOf(s.pool, id), pc) ==>
                          CallOk(TaskOf(s', id), LeaseOf(s.pool, id), pc)
    requires forall i :: i in s'.parts ==> s'.parts[i] != {}
    ensures Inv(s', usable)
  {
    hide TaskOk, CallOk, GoneTask, P.Inv, NoDup, LeaseOf, Refreshed;
    TouchKeepsTasks(s, s', id);
    TouchKeepsUnused(s, s', id);
    forall u | u in s.calls
      ensures CallOk(TaskOf(s', s.calls[u].id), LeaseOf(s'.pool, s.calls[u].id), s.calls[u].pc)
    {
      if s.calls[u].id != id {
        assert TaskOf(s', s.calls[u].id) == TaskOf(s, s.calls[u].id);
      }
    }
  }

  lemma DeathIsHarmless(k: Task, e: Lease)
    requires TaskOk(k, e)
    ensures var k' := k.(parts := k.parts - {Process});
            TaskOk(k', e) && forall pc :: CallOk(k, e, pc) ==> CallOk(k', e, pc)
  {
  }

  /** A VM process exits by itself. */
  lemma DeathKeepsInv(s: World, usable: seq<string>, id: Id)
    requires Inv(s, usable) && Enabled(s, ProcessDies(id))
    ensures Inv(Apply(s, usable, ProcessDies(id)), usable)
  {
    var s' := Apply(s, usable, ProcessDies(id));
    DeathIsHarmless(TaskOf(s, id), LeaseOf(s.pool, id));
    assert TaskOf(s', id) == TaskOf(s, id).(parts := PartsOf(s, id) - {Process});
    assert OnlyTouches(s, s', id);
    assert !GoneTask(TaskOf(s, id), LeaseOf(s.pool, id));
    hide TaskOk, CallOk, GoneTask, P.Inv, NoDup, LeaseOf, OnlyTouches;
    HarmlessKeepsInv(s, s', usable, id);
  }

  lemma StoppingIsHarmless(k: Task, e: Lease)
    requires TaskOk(k, e) && k.row == Some(Running)
    ensures var k' := k.(row := Some(Stopped));
            TaskOk(k', e) && forall pc :: CallOk(k, e, pc) ==> CallOk(k', e, pc)
  {
  }

  /** Start-up finds a running row without a process. */
  lemma ReconcileKeepsInv(s: World, usable: seq<string>, id: Id)
    requires Inv(s, usable) && Enabled(s, Reconcile(id, true))
    ensures Inv(Apply(s, usable, Reconcile(id, true)), usable)
  {
    var s' := Apply(s, usable, Reconcile(id, true));
    StoppingIsHarmless(TaskOf(s, id), LeaseOf(s.pool, id));
    assert TaskOf(s', id) == TaskOf(s, id).(row := Some(Stopped));
    assert OnlyTouches(s, s', id);
    assert !GoneTask(TaskOf(s, id), LeaseOf(s.pool, id));
    hide TaskOk, CallOk, GoneTask, P.Inv, NoDup, LeaseOf, OnlyTouches;
    HarmlessKeepsInv(s, s', usable, id);
  }

  lemma ApplyKeepsInv(s: World, usable: seq<string>, l: Label)
    requires Inv(s, usable)
    ensures Inv(Apply(s, usable, l), usable)
  {
    if Enabled(s, l) {
      match l
      case BeginCreate(t, id, save) => BeginCreateKeepsInv(s, usable, t, id, save);
      case Step(t, out) => StepKeepsInv(s, usable, t, out);
      case Crash => CrashKeepsInv(s, usable);
      case ProcessDies(id) => DeathKeepsInv(s, usable, id);
      case Reconcile(id, ok) => if ok { ReconcileKeepsInv(s, usable, id); }
      case Begin(t, id, op) => BeginKeepsInv(s, usable, t, id, op);
      case Cancel(t) => CancelKeepsInv(s, usable, t);
      case Serve => ServeKeepsInv(s, usable);
    }
  }

  lemma BeginKeepsInv(s: World, usable: seq<string>, t: Tid, id: Id, op: Op)
    requires Inv(s, usable) && Enabled(s, Begin(t, id, op))
    ensures Inv(Apply(s, usable, Begin(t, id, op)), usable)
  {
    var s' := Apply(s, usable, Begin(t, id, op));
    EntryNeedsNothing(TaskOf(s, id), LeaseOf(s.pool, id), op);
    hide TaskOk, CallOk, GoneTask, P.Inv, NoDup, LeaseOf, Entry;
    SameStores(s, s');
  }

  /** A call relies on nothing before its first step. */
  lemma EntryNeedsNothing(k: Task, e: Lease, op: Op)
    ensures CallOk(k, e, Entry(op)) && !Creating(Entry(op))
  {
  }

  lemma SameStores(s: World, s': World)
    requires s'.rows == s.rows && s'.parts == s.parts && s'.work == s.work && s'.recorded == s.recorded
    ensures forall id :: TaskOf(s', id) == TaskOf(s, id)
  {
  }

  lemma CancelKeepsInv(s: World, usable: seq<string>, t: Tid)
    requires Inv(s, usable) && t in s.calls
    ensures Inv(s.(calls := s.calls - {t}), usable)
  {
    hide TaskOk, CallOk, GoneTask, P.Inv, NoDup, LeaseOf;
    SameStores(s, s.(calls := s.calls - {t}));
  }

  lemma ServeKeepsInv(s: World, usable: seq<string>)
    requires Inv(s, usable)
    ensures Inv(s.(serving := true), usable)
  {
    hide TaskOk, CallOk, GoneTask, P.Inv, NoDup, LeaseOf;
    SameStores(s, s.(serving := true));
  }

  /** The invariant holds after every run, whatever fails, is cancelled or crashes. */
  lemma {:induction false} RunKeepsInv(s: World, usable: seq<string>, run: seq<Label>)
    requires Inv(s, usable)
    ensures Inv(Exec(s, usable, run), usable)
    decreases |run|
  {
    if run == [] {
    } else {
      ApplyKeepsInv(s, usable, run[0]);
      RunKeepsInv(Apply(s, usable, run[0]), usable, run[1..]);
    }
  }

  lemma InitOk(usable: seq<string>)
    requires NoDup(usable)
    ensures Inv(Init(usable), usable)
  {
  }
}
