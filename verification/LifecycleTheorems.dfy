/** What the lifecycle protocol guarantees over every run. */
module LifecycleTheorems {
  import opened Common
  import opened Lifecycle
  import P = IpPool

  ghost predicate Reachable(s: World, usable: seq<string>) {
    NoDup(usable) && exists run :: s == Exec(Init(usable), usable, run)
  }

  lemma ReachableInv(s: World, usable: seq<string>)
    requires Reachable(s, usable)
    ensures Inv(s, usable)
  {
    var run :| s == Exec(Init(usable), usable, run);
    InitOk(usable);
    RunKeepsInv(Init(usable), usable, run);
  }

  lemma {:induction false} ExecAppend(s: World, usable: seq<string>, run: seq<Label>, l: Label)
    ensures Exec(s, usable, run + [l]) == Apply(Exec(s, usable, run), usable, l)
    decreases |run|
  {
    hide Apply;
    if run == [] {
      assert [l][1..] == [];
      assert run + [l] == [l];
    } else {
      assert (run + [l])[1..] == run[1..] + [l];
      ExecAppend(Apply(s, usable, run[0]), usable, run[1..], l);
    }
  }

  lemma {:induction false} ExecSplit(s: World, usable: seq<string>, run: seq<Label>, more: seq<Label>)
    ensures Exec(s, usable, run + more) == Exec(Exec(s, usable, run), usable, more)
    decreases |run|
  {
    hide Apply;
    if run == [] {
      assert run + more == more;
    } else {
      assert (run + more)[1..] == run[1..] + more;
      ExecSplit(Apply(s, usable, run[0]), usable, run[1..], more);
    }
  }

  /** The history of rows only grows. */
  lemma {:induction false} RecordedForever(s: World, usable: seq<string>, run: seq<Label>)
    ensures s.recorded <= Exec(s, usable, run).recorded
    decreases |run|
  {
    if run == [] {
    } else {
      RecordedStays(s, usable, run[0]);
      RecordedForever(Apply(s, usable, run[0]), usable, run[1..]);
    }
  }

  lemma RecordedStays(s: World, usable: seq<string>, l: Label)
    ensures s.recorded <= Apply(s, usable, l).recorded
  {
    hide DoStep;
    if l.Step? && Enabled(s, l) {
      StepKeepsHistory(s, l.t, l.out);
    }
  }

  lemma StepKeepsHistory(s: World, t: Tid, out: Outcome)
    requires t in s.calls
    ensures s.recorded <= DoStep(s, t, out).recorded
  {
    hide Local, P.Release;
    var c := s.calls[t];
    var r := if Releases(c.pc) then P.Release(s.pool, c.id, out.save).1 else Ok(());
    NextKeepsKind(TaskOf(s, c.id), c.pc, out, r.Ok?);
  }

  lemma ReachableNext(s: World, usable: seq<string>, l: Label)
    requires Reachable(s, usable)
    ensures Reachable(Apply(s, usable, l), usable)
  {
    var run :| s == Exec(Init(usable), usable, run);
    ExecAppend(Init(usable), usable, run, l);
  }

  predicate Gone(s: World, id: Id) {
    GoneTask(TaskOf(s, id), LeaseOf(s.pool, id))
  }

  // ---- cleanup_pending --------------------------------------------------------------------

  /** In every reachable world a cleanup-pending row has neither VM nor workspace. */
  lemma PendingMeansAbsent(s: World, usable: seq<string>, id: Id)
    requires Reachable(s, usable) && id in s.rows && s.rows[id] == CleanupPending
    ensures PartsOf(s, id) == {} && id !in s.work
  {
    ReachableInv(s, usable);
    assert TaskOk(TaskOf(s, id), LeaseOf(s.pool, id));
  }

  /** The id once had a row, and now has none or a cleanup-pending one. */
  predicate Sealed(s: World, id: Id) {
    id in s.recorded && (id in s.rows ==> s.rows[id] == CleanupPending)
  }

  lemma LocalKeepsSealed(k: Task, e: Lease, pc: Pc, out: Outcome, released: bool)
    requires TaskOk(k, e) && CallOk(k, e, pc)
    requires k.recorded && (k.row.None? || k.row == Some(CleanupPending))
    ensures var k' := Local(k, pc, out, released).0;
            && k'.recorded && (k'.row.None? || k'.row == Some(CleanupPending))
            && (k.row.None? ==> k'.row.None?)
            && (k'.row != k.row ==> pc.DeleteRow? && k'.row.None?)
  {
  }

  /** The only way out of cleanup_pending is the deletion of the row. */
  lemma SealedStays(s: World, usable: seq<string>, l: Label, id: Id)
    requires Inv(s, usable) && Sealed(s, id)
    ensures var s' := Apply(s, usable, l);
            && Sealed(s', id)
            && (id !in s.rows ==> id !in s'.rows)
            && (id in s.rows && id !in s'.rows ==>
                  l.Step? && l.t in s.calls && s.calls[l.t] == Call(id, DeleteRow))
  {
    if l.Step? && Enabled(s, l) && s.calls[l.t].id == id {
      var c := s.calls[l.t];
      var r := if Releases(c.pc) then P.Release(s.pool, c.id, l.out.save).1 else Ok(());
      LocalKeepsSealed(TaskOf(s, id), LeaseOf(s.pool, id), c.pc, l.out, r.Ok?);
    }
  }

  lemma {:induction false} SealedForever(s: World, usable: seq<string>, run: seq<Label>, id: Id)
    requires Inv(s, usable) && Sealed(s, id)
    ensures var s' := Exec(s, usable, run);
            Inv(s', usable) && Sealed(s', id) && (id !in s.rows ==> id !in s'.rows)
    decreases |run|
  {
    if run == [] {
    } else {
      SealedStays(s, usable, run[0], id);
      ApplyKeepsInv(s, usable, run[0]);
      SealedForever(Apply(s, usable, run[0]), usable, run[1..], id);
    }
  }

  /** Once cleanup is pending, then at every later time, whatever else happens, the row is
      cleanup-pending or deleted, and VM and workspace never come back. */
  lemma PendingIsFinal(s: World, usable: seq<string>, run: seq<Label>, id: Id)
    requires Reachable(s, usable) && id in s.rows && s.rows[id] == CleanupPending
    ensures var s' := Exec(s, usable, run);
            && (id in s'.rows ==> s'.rows[id] == CleanupPending)
            && PartsOf(s', id) == {} && id !in s'.work
            && (id !in s'.rows ==> Gone(s', id))
  {
    ReachableInv(s, usable);
    assert TaskOk(TaskOf(s, id), LeaseOf(s.pool, id));
    SealedForever(s, usable, run, id);
    var s' := Exec(s, usable, run);
    assert TaskOk(TaskOf(s', id), LeaseOf(s'.pool, id));
  }

  /** While cleanup is pending, restart, stop, fail and restore turn back at their first step
      without touching anything. */
  lemma PendingIsTurnedAway(s: World, usable: seq<string>, t: Tid, out: Outcome)
    requires Inv(s, usable) && t in s.calls && !Destroying(s.calls[t].pc)
    requires s.calls[t].id in s.rows && s.rows[s.calls[t].id] == CleanupPending
    ensures var s' := Apply(s, usable, Step(t, out));
            && TaskOf(s', s.calls[t].id) == TaskOf(s, s.calls[t].id) && s'.pool == s.pool
            && (t !in s'.calls || s'.calls[t].pc.Rollback?)
            && (Reading(s.calls[t].pc) ==> t !in s'.calls)
  {
  }

  // ---- addresses -----------------------------------------------------------------------------

  /** Every present VM has its address allocated in memory and on disk, and no two present VMs
      share one; failed creates, failed saves and restarts included. */
  lemma PresentVmsOwnDistinctAddresses(s: World, usable: seq<string>, id: Id, other: Id)
    requires Reachable(s, usable) && PartsOf(s, id) != {} && PartsOf(s, other) != {}
    ensures id in s.pool.leased && id in s.pool.disk && s.pool.leased[id] == s.pool.disk[id] &&
              s.pool.leased[id] in usable
    ensures id in s.pool.leased && other in s.pool.leased && s.pool.leased[id] == s.pool.leased[other] ==> id == other
  {
    ReachableInv(s, usable);
    assert TaskOk(TaskOf(s, id), LeaseOf(s.pool, id));
    assert TaskOk(TaskOf(s, other), LeaseOf(s.pool, other));
  }

  /** Whatever step takes an address away from an id, in memory or on disk, the VM of that id
      is absent before and after it. */
  lemma AddressFreedOnlyWhenAbsent(s: World, usable: seq<string>, l: Label, id: Id)
    requires Reachable(s, usable)
    requires var s' := Apply(s, usable, l);
             (id in s.pool.leased && id !in s'.pool.leased) || (id in s.pool.disk && id !in s'.pool.disk)
    ensures PartsOf(s, id) == {} && PartsOf(Apply(s, usable, l), id) == {}
  {
    hide Reachable, DoStep, P.Inv, P.Allocate, P.Reload, Local, CallsOk, OneCallEach, Locked;
    ReachableInv(s, usable);
    ApplyKeepsInv(s, usable, l);
    var s' := Apply(s, usable, l);
    assert TaskOk(TaskOf(s', id), LeaseOf(s'.pool, id));
    assert TaskOk(TaskOf(s, id), LeaseOf(s.pool, id));
    if l.Step? && Enabled(s, l) {
      FreeingStep(s, usable, l.t, l.out, id);
    }
  }

  lemma FreeingStep(s: World, usable: seq<string>, t: Tid, out: Outcome, id: Id)
    requires Inv(s, usable) && t in s.calls
    requires var s' := DoStep(s, t, out);
             (id in s.pool.leased && id !in s'.pool.leased) || (id in s.pool.disk && id !in s'.pool.disk)
    ensures PartsOf(s, id) == {}
  {
    hide DoStep, P.Inv, Local;
    var c := s.calls[t];
    StepIsLocal(s, t, out);
    assert CallOk(TaskOf(s, c.id), LeaseOf(s.pool, c.id), c.pc);
    assert TaskOk(TaskOf(s, id), LeaseOf(s.pool, id));
    if c.id != id { StepTouches(s, t, out); }
  }

  // ---- destroy -------------------------------------------------------------------------------

  /** No step of a destroy brings anything of its task back. */
  lemma DestroyOnlyShrinks(s: World, usable: seq<string>, t: Tid, out: Outcome)
    requires Inv(s, usable) && t in s.calls && Destroying(s.calls[t].pc)
    ensures var id := s.calls[t].id;
            var s' := Apply(s, usable, Step(t, out));
            && PartsOf(s', id) <= PartsOf(s, id)
            && (id in s'.work ==> id in s.work)
            && (id in s'.rows ==> id in s.rows)
            && (id in s'.pool.leased ==> id in s.pool.leased && s'.pool.leased[id] == s.pool.leased[id])
            && (id in s'.pool.disk ==> id in s.pool.disk && s'.pool.disk[id] == s.pool.disk[id])
  {
    hide Local, CallOk, TaskOk, P.Release, P.Inv, DoStep, Destroying;
    var c := s.calls[t];
    var r := if Releases(c.pc) then P.Release(s.pool, c.id, out.save).1 else Ok(());
    LocalShrinks(TaskOf(s, c.id), LeaseOf(s.pool, c.id), c.pc, out, r.Ok?);
    StepIsLocal(s, t, out);
    ReleaseShrinks(s.pool, c.id, out.save);
  }

  lemma ReleaseShrinks(p: P.Pool, id: Id, save: P.Persist)
    ensures var p' := P.Release(p, id, save).0;
            && (id in p'.leased ==> id in p.leased && p'.leased[id] == p.leased[id])
            && (id in p'.disk ==> id in p.disk && p'.disk[id] == p.disk[id])
  {
  }

  lemma LocalShrinks(k: Task, e: Lease, pc: Pc, out: Outcome, released: bool)
    requires Destroying(pc) && CallOk(k, e, pc)
    ensures var k' := Local(k, pc, out, released).0;
            k'.parts <= k.parts && (k'.work ==> k.work) && (k'.row.Some? ==> k.row.Some?)
  {
  }

  /** The step with which a destroy reports success. */
  predicate Succeeds(s: World, t: Tid, out: Outcome) {
    t in s.calls && out.ok &&
    (s.calls[t].pc.DeleteRow? || (s.calls[t].pc.DestroyRead? && s.calls[t].id !in s.rows))
  }

  /** A destroy that reports success leaves nothing of a task that ever had a row; for an id
      that never had one it reports success and changes nothing. */
  lemma SuccessMeansGone(s: World, usable: seq<string>, t: Tid, out: Outcome)
    requires Reachable(s, usable) && Succeeds(s, t, out)
    ensures var id := s.calls[t].id;
            var s' := Apply(s, usable, Step(t, out));
            && id !in s'.rows && t !in s'.calls
            && (id in s.recorded ==> Gone(s', id))
            && (s.calls[t].pc.DestroyRead? ==> TaskOf(s', id) == TaskOf(s, id) && s'.pool == s.pool)
  {
    hide Local, P.Release, P.Inv, DoStep, CallOk;
    ReachableInv(s, usable);
    ApplyKeepsInv(s, usable, Step(t, out));
    var c := s.calls[t];
    var s' := Apply(s, usable, Step(t, out));
    LocalSuccess(TaskOf(s, c.id), c.pc, out);
    StepIsLocal(s, t, out);
    assert TaskOk(TaskOf(s', c.id), LeaseOf(s'.pool, c.id));
  }

  lemma LocalSuccess(k: Task, pc: Pc, out: Outcome)
    requires out.ok && (pc.DeleteRow? || (pc.DestroyRead? && k.row.None?))
    ensures var (k', next) := Local(k, pc, out, true);
            next.Return? && k'.row.None? && k'.recorded == k.recorded && (pc.DestroyRead? ==> k' == k)
  {
  }

  /** The most steps a call can still take. */
  function Rank(pc: Pc): nat {
    match pc
    case CreateWorkspace => 8
    case FindMountpoint => 7
    case Configure => 6
    case CreateVm => 5
    case RecordTask => 4
    case UndoVm => 3
    case UndoWorkspace(_) => 2
    case UndoAddress(_) => 1
    case RestartRead => 4
    case MarkStarting => 3
    case StartVm => 2
    case RevertToFailed => 1
    case MarkRunning => 1
    case RestoreRead => 5
    case StopRead(_) => 4
    case StopVm(_) => 3
    case MarkStopped(_) => 2
    case Rollback => 1
    case FailRead => 2
    case MarkFailed => 1
    case DestroyRead => 7
    case DeleteVm(_) => 6
    case DestroyWorkspace(_) => 5
    case VerifyWorkspace(_) => 4
    case MarkPending => 3
    case ReleaseAddress => 2
    case DeleteRow => 1
  }

  /** Every step of every call brings it nearer to its end, however it ends. */
  lemma RankDrops(k: Task, pc: Pc, out: Outcome, released: bool)
    ensures Rank(pc) > 0
    ensures var next := Local(k, pc, out, released).1; next.Goto? ==> Rank(next.pc) < Rank(pc)
  {
  }

  /** A fault-free continuation of t: no crash, no cancellation, every step of t ends well.
      All other goroutines may do, and suffer, anything. */
  predicate FaultFreeFor(t: Tid, l: Label) {
    match l
    case Crash => false
    case Cancel(u) => u != t
    case Begin(u, _, _) => u != t
    case BeginCreate(u, _, _) => u != t
    case Step(u, out) => u == t ==> out == FINE
    case _ => true
  }

  function Turns(t: Tid, run: seq<Label>): nat {
    if run == [] then 0 else (if run[0].Step? && run[0].t == t then 1 else 0) + Turns(t, run[1..])
  }

  /** t is destroying id with at most n steps to go, or has finished. */
  ghost predicate OnItsWay(s: World, t: Tid, id: Id, n: int) {
    id in s.recorded &&
    if t in s.calls then
      s.calls[t].id == id && Destroying(s.calls[t].pc) && Rank(s.calls[t].pc) <= n &&
      (s.calls[t].pc.VerifyWorkspace? ==> id !in s.work)
    else id !in s.rows
  }

  lemma OthersSpare(s: World, usable: seq<string>, l: Label, t: Tid, id: Id, n: int)
    requires Inv(s, usable) && OnItsWay(s, t, id, n)
    requires FaultFreeFor(t, l) && !(l.Step? && l.t == t) && !l.Crash?
    ensures OnItsWay(Apply(s, usable, l), t, id, n)
  {
    if t !in s.calls {
      SealedStays(s, usable, l, id);
    } else {
      if Foreign(t, l) {
        OthersSpareOwner(s, usable, l, t);
      } else {
        assert !Enabled(s, l);
      }
    }
  }

  /** t works on a task nobody else can be working on: under the lock of a task that has had a
      row, or creating a task that has none yet. */
  predicate Owns(s: World, t: Tid) {
    t in s.calls && (s.calls[t].id in s.recorded <==> !Creating(s.calls[t].pc))
  }

  /** What there is of a VM that nobody works on: its process may exit by itself, no more. */
  predicate Survives(was: set<Part>, parts: set<Part>) {
    parts <= was && was - {Process} <= parts
  }

  /** Then nobody else's step touches its call, its row, its workspace or its history, starts or
      removes anything of its VM, or changes its address (saves may bring the file in line with
      it). */
  predicate Spared(s: World, s': World, t: Tid) {
    && t in s.calls && t in s'.calls && s'.calls[t] == s.calls[t]
    && s'.serving == s.serving && s.recorded <= s'.recorded
    && var id := s.calls[t].id;
       Owns(s, t) ==>
         && Owns(s', t)
         && TaskOf(s', id).(parts := {}) == TaskOf(s, id).(parts := {})
         && Survives(PartsOf(s, id), PartsOf(s', id))
         && Refreshed(LeaseOf(s.pool, id), LeaseOf(s'.pool, id))
  }

  /** A label by which a goroutine other than t, or the outside world, can act. */
  predicate Foreign(t: Tid, l: Label) {
    match l
    case BeginCreate(u, _, _) => u != t
    case Begin(u, _, _) => u != t
    case Step(u, _) => u != t
    case Cancel(u) => u != t
    case ProcessDies(_) => true
    case _ => false
  }

  lemma OthersSpareOwner(s: World, usable: seq<string>, l: Label, t: Tid)
    requires Inv(s, usable) && t in s.calls && Foreign(t, l)
    ensures Spared(s, Apply(s, usable, l), t)
    ensures Owns(s, t) && l != ProcessDies(s.calls[t].id) ==>
              PartsOf(Apply(s, usable, l), s.calls[t].id) == PartsOf(s, s.calls[t].id)
  {
    hide Inv, TaskOk, CallOk, DoStep, Locked, LeaseOf;
    if Enabled(s, l) {
      match l {
        case Step(u, out) => OtherStepSpares(s, usable, u, out, t);
        case BeginCreate(u, id, save) => NewCreateSpares(s, usable, u, id, save, t);
        case _ =>
      }
    }
  }

  lemma NewCreateSpares(s: World, usable: seq<string>, u: Tid, id: Id, save: P.Persist, t: Tid)
    requires Inv(s, usable) && t in s.calls && u != t && Enabled(s, BeginCreate(u, id, save))
    ensures Spared(s, Apply(s, usable, BeginCreate(u, id, save)), t)
    ensures Apply(s, usable, BeginCreate(u, id, save)).parts == s.parts
  {
    hide TaskOk, CallOk, CallsOk, OneCallEach, P.Inv, P.Allocate, LeaseOf, Refreshed;
    if Owns(s, t) {
      assert s.calls[t].id in s.used;
      PoolFrame(s.pool, id, save, s.calls[t].id);
    }
  }

  lemma OtherStepSpares(s: World, usable: seq<string>, u: Tid, out: Outcome, t: Tid)
    requires Inv(s, usable) && t in s.calls && u in s.calls && u != t
    ensures Spared(s, DoStep(s, u, out), t)
    ensures Owns(s, t) ==> PartsOf(DoStep(s, u, out), s.calls[t].id) == PartsOf(s, s.calls[t].id)
  {
    hide DoStep, Inv, LeaseOf, Refreshed, Creating, Local, P.Release;
    StepIsLocal(s, u, out);
    StepOnCalls(s, u, out);
    StepKeepsHistory(s, u, out);
    if Owns(s, t) { OtherStepKeepsTask(s, usable, u, out, t); }
  }

  lemma OtherStepKeepsTask(s: World, usable: seq<string>, u: Tid, out: Outcome, t: Tid)
    requires Inv(s, usable) && t in s.calls && u in s.calls && u != t && Owns(s, t)
    ensures var id := s.calls[t].id;
            var s' := DoStep(s, u, out);
            TaskOf(s', id) == TaskOf(s, id) && Refreshed(LeaseOf(s.pool, id), LeaseOf(s'.pool, id))
  {
    hide DoStep, TaskOk, CallOk, P.Release, P.Inv, Releases, Creating;
    StepTouches(s, u, out);
    if s.calls[u].id == s.calls[t].id {
      MeetingReads(s, usable, t, u);
      ReadersReleaseNothing(s.calls[u].pc);
      NextKeepsKind(TaskOf(s, s.calls[u].id), s.calls[u].pc, out, true);
      hide Local;
      StepIsLocal(s, u, out);
    }
  }

  lemma ReadersReleaseNothing(pc: Pc)
    requires Reading(pc)
    ensures !Releases(pc)
  {
  }

  /** Whoever meets the owner on its task is about to read a row that is not there. */
  lemma MeetingReads(s: World, usable: seq<string>, t: Tid, u: Tid)
    requires Inv(s, usable) && u in s.calls && u != t && Owns(s, t) && s.calls[u].id == s.calls[t].id
    ensures Reading(s.calls[u].pc)
  {
  }

  lemma OwnStepAdvances(s: World, usable: seq<string>, t: Tid, id: Id, n: int)
    requires Inv(s, usable) && OnItsWay(s, t, id, n)
    ensures OnItsWay(Apply(s, usable, Step(t, FINE)), t, id, n - 1)
  {
    hide Local, CallOk, TaskOk, DoStep, Rank, P.Release, P.Inv, Destroying;
    if t in s.calls {
      var c := s.calls[t];
      assert CallOk(TaskOf(s, id), LeaseOf(s.pool, id), c.pc);
      StoredIsOk(s.pool, id);
      LocalAdvances(TaskOf(s, id), LeaseOf(s.pool, id), c.pc);
      StepIsLocal(s, t, FINE);
      var s' := Apply(s, usable, Step(t, FINE));
      var (k, next) := Local(TaskOf(s, id), c.pc, FINE, true);
      assert TaskOf(s', id) == k;
    }
  }

  lemma StoredIsOk(p: P.Pool, id: Id)
    ensures P.Release(p, id, P.Stored).1.Ok?
  {
  }

  lemma LocalAdvances(k: Task, e: Lease, pc: Pc)
    requires Destroying(pc) && CallOk(k, e, pc) && (pc.VerifyWorkspace? ==> !k.work)
    ensures var (k', next) := Local(k, pc, FINE, true);
            && (k.recorded ==> k'.recorded)
            && (next.Goto? ==>
                Destroying(next.pc) && Rank(next.pc) < Rank(pc) &&
                (next.pc.VerifyWorkspace? ==> !k'.work))
            && (next.Return? ==> k'.row.None?)
  {
  }

  lemma {:induction false} TurnsFinish(s: World, usable: seq<string>, t: Tid, id: Id, n: int, run: seq<Label>)
    requires Inv(s, usable) && OnItsWay(s, t, id, n)
    requires forall i :: 0 <= i < |run| ==> FaultFreeFor(t, run[i])
    ensures var s' := Exec(s, usable, run); Inv(s', usable) && OnItsWay(s', t, id, n - Turns(t, run))
    decreases |run|
  {
    if run == [] {
    } else {
      assert FaultFreeFor(t, run[0]);
      ApplyKeepsInv(s, usable, run[0]);
      if run[0].Step? && run[0].t == t {
        OwnStepAdvances(s, usable, t, id, n);
        TurnsFinish(Apply(s, usable, run[0]), usable, t, id, n - 1, run[1..]);
      } else {
        OthersSpare(s, usable, run[0], t, id, n);
        TurnsFinish(Apply(s, usable, run[0]), usable, t, id, n, run[1..]);
      }
    }
  }

  /** From every reachable world (after any number of failed, cancelled or crashed destroys), a
      destroy of a task that ever had a row, given seven fault-free turns interleaved with
      anything the other goroutines do, finishes with VM, workspace, address and row all gone. */
  lemma FaultFreeDestroyCompletes(s: World, usable: seq<string>, t: Tid, id: Id, run: seq<Label>)
    requires Reachable(s, usable) && id in s.recorded
    requires Enabled(s, Begin(t, id, Destroy))
    requires forall i :: 0 <= i < |run| ==> FaultFreeFor(t, run[i])
    requires Turns(t, run) >= 7
    ensures var s' := Exec(Apply(s, usable, Begin(t, id, Destroy)), usable, run);
            t !in s'.calls && Gone(s', id)
  {
    hide Exec, Inv, Turns, FaultFreeFor, Gone, Locked;
    ReachableInv(s, usable);
    ApplyKeepsInv(s, usable, Begin(t, id, Destroy));
    var s1 := Apply(s, usable, Begin(t, id, Destroy));
    TurnsFinish(s1, usable, t, id, 7, run);
    var s' := Exec(s1, usable, run);
    if t in s'.calls { RankDrops(TaskOf(s', id), s'.calls[t].pc, FINE, true); }
    RecordedAndRowless(s', usable, id);
  }

  /** What once had a row and has none now is gone. */
  lemma RecordedAndRowless(s: World, usable: seq<string>, id: Id)
    requires Inv(s, usable) && id in s.recorded && id !in s.rows
    ensures Gone(s, id)
  {
    assert TaskOk(TaskOf(s, id), LeaseOf(s.pool, id));
  }

  /** After that, destroying again finds no row, reports success and changes no store. */
  lemma DestroyAgainChangesNothing(s: World, usable: seq<string>, t: Tid, id: Id, out: Outcome)
    requires Inv(s, usable) && Enabled(s, Begin(t, id, Destroy)) && id !in s.rows
    ensures var s' := Exec(s, usable, [Begin(t, id, Destroy), Step(t, out)]);
            && s'.calls == s.calls && s'.pool == s.pool
            && forall other :: TaskOf(s', other) == TaskOf(s, other)
  {
    hide Inv, Locked, Local, Exec, DoStep, TaskOf;
    var s1 := Apply(s, usable, Begin(t, id, Destroy));
    SameStores(s, s1);
    DestroyFindsNothing(s1, usable, t, id, out);
    ExecTwo(s, usable, Begin(t, id, Destroy), Step(t, out));
    assert s1.calls - {t} == s.calls;
  }

  lemma ExecTwo(s: World, usable: seq<string>, l: Label, m: Label)
    ensures Exec(s, usable, [l, m]) == Apply(Apply(s, usable, l), usable, m)
  {
    hide Apply;
    var s1 := Apply(s, usable, l);
    assert [l, m][1..] == [m] && [m][1..] == [];
    assert Exec(s, usable, [l, m]) == Exec(s1, usable, [m]) == Exec(Apply(s1, usable, m), usable, []);
  }

  /** A destroy whose read finds no row returns and changes no store. */
  lemma DestroyFindsNothing(s: World, usable: seq<string>, t: Tid, id: Id, out: Outcome)
    requires t in s.calls && s.calls[t] == Call(id, DestroyRead) && id !in s.rows
    ensures var s' := Apply(s, usable, Step(t, out));
            s'.calls == s.calls - {t} && s'.pool == s.pool && forall other :: TaskOf(s', other) == TaskOf(s, other)
  {
    StepIsLocal(s, t, out);
    StepTouches(s, t, out);
    hide DoStep;
  }

  // ---- what is left behind ---------------------------------------------------------------------

  /** Something of the id is there and no row leads to it. */
  predicate Orphan(s: World, id: Id) {
    id !in s.rows && !Gone(s, id)
  }

  predicate BeingCreated(s: World, id: Id) {
    exists t | t in s.calls :: s.calls[t].id == id && Creating(s.calls[t].pc)
  }

  /** A crash makes orphans of exactly the tasks that are being created when it happens, at
      whatever step they are; of every other id it leaves an orphan only if there was one. */
  lemma CrashLeaksExactlyCreates(s: World, usable: seq<string>, id: Id)
    requires Reachable(s, usable)
    ensures Orphan(Apply(s, usable, Crash), id) <==> BeingCreated(s, id) || (id !in s.rows && !GoneButLease(s, id))
  {
    ReachableInv(s, usable);
    var s' := Apply(s, usable, Crash);
    assert TaskOf(s', id) == TaskOf(s, id);
    assert TaskOk(TaskOf(s, id), LeaseOf(s.pool, id));
    if BeingCreated(s, id) {
      var t :| t in s.calls && s.calls[t].id == id && Creating(s.calls[t].pc);
      assert CallOk(TaskOf(s, id), LeaseOf(s.pool, id), s.calls[t].pc);
    }
  }

  /** Nothing of the task is on the host or in the state file. */
  predicate GoneButLease(s: World, id: Id) {
    GoneTask(TaskOf(s, id), Lease(None, LeaseOf(s.pool, id).disk))
  }

  /** Where every orphan is a create under way, a crash leaves exactly the creates it cuts short. */
  lemma CrashOrphansAreCutCreates(s: World, usable: seq<string>, id: Id)
    requires Reachable(s, usable) && (Orphan(s, id) ==> BeingCreated(s, id))
    ensures Orphan(Apply(s, usable, Crash), id) <==> BeingCreated(s, id)
  {
    CrashLeaksExactlyCreates(s, usable, id);
    ReachableInv(s, usable);
    assert TaskOk(TaskOf(s, id), LeaseOf(s.pool, id));
  }

  /** An orphan that nobody is creating. */
  predicate Stranded(s: World, id: Id) {
    Orphan(s, id) && !BeingCreated(s, id)
  }

  /** No row leads to it, and its directory, TAP, rootfs and workspace stay where they are, and so
      does an address recorded in memory and on disk alike. A process may still exit by itself. */
  predicate StillThere(s: World, s': World, id: Id) {
    && id !in s'.rows && !BeingCreated(s', id) && id in s'.used && id !in s'.recorded
    && Survives(PartsOf(s, id), PartsOf(s', id))
    && (id in s'.work <==> id in s.work)
    && (Firm(LeaseOf(s.pool, id)) ==> LeaseOf(s'.pool, id) == LeaseOf(s.pool, id))
  }

  /** A used id without row or history that nobody is creating. */
  predicate Unreached(s: World, id: Id) {
    id in s.used && id !in s.recorded && id !in s.rows && !BeingCreated(s, id)
  }

  lemma StrandedStays(s: World, usable: seq<string>, l: Label, id: Id)
    requires Inv(s, usable) && Unreached(s, id)
    ensures StillThere(s, Apply(s, usable, l), id)
  {
    hide Inv, TaskOk, CallOk, DoStep, P.Allocate, P.Reload;
    if l.Step? && Enabled(s, l) {
      StrandedStep(s, usable, l.t, l.out, id);
    } else if l.BeginCreate? && Enabled(s, l) {
      PoolFrame(s.pool, l.id, l.save, id);
    } else if l.Crash? {
      CrashKeepsFirm(s, usable, id);
    }
  }

  /** A restart forgets no address that is also in the state file. */
  lemma CrashKeepsFirm(s: World, usable: seq<string>, id: Id)
    ensures Firm(LeaseOf(s.pool, id)) ==> LeaseOf(P.Reload(s.pool, usable), id) == LeaseOf(s.pool, id)
  {
  }

  /** Whoever comes to an id without row or history has not read that yet. */
  lemma RowlessIsReading(k: Task, e: Lease, pc: Pc)
    requires CallOk(k, e, pc) && k.row.None? && !k.recorded && !Creating(pc)
    ensures Reading(pc) && !Releases(pc)
  {
  }

  lemma StrandedStep(s: World, usable: seq<string>, t: Tid, out: Outcome, id: Id)
    requires Inv(s, usable) && Unreached(s, id) && t in s.calls
    ensures StillThere(s, DoStep(s, t, out), id)
  {
    hide DoStep, TaskOk, CallOk, Local, P.Release, P.Inv, Reading, Releases, Creating;
    var c := s.calls[t];
    var r := if Releases(c.pc) then P.Release(s.pool, c.id, out.save).1 else Ok(());
    NextKeepsKind(TaskOf(s, c.id), c.pc, out, r.Ok?);
    StepOnCalls(s, t, out);
    StepTouches(s, t, out);
    if c.id == id {
      RowlessIsReading(TaskOf(s, id), LeaseOf(s.pool, id), c.pc);
      StepIsLocal(s, t, out);
    }
    assert TaskOf(DoStep(s, t, out), id) == TaskOf(s, id);
  }

  /** No operation reaches what has been stranded: after any further run, destroys included, its
      directory, TAP, rootfs, workspace and address are still there and no row leads to them. */
  lemma {:induction false} StrandedForever(s: World, usable: seq<string>, run: seq<Label>, id: Id)
    requires Inv(s, usable) && Unreached(s, id)
    ensures StillThere(s, Exec(s, usable, run), id)
    decreases |run|
  {
    if run == [] {
    } else {
      StrandedStays(s, usable, run[0], id);
      ApplyKeepsInv(s, usable, run[0]);
      hide Inv, Apply, BeingCreated;
      StrandedForever(Apply(s, usable, run[0]), usable, run[1..], id);
    }
  }

  lemma NothingReachesOrphans(s: World, usable: seq<string>, run: seq<Label>, id: Id)
    requires Reachable(s, usable) && Stranded(s, id)
    ensures StillThere(s, Exec(s, usable, run), id)
  {
    ReachableInv(s, usable);
    assert TaskOk(TaskOf(s, id), LeaseOf(s.pool, id));
    hide Exec, Apply;
    StrandedForever(s, usable, run, id);
  }

  /** A create whose allocation was saved by a rename but not confirmed fails at once, and its
      address stays in the state file under an id that has nothing else. */
  lemma HalfSavedCreate(s: World, usable: seq<string>, t: Tid, id: Id)
    requires Reachable(s, usable) && Enabled(s, BeginCreate(t, id, P.StoredUnsure)) && s.pool.available != []
    ensures var s' := Apply(s, usable, BeginCreate(t, id, P.StoredUnsure));
            && t !in s'.calls && id !in s'.pool.leased && Orphan(s', id)
            && id in s'.pool.disk && s'.pool.disk[id] == s.pool.available[0]
  {
    ReachableInv(s, usable);
    assert GoneTask(TaskOf(s, id), LeaseOf(s.pool, id));
  }

  /** A create whose `zfs create` failed but made the dataset ends, after a clean-up without any
      fault, with its address released and its workspace left. */
  lemma HalfMadeWorkspace(s: World, usable: seq<string>, t: Tid, id: Id)
    requires Reachable(s, usable) && t in s.calls && s.calls[t] == Call(id, CreateWorkspace)
    ensures var half := Outcome(false, {}, true, P.Stored, false);
            var s' := Apply(Apply(s, usable, Step(t, half)), usable, Step(t, FINE));
            && t !in s'.calls && id in s'.work && id !in s'.pool.leased && Orphan(s', id)
  {
    hide DoStep, Reachable, P.Inv, CallsOk, OneCallEach;
    ReachableInv(s, usable);
    CreatingHasNoRow(s, usable, t);
    var half := Outcome(false, {}, true, P.Stored, false);
    StepIsLocal(s, t, half);
    var s1 := Apply(s, usable, Step(t, half));
    assert s1.calls[t] == Call(id, UndoAddress(true)) && TaskOf(s1, id).work && TaskOf(s1, id).row.None?;
    StepIsLocal(s1, t, FINE);
    assert TaskOf(Apply(s1, usable, Step(t, FINE)), id) == TaskOf(s1, id);
  }

  lemma CreatingHasNoRow(s: World, usable: seq<string>, t: Tid)
    requires Inv(s, usable) && t in s.calls && Creating(s.calls[t].pc)
    ensures s.calls[t].id !in s.rows
  {
    var id := s.calls[t].id;
    assert CallOk(TaskOf(s, id), LeaseOf(s.pool, id), s.calls[t].pc);
    assert TaskOk(TaskOf(s, id), LeaseOf(s.pool, id));
  }

  /** What destroy cannot do: a daemon that crashes between creating the VM and recording the
      task leaves a VM and an address no row leads to. It leaks, but stays safe. */
  lemma CrashedCreateLeaks(t: Tid, id: Id, a: string) returns (s: World)
    ensures Reachable(s, [a]) && s.serving && s.calls == map[]
    ensures PartsOf(s, id) == ALL_PARTS && id in s.work && id !in s.rows && id !in s.recorded
    ensures s.pool.leased == map[id := a] && s.pool.available == []
  {
    hide Reachable, Apply, Init, CreatedSoFar, PartsOf;
    var usable := [a];
    s := Init(usable);
    StartsReachable(usable);
    ReachableNext(s, usable, Serve);
    s := Apply(s, usable, Serve);
    ReachableNext(s, usable, BeginCreate(t, id, P.Stored));
    FirstCreate(t, id, a);
    s := Apply(s, usable, BeginCreate(t, id, P.Stored));
    JustStarted(s, t, id);
    s := FineCreate(s, usable, t, id);
    VmWithoutRow(s, t, id);
    CrashAndServe(s, id, a);
    ReachableNext(s, usable, Crash);
    s := Apply(s, usable, Crash);
    ReachableNext(s, usable, Serve);
    s := Apply(s, usable, Serve);
  }

  lemma StartsReachable(usable: seq<string>)
    requires NoDup(usable)
    ensures Reachable(Init(usable), usable)
  {
    assert Exec(Init(usable), usable, []) == Init(usable);
  }

  lemma FirstCreate(t: Tid, id: Id, a: string)
    ensures var s := Apply(Init([a]), [a], Serve);
            Apply(s, [a], BeginCreate(t, id, P.Stored)) ==
            World(map[], map[], {}, P.Pool(map[id := a], [], map[id := a]), map[t := Call(id, CreateWorkspace)],
                  true, {id}, {})
  {
  }

  lemma JustStarted(s: World, t: Tid, id: Id)
    requires s.rows == map[] && s.recorded == {} && s.calls == map[t := Call(id, CreateWorkspace)]
    ensures CreatedSoFar(s, t, id, CreateWorkspace)
  {
  }

  lemma VmWithoutRow(s: World, t: Tid, id: Id)
    requires CreatedSoFar(s, t, id, RecordTask)
    ensures var s' := s.(calls := map[], serving := true);
            PartsOf(s', id) == ALL_PARTS && id in s'.work && id !in s'.rows && id !in s'.recorded
  {
  }

  lemma CrashAndServe(s: World, id: Id, a: string)
    requires s.pool == P.Pool(map[id := a], [], map[id := a])
    ensures Apply(Apply(s, [a], Crash), [a], Serve) == s.(calls := map[], serving := true)
  {
    assert a in s.pool.disk.Values by { assert s.pool.disk[id] == a; }
    assert P.Without([a], s.pool.disk.Values) == [] by { assert [a][1..] == []; }
  }

  /** A fault-free create, as far as its VM. */
  predicate CreatedSoFar(s: World, t: Tid, id: Id, pc: Pc) {
    && s.rows == map[] && s.recorded == {}
    && t in s.calls && s.calls[t] == Call(id, pc)
    && (pc != CreateWorkspace ==> id in s.work)
    && (pc == RecordTask ==> PartsOf(s, id) == ALL_PARTS)
  }

  lemma FineCreateStep(s: World, usable: seq<string>, t: Tid, id: Id, pc: Pc, next: Pc)
    requires CreatedSoFar(s, t, id, pc)
    requires (pc, next) in {(CreateWorkspace, FindMountpoint), (FindMountpoint, Configure),
                            (Configure, CreateVm), (CreateVm, RecordTask)}
    ensures var s' := Apply(s, usable, Step(t, FINE)); CreatedSoFar(s', t, id, next) && s'.pool == s.pool
  {
  }

  lemma FineCreate(s: World, usable: seq<string>, t: Tid, id: Id) returns (s': World)
    requires Reachable(s, usable) && CreatedSoFar(s, t, id, CreateWorkspace)
    ensures Reachable(s', usable) && CreatedSoFar(s', t, id, RecordTask) && s'.pool == s.pool
  {
    hide Apply, Reachable, CreatedSoFar;
    FineCreateStep(s, usable, t, id, CreateWorkspace, FindMountpoint);
    ReachableNext(s, usable, Step(t, FINE));
    var s1 := Apply(s, usable, Step(t, FINE));
    FineCreateStep(s1, usable, t, id, FindMountpoint, Configure);
    ReachableNext(s1, usable, Step(t, FINE));
    var s2 := Apply(s1, usable, Step(t, FINE));
    FineCreateStep(s2, usable, t, id, Configure, CreateVm);
    ReachableNext(s2, usable, Step(t, FINE));
    var s3 := Apply(s2, usable, Step(t, FINE));
    FineCreateStep(s3, usable, t, id, CreateVm, RecordTask);
    ReachableNext(s3, usable, Step(t, FINE));
    s' := Apply(s3, usable, Step(t, FINE));
  }
}
