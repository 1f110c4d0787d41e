/**
 The task manager's operations as the code performs them, on its mutable stores. Every
 statement that changes a store is one step of the Lifecycle protocol (the ghost `log` lists
 the steps), so each operation is proved to be an execution of that protocol, with arbitrary
 steps of other goroutines between any two of its own, and inherits all its guarantees.
 */
module TaskManager {
  import opened Common
  import opened Lifecycle
  import opened LifecycleTheorems
  import P = IpPool

  /** How the n-th step of an operation ends, whether the context is cancelled before it, and
      what other goroutines do before it. */
  datatype Plan = Plan(out: nat -> Outcome, cancelled: nat -> bool, others: nat -> seq<Label>)

  /** Nothing goes wrong in this operation; the other goroutines are arbitrary. */
  ghost predicate FaultFree(plan: Plan) {
    forall n :: plan.out(n) == FINE && !plan.cancelled(n)
  }

  /** Nothing of the task is there that was not there before. */
  predicate Shrunk(s: World, s': World, id: Id) {
    && PartsOf(s', id) <= PartsOf(s, id)
    && (id in s'.work ==> id in s.work)
    && (id in s'.rows ==> id in s.rows)
    && (id in s'.pool.leased ==> id in s.pool.leased && s'.pool.leased[id] == s.pool.leased[id])
    && (s.recorded <= s'.recorded)
  }

  /** The task's workspace and address, and whether it has a row, are as they were. */
  predicate Kept(s: World, s': World, id: Id) {
    && (id in s'.work <==> id in s.work)
    && (id in s'.rows <==> id in s.rows)
    && Refreshed(LeaseOf(s.pool, id), LeaseOf(s'.pool, id))
    && (id in s.recorded ==> id in s'.recorded)
  }

  /** Nothing has happened to the task, but that the VM's process may have exited by itself. */
  predicate LeftAlone(s: World, s': World, id: Id) {
    && TaskOf(s', id).(parts := {}) == TaskOf(s, id).(parts := {})
    && Survives(PartsOf(s, id), PartsOf(s', id))
    && Refreshed(LeaseOf(s.pool, id), LeaseOf(s'.pool, id))
  }

  /** The VM at the end: these parts, but for a process that exited by itself in the meantime. */
  ghost predicate LeftWith(plan: Plan, id: Id, expected: set<Part>, parts: set<Part>) {
    Survives(expected, parts) && ((forall n :: ProcessDies(id) !in plan.others(n)) ==> parts == expected)
  }

  /** What a destroy that has found the row takes to get over each of its parts: deleting the VM,
      the workspace, and the record of the task, of which `pending` is the status it found. */
  ghost predicate VmGoes(plan: Plan) {
    plan.out(1).ok && !plan.cancelled(1)
  }

  ghost predicate WorkspaceGoes(plan: Plan, work: bool) {
    plan.out(2).ok && !plan.cancelled(2) && plan.out(3).ok && !(work && plan.out(2).work) && !plan.cancelled(3)
  }

  ghost predicate RecordGoes(plan: Plan, pending: bool, leased: bool) {
    (pending || (plan.out(4).ok && !plan.cancelled(4))) && (leased ==> plan.out(5).save.Stored?) &&
    !plan.cancelled(5) && plan.out(6).ok
  }

  /** What a deletion leaves of the parts of a VM. */
  function Undone(parts: set<Part>, out: Outcome): set<Part> {
    if out.ok then {} else parts * out.left
  }

  /** What a start makes of the parts of a VM. */
  function Started(parts: set<Part>, out: Outcome): set<Part> {
    (parts + {Process, Tap}) * if out.ok then ALL_PARTS else out.left
  }

  /** A destroy leaves the row as it was, marked, or deleted; the latter two only once VM and
      workspace are `gone`. */
  predicate RowAfter(was: Option<Status>, row: Option<Status>, gone: bool) {
    row == was || (gone && (row == Some(CleanupPending) || row == None))
  }

  /** What a destroy makes of a task that has had a row: it succeeds exactly if nothing it needs
      fails and it is not cancelled; VM and workspace are what its steps left of them. */
  ghost predicate Destroyed(plan: Plan, id: Id, s: World, s': World, err: bool) {
    var k, k' := TaskOf(s, id), TaskOf(s', id);
    var looked := !plan.cancelled(0) && plan.out(0).ok;
    var found := looked && k.row.Some?;
    var gone := found && VmGoes(plan) && WorkspaceGoes(plan, k.work);
    && (!err <==> looked && (found ==> gone && RecordGoes(plan, k.row == Some(CleanupPending), id in s.pool.leased)))
    && LeftWith(plan, id,
                if !found then k.parts else Undone(k.parts, plan.out(1)), k'.parts)
    && (k'.work <==> k.work && (found && VmGoes(plan) ==> plan.out(2).work))
    && RowAfter(k.row, k'.row, gone)
  }

  /** The listed tasks of an image. */
  function Selected(ids: seq<Id>, imageOf: Id -> string, image: string): seq<Id> {
    if ids == [] then []
    else
      var n := |ids| - 1;
      Selected(ids[..n], imageOf, image) + if imageOf(ids[n]) == image then [ids[n]] else []
  }

  lemma {:induction false} SelectedExact(ids: seq<Id>, imageOf: Id -> string, image: string)
    ensures forall id :: id in Selected(ids, imageOf, image) <==> id in ids && imageOf(id) == image
  {
    if ids == [] {
    } else {
      var n := |ids| - 1;
      SelectedExact(ids[..n], imageOf, image);
      assert ids == ids[..n] + [ids[n]];
    }
  }

  /** Those among the first i are exactly the ones taken up. */
  ghost predicate TakenUp(ids: seq<Id>, imageOf: Id -> string, image: string, i: nat, taken: seq<Id>)
    requires i <= |ids|
  {
    taken == Selected(ids[..i], imageOf, image)
  }

  lemma NoneTaken(ids: seq<Id>, imageOf: Id -> string, image: string)
    ensures TakenUp(ids, imageOf, image, 0, [])
  {
  }

  lemma TakenMore(ids: seq<Id>, imageOf: Id -> string, image: string, i: nat, taken: seq<Id>)
    requires i < |ids| && TakenUp(ids, imageOf, image, i, taken)
    ensures TakenUp(ids, imageOf, image, i + 1, if imageOf(ids[i]) == image then taken + [ids[i]] else taken)
  {
    assert ids[..i + 1][..i] == ids[..i];
  }

  lemma {:induction false} TakenAre(ids: seq<Id>, imageOf: Id -> string, image: string, i: nat, taken: seq<Id>)
    requires i <= |ids| && TakenUp(ids, imageOf, image, i, taken)
    ensures taken <= Selected(ids, imageOf, image)
    ensures i == |ids| ==> taken == Selected(ids, imageOf, image)
    ensures i < |ids| && imageOf(ids[i]) == image ==>
              |taken| < |Selected(ids, imageOf, image)| && Selected(ids, imageOf, image)[|taken|] == ids[i]
    decreases |ids| - i
  {
    if i == |ids| {
      assert ids[..i] == ids;
    } else {
      TakenMore(ids, imageOf, image, i, taken);
      TakenAre(ids, imageOf, image, i + 1, if imageOf(ids[i]) == image then taken + [ids[i]] else taken);
    }
  }

  /** The tasks goroutine t has taken up, in order. */
  ghost function Begun(log: seq<Label>, t: Tid): seq<Id> {
    if log == [] then []
    else
      var l := log[|log| - 1];
      Begun(log[..|log| - 1], t) + if (l.Begin? || l.BeginCreate?) && l.t == t then [l.id] else []
  }

  lemma BegunMore(log: seq<Label>, l: Label)
    ensures forall t :: Begun(log + [l], t) ==
              Begun(log, t) + if (l.Begin? || l.BeginCreate?) && l.t == t then [l.id] else []
  {
    assert (log + [l])[..|log|] == log;
  }

  /** The rows an operation works on. */
  predicate Suitable(op: Op, row: Option<Status>) {
    row.Some? && row != Some(CleanupPending) && (op.Restart? ==> row == Some(Stopped) || row == Some(Failed))
  }

  /** The running rows among `ids` without a live process read stopped, where that could be written. */
  function Reconciled(rows: map<Id, Status>, ids: set<Id>, alive: Id -> bool, written: Id -> bool): map<Id, Status> {
    map id | id in rows :: if id in ids && rows[id] == Running && !alive(id) && written(id) then Stopped else rows[id]
  }

  class TaskManager {
    const usable: seq<string>
    var rows: map<Id, Status>
    var parts: map<Id, set<Part>>
    var work: set<Id>
    var pool: P.Pool
    var calls: map<Tid, Call>
    var serving: bool
    var used: set<Id>
    var recorded: set<Id>
    ghost var log: seq<Label>

    function View(): World
      reads this
    {
      World(rows, parts, work, pool, calls, serving, used, recorded)
    }

    /** The stores are what the protocol makes of the logged steps. */
    ghost predicate Valid()
      reads this
    {
      NoDup(usable) && View() == Exec(Init(usable), usable, log)
    }

    constructor (usable: seq<string>)
      requires NoDup(usable)
      ensures Valid() && this.usable == usable && View() == Init(usable)
    {
      this.usable := usable;
      rows, parts, work, pool, calls := map[], map[], {}, P.Fresh(usable), map[];
      serving, used, recorded, log := false, {}, {}, [];
    }

    lemma Sound()
      requires Valid()
      ensures Reachable(View(), usable) && Inv(View(), usable)
      ensures forall id :: id in parts ==> parts[id] != {}
    {
      ReachableInv(View(), usable);
    }

    /** Record the step that led from the world w to the present one. */
    ghost method Note(w: World, l: Label)
      requires NoDup(usable) && w == Exec(Init(usable), usable, log) && View() == Apply(w, usable, l)
      modifies `log
      ensures Valid() && log == old(log) + [l]
      ensures forall t :: Begun(log, t) ==
                Begun(old(log), t) + if (l.Begin? || l.BeginCreate?) && l.t == t then [l.id] else []
    {
      ExecAppend(Init(usable), usable, log, l);
      BegunMore(log, l);
      log := log + [l];
    }

    /** The goroutine's call returns, or moves on. */
    method Move(t: Tid, id: Id, next: Next)
      modifies `calls
      ensures calls == if next.Goto? then old(calls)[t := Call(id, next.pc)] else old(calls) - {t}
    {
      calls := if next.Goto? then calls[t := Call(id, next.pc)] else calls - {t};
    }

    /** The backend leaves exactly these parts of a VM. */
    method LeaveParts(id: Id, left: set<Part>)
      modifies `parts
      ensures parts == if left == old(PartsOf(View(), id)) then old(parts) else SetParts(old(parts), id, left)
      ensures PartsOf(View(), id) == left
    {
      var present := if id in parts then parts[id] else {};
      if left != present {
        parts := SetParts(parts, id, left);
      }
    }

    /** One step of another goroutine. */
    method ForeignStep(t: Tid, l: Label)
      requires Valid() && t in calls && Foreign(t, l)
      modifies this
      ensures Valid() && log == old(log) + [l] && Begun(log, t) == Begun(old(log), t)
      ensures Spared(old(View()), View(), t)
      ensures old(Owns(View(), t)) && l != ProcessDies(old(calls)[t].id) ==>
                PartsOf(View(), old(calls)[t].id) == old(PartsOf(View(), calls[t].id))
    {
      hide Shrunk, Begun, Apply, Exec, Inv, Reachable, Spared;
      Sound();
      ghost var w := View();
      OthersSpareOwner(View(), usable, l, t);
      var w' := Apply(View(), usable, l);
      rows, parts, work, pool := w'.rows, w'.parts, w'.work, w'.pool;
      calls, serving, used, recorded := w'.calls, w'.serving, w'.used, w'.recorded;
      Note(w, l);
    }

    /** Other goroutines run for a while. */
    method Interfere(t: Tid, others: seq<Label>)
      requires Valid() && t in calls
      modifies this
      ensures Valid() && old(log) <= log && Begun(log, t) == Begun(old(log), t)
      ensures Spared(old(View()), View(), t)
      ensures old(Owns(View(), t)) && ProcessDies(old(calls)[t].id) !in others ==>
                PartsOf(View(), old(calls)[t].id) == old(PartsOf(View(), calls[t].id))
    {
      hide Valid, Begun;
      ghost var quiet := Owns(View(), t) && ProcessDies(calls[t].id) !in others;
      var i := 0;
      while i < |others|
        invariant 0 <= i <= |others|
        invariant Valid() && old(log) <= log && Begun(log, t) == Begun(old(log), t)
        invariant Spared(old(View()), View(), t)
        invariant quiet ==> PartsOf(View(), old(calls)[t].id) == old(PartsOf(View(), calls[t].id))
      {
        if Foreign(t, others[i]) {
          ForeignStep(t, others[i]);
        }
        i := i + 1;
      }
    }

    /** A call is admitted: it gets the task's lock. */
    method Enter(t: Tid, id: Id, op: Op)
      requires Valid() && serving && t !in calls && !Locked(View(), id)
      modifies this
      ensures Valid() && log == old(log) + [Begin(t, id, op)] && Begun(log, t) == Begun(old(log), t) + [id]
      ensures View() == old(View()).(calls := old(calls)[t := Call(id, Entry(op))])
    {
      hide Exec;
      ghost var w := View();
      calls := calls[t := Call(id, Entry(op))];
      Note(w, Begin(t, id, op));
    }

    /** Between two steps of a destroy the other goroutines run, and then ctx.Err() is asked. */
    method Pause(t: Tid, id: Id, others: seq<Label>, cancelled: bool)
      requires Valid() && serving && id in recorded
      requires t in calls && calls[t].id == id && Destroying(calls[t].pc)
      modifies this
      ensures Valid() && old(log) <= log && Begun(log, t) == Begun(old(log), t) && serving && id in recorded
      ensures if cancelled then t !in calls else t in calls && calls[t] == old(calls)[t]
      ensures Shrunk(old(View()), View(), id) && LeftAlone(old(View()), View(), id)
      ensures ProcessDies(id) !in others ==> PartsOf(View(), id) == old(PartsOf(View(), id))
    {
      hide Valid, Exec, Apply, Begun;
      Interfere(t, others);
      assert TaskOf(View(), id).work == old(TaskOf(View(), id)).work;
      assert TaskOf(View(), id).row == old(TaskOf(View(), id)).row;
      GiveUp(t, cancelled);
    }

    method GiveUp(t: Tid, cancelled: bool)
      requires Valid() && t in calls && Destroying(calls[t].pc)
      modifies this
      ensures Valid() && old(log) <= log && Begun(log, t) == Begun(old(log), t)
      ensures View() == if cancelled then old(View()).(calls := old(calls) - {t}) else old(View())
    {
      hide Exec, Begun;
      if cancelled {
        ghost var w := View();
        calls := calls - {t};
        Note(w, Cancel(t));
      }
    }

    // ---- the steps of destroyTaskLocked -----------------------------------------------------

    method ReadRow(t: Tid, id: Id, out: Outcome) returns (found: Option<Status>, err: bool)
      requires Valid() && t in calls && calls[t] == Call(id, DestroyRead)
      modifies this
      ensures Valid() && log == old(log) + [Step(t, out)] && Begun(log, t) == Begun(old(log), t)
      ensures serving == old(serving)
      ensures err <==> !out.ok
      ensures found == if !err && id in old(rows) then Some(old(rows)[id]) else None
      ensures TaskOf(View(), id) == old(TaskOf(View(), id)) && pool == old(pool) && recorded == old(recorded)
      ensures if found.Some? then t in calls && calls[t] == Call(id, Pc.DeleteVm(found.value == CleanupPending))
              else t !in calls
    {
      hide Shrunk, Begun, Apply, Exec, Local, P.Release, Inv, Reachable;
      ghost var w := View();
      Sound();
      StepIs(w, usable, t, out);
      AtDestroyRead(TaskOf(w, id), out);
      TaskStepIs(w, usable, t, out);
      err := !out.ok;
      found := if out.ok && id in rows then Some(rows[id]) else None;
      Move(t, id, if found.Some? then Goto(Pc.DeleteVm(found.value == CleanupPending)) else Return);
      Note(w, Step(t, out));
    }

    /** Backend DeleteVM: nil means verified absent, an error may leave some of it. */
    method DeleteVm(t: Tid, id: Id, pending: bool, out: Outcome) returns (err: bool)
      requires Valid() && t in calls && calls[t] == Call(id, Pc.DeleteVm(pending))
      modifies this
      ensures Valid() && log == old(log) + [Step(t, out)] && Begun(log, t) == Begun(old(log), t)
      ensures serving == old(serving) && recorded == old(recorded)
      ensures Shrunk(old(View()), View(), id)
      ensures View() == Apply(old(View()), usable, Step(t, out))
      ensures err <==> !out.ok
      ensures if err then t !in calls else t in calls && calls[t] == Call(id, Pc.DestroyWorkspace(pending))
      ensures var k := old(TaskOf(View(), id));
              TaskOf(View(), id) == k.(parts := Undone(k.parts, out))
      ensures pool == old(pool)
    {
      hide Shrunk, Begun, Apply, Exec, Local, P.Release, Inv, Reachable;
      ghost var w := View();
      Sound();
      StepIs(w, usable, t, out);
      AtDeleteVm(TaskOf(w, id), pending, out);
      DestroyStepIs(w, usable, t, out);
      TaskStepIs(w, usable, t, out);
      err := !out.ok;
      LeaveParts(id, if err then PartsOf(View(), id) * out.left else {});
      Move(t, id, if err then Return else Goto(Pc.DestroyWorkspace(pending)));
      Note(w, Step(t, out));
    }

    method DestroyWorkspace(t: Tid, id: Id, pending: bool, out: Outcome) returns (err: bool)
      requires Valid() && t in calls && calls[t] == Call(id, Pc.DestroyWorkspace(pending))
      modifies this
      ensures Valid() && log == old(log) + [Step(t, out)] && Begun(log, t) == Begun(old(log), t)
      ensures serving == old(serving) && recorded == old(recorded)
      ensures Shrunk(old(View()), View(), id)
      ensures View() == Apply(old(View()), usable, Step(t, out))
      ensures err <==> !out.ok
      ensures if err then t !in calls else t in calls && calls[t] == Call(id, Pc.VerifyWorkspace(pending))
      ensures var k := old(TaskOf(View(), id)); TaskOf(View(), id) == k.(work := k.work && out.work)
      ensures pool == old(pool)
    {
      hide Shrunk, Begun, Apply, Exec, Local, P.Release, Inv, Reachable;
      ghost var w := View();
      Sound();
      StepIs(w, usable, t, out);
      AtDestroyWorkspace(TaskOf(w, id), pending, out);
      DestroyStepIs(w, usable, t, out);
      TaskStepIs(w, usable, t, out);
      err := !out.ok;
      if id in work && !out.work {
        work := work - {id};
      }
      Move(t, id, if err then Return else Goto(Pc.VerifyWorkspace(pending)));
      Note(w, Step(t, out));
    }

    /** DatasetExists tells the truth or fails. */
    method WorkspaceGone(t: Tid, id: Id, pending: bool, out: Outcome) returns (err: bool)
      requires Valid() && t in calls && calls[t] == Call(id, Pc.VerifyWorkspace(pending))
      modifies this
      ensures Valid() && log == old(log) + [Step(t, out)] && Begun(log, t) == Begun(old(log), t)
      ensures serving == old(serving) && recorded == old(recorded)
      ensures Shrunk(old(View()), View(), id)
      ensures View() == Apply(old(View()), usable, Step(t, out))
      ensures err <==> !out.ok || id in old(work)
      ensures TaskOf(View(), id) == old(TaskOf(View(), id)) && pool == old(pool)
      ensures if err then t !in calls
              else t in calls && calls[t] == Call(id, if pending then Pc.ReleaseAddress else Pc.MarkPending)
    {
      hide Shrunk, Begun, Apply, Exec, Local, P.Release, Inv, Reachable;
      ghost var w := View();
      Sound();
      StepIs(w, usable, t, out);
      AtVerifyWorkspace(TaskOf(w, id), pending, out);
      DestroyStepIs(w, usable, t, out);
      TaskStepIs(w, usable, t, out);
      err := !out.ok || id in work;
      Move(t, id, if err then Return else Goto(if pending then Pc.ReleaseAddress else Pc.MarkPending));
      Note(w, Step(t, out));
    }

    /** MarkTaskCleanupPending: the one writer of that status. */
    method MarkPending(t: Tid, id: Id, out: Outcome) returns (err: bool)
      requires Valid() && t in calls && calls[t] == Call(id, Pc.MarkPending)
      modifies this
      ensures Valid() && log == old(log) + [Step(t, out)] && Begun(log, t) == Begun(old(log), t)
      ensures serving == old(serving) && recorded == old(recorded)
      ensures Shrunk(old(View()), View(), id)
      ensures View() == Apply(old(View()), usable, Step(t, out))
      ensures err <==> !out.ok
      ensures var k := old(TaskOf(View(), id));
              TaskOf(View(), id) == if out.ok || out.applied then k.(row := Some(CleanupPending)) else k
      ensures pool == old(pool)
      ensures if err then t !in calls else t in calls && calls[t] == Call(id, Pc.ReleaseAddress)
    {
      hide Shrunk, Begun, Apply, Exec, Local, P.Release, Inv, Reachable;
      ghost var w := View();
      Sound();
      StepIs(w, usable, t, out);
      AtMarkPending(TaskOf(w, id), out);
      DestroyStepIs(w, usable, t, out);
      TaskStepIs(w, usable, t, out);
      err := !out.ok;
      if out.ok || out.applied {
        rows := rows[id := CleanupPending];
      }
      Move(t, id, if err then Return else Goto(Pc.ReleaseAddress));
      Note(w, Step(t, out));
    }

    method ReleaseAddress(t: Tid, id: Id, out: Outcome) returns (err: bool)
      requires Valid() && t in calls && calls[t] == Call(id, Pc.ReleaseAddress)
      modifies this
      ensures Valid() && log == old(log) + [Step(t, out)] && Begun(log, t) == Begun(old(log), t)
      ensures serving == old(serving) && recorded == old(recorded)
      ensures Shrunk(old(View()), View(), id)
      ensures View() == Apply(old(View()), usable, Step(t, out))
      ensures if err then t !in calls else t in calls && calls[t] == Call(id, Pc.DeleteRow)
      ensures TaskOf(View(), id) == old(TaskOf(View(), id))
      ensures err <==> id in old(pool).leased && !out.save.Stored?
    {
      hide Shrunk, Begun, Apply, Exec, Local, P.Release, Inv, Reachable;
      ghost var w := View();
      Sound();
      DestroyStepIs(w, usable, t, out);
      TaskStepIs(w, usable, t, out);
      ReleaseStepIs(w, usable, t, out);
      AtReleaseAddress(TaskOf(w, id), pool, id, out);
      var (pool', r) := P.Release(pool, id, out.save);
      pool := pool';
      err := r.Err?;
      Move(t, id, if err then Return else Goto(Pc.DeleteRow));
      Note(w, Step(t, out));
    }

    method DeleteRow(t: Tid, id: Id, out: Outcome) returns (err: bool)
      requires Valid() && t in calls && calls[t] == Call(id, Pc.DeleteRow)
      modifies this
      ensures Valid() && log == old(log) + [Step(t, out)] && Begun(log, t) == Begun(old(log), t)
      ensures serving == old(serving) && recorded == old(recorded)
      ensures Shrunk(old(View()), View(), id)
      ensures View() == Apply(old(View()), usable, Step(t, out))
      ensures err <==> !out.ok
      ensures t !in calls
      ensures var k := old(TaskOf(View(), id));
              TaskOf(View(), id) == if out.ok || out.applied then k.(row := None) else k
      ensures pool == old(pool)
    {
      hide Shrunk, Begun, Apply, Exec, Local, P.Release, Inv, Reachable;
      ghost var w := View();
      Sound();
      StepIs(w, usable, t, out);
      AtDeleteRow(TaskOf(w, id), out);
      DestroyStepIs(w, usable, t, out);
      TaskStepIs(w, usable, t, out);
      err := !out.ok;
      if out.ok || out.applied {
        rows := rows - {id};
      }
      Move(t, id, Return);
      Note(w, Step(t, out));
    }

    /** DestroyTask. Success means that nothing is left of a task that ever had a row; without
        faults it succeeds, whatever the other goroutines do; and on failure nothing it
        removed is back, so that it can be tried again. */
    method DestroyTask(t: Tid, id: Id, plan: Plan) returns (err: bool)
      requires Valid() && serving && t !in calls && !Locked(View(), id)
      modifies this
      ensures Valid() && old(log) <= log && Begun(log, t) == Begun(old(log), t) + [id] && serving && t !in calls
      ensures !err ==> id !in rows
      ensures !err && id in old(recorded) ==> Gone(View(), id)
      ensures FaultFree(plan) ==> !err
      ensures id in old(recorded) ==> Shrunk(old(View()), View(), id)
      ensures id in old(recorded) ==> Destroyed(plan, id, old(View()), View(), err)
    {
      hide Valid, Exec, Apply, Gone, Shrunk, Local, TaskOf, LeaseOf, Locked, Begun, Destroyed;
      ghost var s0 := View();
      var found;
      found, err := StartDestroy(t, id, plan);
      ghost var s1 := View();
      if found.Some? {
        err := DestroyFound(t, id, found.value == CleanupPending, plan);
        if id in old(recorded) { ShrunkTrans(s0, s1, View(), id); }
      }
      if id in old(recorded) { DestroyedIf(plan, id, s0, s1, View(), found, err); }
    }

    /** A call gets the task's lock, and other goroutines run before its first step. */
    method Join(t: Tid, id: Id, op: Op, others: seq<Label>)
      requires Valid() && serving && t !in calls && !Locked(View(), id)
      modifies this
      ensures Valid() && old(log) <= log && Begun(log, t) == Begun(old(log), t) + [id] && serving
      ensures t in calls && calls[t] == Call(id, Entry(op))
      ensures id in old(recorded) ==>
                && Kept(old(View()), View(), id) && Shrunk(old(View()), View(), id) && id in recorded
                && LeftAlone(old(View()), View(), id)
                && (ProcessDies(id) !in others ==> PartsOf(View(), id) == old(PartsOf(View(), id)))
    {
      hide Begun, Valid, Exec, Apply, Locked, LeaseOf;
      Enter(t, id, op);
      ghost var s1 := View();
      Interfere(t, others);
      SparedTask(s1, View(), t);
    }

    /** Admission, the first look at the context, and the read of the row. */
    method StartDestroy(t: Tid, id: Id, plan: Plan) returns (found: Option<Status>, err: bool)
      requires Valid() && serving && t !in calls && !Locked(View(), id)
      modifies this
      ensures Valid() && old(log) <= log && Begun(log, t) == Begun(old(log), t) + [id] && serving
      ensures if found.Some? then
                t in calls && calls[t] == Call(id, Pc.DeleteVm(found.value == CleanupPending)) && id in recorded
              else t !in calls
      ensures found.None? && !err ==> id !in rows && (id in old(recorded) ==> Gone(View(), id))
      ensures err <==> plan.cancelled(0) || !plan.out(0).ok
      ensures found == if err then None else TaskOf(View(), id).row
      ensures id in old(recorded) ==> Shrunk(old(View()), View(), id) && LeftAlone(old(View()), View(), id)
      ensures id in old(recorded) ==> LeftWith(plan, id, old(PartsOf(View(), id)), PartsOf(View(), id))
    {
      hide Valid, Exec, Apply, Gone, Locked, Kept, Shrunk, LeaseOf, Begun;
      ghost var s0 := View();
      Join(t, id, Destroy, plan.others(0));
      ghost var s1 := View();
      GiveUp(t, plan.cancelled(0));
      found, err := None, true;
      if !plan.cancelled(0) {
        found, err := ReadRow(t, id, plan.out(0));
      }
      if id in s0.recorded {
        SameShrunk(s1, View(), id);
        ShrunkTrans(s0, s1, View(), id);
      }
      if found.Some? {
        RecordedIfRow(id);
      } else if !err && id in s0.recorded {
        GoneIfNoRow(id);
      }
    }

    lemma GoneIfNoRow(id: Id)
      requires Valid() && id in recorded && id !in rows
      ensures Gone(View(), id)
    {
      Sound();
      hide Exec, Reachable;
      assert TaskOk(TaskOf(View(), id), LeaseOf(pool, id));
    }

    lemma RecordedIfRow(id: Id)
      requires Valid() && id in rows
      ensures id in recorded
    {
      Sound();
      hide Exec, Reachable;
      assert TaskOk(TaskOf(View(), id), LeaseOf(pool, id));
    }

    /** The part of destroyTaskLocked below the read of the row. */
    method DestroyFound(t: Tid, id: Id, pending: bool, plan: Plan) returns (err: bool)
      requires Valid() && serving && t in calls && calls[t] == Call(id, Pc.DeleteVm(pending)) && id in recorded
      modifies this
      ensures Valid() && old(log) <= log && Begun(log, t) == Begun(old(log), t) && serving && t !in calls
      ensures !err ==> Gone(View(), id) && id !in rows
      ensures Shrunk(old(View()), View(), id)
      ensures err <==> !(VmGoes(plan) && WorkspaceGoes(plan, id in old(work)) &&
                         RecordGoes(plan, pending, id in old(pool).leased))
      ensures LeftWith(plan, id, Undone(old(PartsOf(View(), id)), plan.out(1)),
                       PartsOf(View(), id))
      ensures id in work <==> id in old(work) && (VmGoes(plan) ==> plan.out(2).work)
      ensures RowAfter(old(TaskOf(View(), id)).row, TaskOf(View(), id).row,
                       VmGoes(plan) && WorkspaceGoes(plan, id in old(work)))
    {
      hide Valid, Exec, Apply, Gone, Shrunk, Local, Begun, LeftWith, WorkspaceGoes, RecordGoes, LeftAlone;
      ghost var s0 := View();
      err := RemoveVm(t, id, pending, plan);
      ghost var s1 := View();
      if err { return; }
      err := DestroyWork(t, id, pending, plan);
      ShrunkTrans(s0, s1, View(), id);
      NoneLeft(s1, View(), id);
    }

    /** The VM is deleted; nothing else of the task changes. */
    method RemoveVm(t: Tid, id: Id, pending: bool, plan: Plan) returns (err: bool)
      requires Valid() && serving && t in calls && calls[t] == Call(id, Pc.DeleteVm(pending)) && id in recorded
      modifies this
      ensures Valid() && old(log) <= log && Begun(log, t) == Begun(old(log), t) && serving && id in recorded
      ensures err <==> !VmGoes(plan)
      ensures if err then t !in calls else t in calls && calls[t] == Call(id, Pc.DestroyWorkspace(pending))
      ensures Shrunk(old(View()), View(), id)
      ensures LeftWith(plan, id, Undone(old(PartsOf(View(), id)), plan.out(1)),
                       PartsOf(View(), id))
      ensures plan.out(1).ok ==> PartsOf(View(), id) == {}
      ensures TaskOf(View(), id).(parts := {}) == old(TaskOf(View(), id)).(parts := {})
      ensures id in pool.leased <==> id in old(pool).leased
    {
      hide Valid, Exec, Apply, Gone, Shrunk, Local, Begun, LeftWith;
      ghost var s0 := View();
      Pause(t, id, plan.others(1), false);
      ghost var s1 := View();
      err := DeleteVm(t, id, pending, plan.out(1));
      ghost var s2 := View();
      ShrunkTrans(s0, s1, s2, id);
      DeletedLeaves(plan, id, s0, s1, s2);
      if err { return; }
      Pause(t, id, plan.others(2), plan.cancelled(1));
      ShrunkTrans(s0, s2, View(), id);
      NoneLeft(s2, View(), id);
      err := plan.cancelled(1);
    }

    /** The workspace is destroyed and verified to be gone. */
    method DestroyWork(t: Tid, id: Id, pending: bool, plan: Plan) returns (err: bool)
      requires Valid() && serving && t in calls && calls[t] == Call(id, Pc.DestroyWorkspace(pending)) && id in recorded
      modifies this
      ensures Valid() && old(log) <= log && Begun(log, t) == Begun(old(log), t) && serving && t !in calls
      ensures !err ==> Gone(View(), id) && id !in rows
      ensures Shrunk(old(View()), View(), id)
      ensures err <==> !(WorkspaceGoes(plan, id in old(work)) && RecordGoes(plan, pending, id in old(pool).leased))
      ensures id in work <==> id in old(work) && plan.out(2).work
      ensures RowAfter(old(TaskOf(View(), id)).row, TaskOf(View(), id).row, WorkspaceGoes(plan, id in old(work)))
    {
      hide Valid, Exec, Apply, Gone, Shrunk, Local, Begun, RecordGoes;
      ghost var s0 := View();
      err := DestroyWorkspace(t, id, pending, plan.out(2));
      ghost var s1 := View();
      if err { return; }
      Pause(t, id, plan.others(3), plan.cancelled(2));
      ghost var s2 := View();
      ShrunkTrans(s0, s1, s2, id);
      if plan.cancelled(2) { return true; }
      err := VerifyWorkspace(t, id, pending, plan);
      ghost var s3 := View();
      ShrunkTrans(s0, s2, s3, id);
      if err { return; }
      err := DestroyRecord(t, id, pending, plan);
      ShrunkTrans(s0, s3, View(), id);
    }

    /** The rest of destroyTaskLocked, once VM and workspace are gone. */
    method DestroyRecord(t: Tid, id: Id, pending: bool, plan: Plan) returns (err: bool)
      requires Valid() && serving && t in calls && id in recorded
      requires calls[t] == Call(id, if pending then Pc.ReleaseAddress else Pc.MarkPending)
      modifies this
      ensures Valid() && old(log) <= log && Begun(log, t) == Begun(old(log), t) && serving && t !in calls
      ensures !err ==> Gone(View(), id) && id !in rows
      ensures Shrunk(old(View()), View(), id)
      ensures err <==> !RecordGoes(plan, pending, id in old(pool).leased)
      ensures id in work <==> id in old(work)
      ensures RowAfter(old(TaskOf(View(), id)).row, TaskOf(View(), id).row, true)
    {
      hide Valid, Exec, Apply, Gone, Shrunk, Local, Begun;
      ghost var s0 := View();
      if !pending {
        err := MarkTask(t, id, plan);
        if err { return; }
      }
      ghost var s1 := View();
      err := ReleaseAndDelete(t, id, plan);
      if !pending { ShrunkTrans(s0, s1, View(), id); }
    }

    /** The workspace is verified to be gone. */
    method VerifyWorkspace(t: Tid, id: Id, pending: bool, plan: Plan) returns (err: bool)
      requires Valid() && serving && t in calls && calls[t] == Call(id, Pc.VerifyWorkspace(pending)) && id in recorded
      modifies this
      ensures Valid() && old(log) <= log && Begun(log, t) == Begun(old(log), t) && serving && id in recorded
      ensures err <==> !plan.out(3).ok || id in old(work) || plan.cancelled(3)
      ensures if err then t !in calls
              else t in calls && calls[t] == Call(id, if pending then Pc.ReleaseAddress else Pc.MarkPending)
      ensures Shrunk(old(View()), View(), id) && LeftAlone(old(View()), View(), id)
    {
      hide Valid, Exec, Apply, Gone, Shrunk, Local, Begun;
      ghost var s0 := View();
      err := WorkspaceGone(t, id, pending, plan.out(3));
      ghost var s1 := View();
      if err { return; }
      Pause(t, id, plan.others(4), plan.cancelled(3));
      ShrunkTrans(s0, s1, View(), id);
      err := plan.cancelled(3);
    }

    /** The row is marked before the address is given up. */
    method MarkTask(t: Tid, id: Id, plan: Plan) returns (err: bool)
      requires Valid() && serving && t in calls && calls[t] == Call(id, Pc.MarkPending) && id in recorded
      modifies this
      ensures Valid() && old(log) <= log && Begun(log, t) == Begun(old(log), t) && serving && id in recorded
      ensures err <==> !plan.out(4).ok || plan.cancelled(4)
      ensures if err then t !in calls else t in calls && calls[t] == Call(id, Pc.ReleaseAddress)
      ensures Shrunk(old(View()), View(), id)
      ensures (id in work <==> id in old(work)) && (id in pool.leased <==> id in old(pool).leased)
      ensures RowAfter(old(TaskOf(View(), id)).row, TaskOf(View(), id).row, true)
      ensures !err ==> TaskOf(View(), id).row == Some(CleanupPending)
    {
      hide Valid, Exec, Apply, Gone, Shrunk, Local, Begun;
      ghost var s0 := View();
      err := MarkPending(t, id, plan.out(4));
      ghost var s1 := View();
      if err { return; }
      Pause(t, id, plan.others(5), plan.cancelled(4));
      ShrunkTrans(s0, s1, View(), id);
      err := plan.cancelled(4);
    }

    method ReleaseAndDelete(t: Tid, id: Id, plan: Plan) returns (err: bool)
      requires Valid() && serving && t in calls && calls[t] == Call(id, Pc.ReleaseAddress) && id in recorded
      modifies this
      ensures Valid() && old(log) <= log && Begun(log, t) == Begun(old(log), t) && serving && t !in calls
      ensures !err ==> Gone(View(), id) && id !in rows
      ensures Shrunk(old(View()), View(), id)
      ensures err <==> (id in old(pool).leased && !plan.out(5).save.Stored?) || plan.cancelled(5) || !plan.out(6).ok
      ensures id in work <==> id in old(work)
      ensures TaskOf(View(), id).row == old(TaskOf(View(), id)).row || id !in rows
    {
      hide Valid, Exec, Apply, Gone, Shrunk, Local, Begun;
      ghost var s0 := View();
      err := ReleaseAddress(t, id, plan.out(5));
      ghost var s1 := View();
      if err { return; }
      Pause(t, id, plan.others(6), plan.cancelled(5));
      ghost var s2 := View();
      ShrunkTrans(s0, s1, s2, id);
      if plan.cancelled(5) { return true; }
      err := DeleteRow(t, id, plan.out(6));
      ShrunkTrans(s0, s2, View(), id);
      if !err { GoneIfNoRow(id); }
    }

    // ---- restart, stop, fail and restore --------------------------------------------------------

    /** GetTask and rejectCleanupPending; a restart also asks for a stopped or failed task. */
    method Look(t: Tid, id: Id, pc: Pc, out: Outcome) returns (err: bool)
      requires Valid() && t in calls && calls[t] == Call(id, pc) && Reading(pc) && !pc.DestroyRead?
      modifies this
      ensures Valid() && log == old(log) + [Step(t, out)] && serving == old(serving)
      ensures TaskOf(View(), id) == old(TaskOf(View(), id)) && pool == old(pool)
      ensures err <==>
                !out.ok || !Admitted(TaskOf(View(), id)) ||
                (pc.RestartRead? && rows[id] != Stopped && rows[id] != Failed)
      ensures if err then t !in calls else t in calls && calls[t] == Call(id, AfterLook(pc, rows[id]))
    {
      hide Apply, Exec, Local, P.Release, Inv, Reachable, Releases, Reading;
      ghost var w := View();
      Sound();
      ReadersReleaseNothing(pc);
      StepIs(w, usable, t, out);
      AtLook(TaskOf(w, id), pc, out);
      TaskStepIs(w, usable, t, out);
      err := true;
      if out.ok && id in rows && rows[id] != CleanupPending {
        err := pc.RestartRead? && rows[id] != Stopped && rows[id] != Failed;
      }
      Move(t, id, if err then Return else Goto(AfterLook(pc, rows[id])));
      Note(w, Step(t, out));
    }

    /** UpdateTaskStatus, which refuses to write cleanup_pending. */
    method UpdateTaskStatus(t: Tid, id: Id, pc: Pc, out: Outcome) returns (err: bool)
      requires Valid() && t in calls && calls[t] == Call(id, pc) && Updating(pc) && id in recorded
      modifies this
      ensures Valid() && log == old(log) + [Step(t, out)] && serving == old(serving)
      ensures TaskOf(View(), id) == (if out.ok then old(TaskOf(View(), id)).(row := Some(Written(pc)))
                                     else old(TaskOf(View(), id)))
      ensures pool == old(pool)
      ensures err <==> !out.ok
      ensures if err || Last(pc) then t !in calls else t in calls && calls[t] == Call(id, AfterUpdate(pc))
    {
      hide Apply, Exec, Local, P.Release, Inv, Reachable, Releases, Updating, Written, Last, AfterUpdate;
      ghost var w := View();
      Sound();
      AtUpdate(TaskOf(w, id), pc, out);
      StepIs(w, usable, t, out);
      TaskStepIs(w, usable, t, out);
      err := !out.ok;
      if out.ok {
        rows := rows[id := Written(pc)];
      }
      Move(t, id, if err || Last(pc) then Return else Goto(AfterUpdate(pc)));
      Note(w, Step(t, out));
    }

    /** Backend StartVM: process and TAP come back, or an error leaves some of them. */
    method StartVm(t: Tid, id: Id, out: Outcome) returns (err: bool)
      requires Valid() && t in calls && calls[t] == Call(id, Pc.StartVm) && id in recorded
      modifies this
      ensures Valid() && log == old(log) + [Step(t, out)] && serving == old(serving)
      ensures var k := old(TaskOf(View(), id));
              TaskOf(View(), id) == k.(parts := Started(k.parts, out))
      ensures pool == old(pool)
      ensures err <==> !out.ok
      ensures t in calls && calls[t] == Call(id, if err then RevertToFailed else MarkRunning)
    {
      hide Apply, Exec, Local, P.Release, Inv, Reachable;
      ghost var w := View();
      Sound();
      StepIs(w, usable, t, out);
      AtStartVm(TaskOf(w, id), out);
      TaskStepIs(w, usable, t, out);
      err := !out.ok;
      LeaveParts(id, (PartsOf(View(), id) + {Process, Tap}) * if err then out.left else ALL_PARTS);
      Move(t, id, Goto(if err then RevertToFailed else MarkRunning));
      Note(w, Step(t, out));
    }

    /** Backend StopVM, whose error is only printed. */
    method StopVm(t: Tid, id: Id, restore: bool, out: Outcome)
      requires Valid() && t in calls && calls[t] == Call(id, Pc.StopVm(restore)) && id in recorded
      modifies this
      ensures Valid() && log == old(log) + [Step(t, out)] && serving == old(serving)
      ensures var k := old(TaskOf(View(), id));
              TaskOf(View(), id) == k.(parts := k.parts - ({Process, Tap} - out.left))
      ensures pool == old(pool)
      ensures t in calls && calls[t] == Call(id, Pc.MarkStopped(restore))
    {
      hide Apply, Exec, Local, P.Release, Inv, Reachable;
      ghost var w := View();
      Sound();
      StepIs(w, usable, t, out);
      AtStopVm(TaskOf(w, id), restore, out);
      TaskStepIs(w, usable, t, out);
      LeaveParts(id, PartsOf(View(), id) - ({Process, Tap} - out.left));
      Move(t, id, Goto(Pc.MarkStopped(restore)));
      Note(w, Step(t, out));
    }

    /** zfs rollback of the workspace: the dataset stays. */
    method Rollback(t: Tid, id: Id, out: Outcome) returns (err: bool)
      requires Valid() && t in calls && calls[t] == Call(id, Pc.Rollback) && id in recorded
      modifies this
      ensures Valid() && log == old(log) + [Step(t, out)] && serving == old(serving)
      ensures TaskOf(View(), id) == old(TaskOf(View(), id)) && pool == old(pool)
      ensures err <==> !out.ok
      ensures t !in calls
    {
      hide Apply, Exec, Local, P.Release, Inv, Reachable;
      ghost var w := View();
      Sound();
      StepIs(w, usable, t, out);
      AtRollback(TaskOf(w, id), out);
      TaskStepIs(w, usable, t, out);
      err := !out.ok;
      Move(t, id, Return);
      Note(w, Step(t, out));
    }

    /** Other goroutines run while t holds the lock of a task that has had a row. */
    method Between(t: Tid, id: Id, others: seq<Label>)
      requires Valid() && serving && id in recorded
      requires t in calls && calls[t].id == id && !Creating(calls[t].pc)
      modifies this
      ensures Valid() && old(log) <= log && serving && id in recorded
      ensures t in calls && calls[t] == old(calls)[t]
      ensures Kept(old(View()), View(), id) && LeftAlone(old(View()), View(), id)
      ensures ProcessDies(id) !in others ==> PartsOf(View(), id) == old(PartsOf(View(), id))
    {
      hide Valid, Exec, Apply;
      Interfere(t, others);
      assert TaskOf(View(), id).work == old(TaskOf(View(), id)).work;
      assert TaskOf(View(), id).row == old(TaskOf(View(), id)).row;
    }

    /** Admission and the first look at the task. */
    method Admit(t: Tid, id: Id, op: Op, plan: Plan) returns (err: bool)
      requires Valid() && serving && t !in calls && !Locked(View(), id) && !op.Destroy?
      modifies this
      ensures Valid() && old(log) <= log && serving
      ensures if err then t !in calls
              else
                id in recorded && Admitted(TaskOf(View(), id)) && t in calls &&
                calls[t] == Call(id, AfterLook(Entry(op), rows[id]))
      ensures id in old(recorded) ==>
                && Kept(old(View()), View(), id) && TaskOf(View(), id).row == old(TaskOf(View(), id)).row
                && LeftWith(plan, id, old(PartsOf(View(), id)), PartsOf(View(), id))
                && (err <==> !plan.out(0).ok || !Suitable(op, old(TaskOf(View(), id)).row))
      ensures !err ==> Suitable(op, TaskOf(View(), id).row)
    {
      hide Valid, Exec, Apply, Locked, Kept, LeaseOf;
      ghost var s0 := View();
      Join(t, id, op, plan.others(0));
      ghost var s1 := View();
      err := Look(t, id, Entry(op), plan.out(0));
      if id in s0.recorded {
        SameKept(s1, View(), id);
        KeptTrans(s0, s1, View(), id);
      }
      if !err { RecordedIfRow(id); }
    }

    /** StopTask: the row of an admitted task becomes stopped if that can be written, and stays as
        it was otherwise; process and TAP go, but for what the backend leaves; workspace, address
        and files stay. A missing or cleanup-pending task is turned away. */
    method StopTask(t: Tid, id: Id, plan: Plan) returns (err: bool)
      requires Valid() && serving && t !in calls && !Locked(View(), id)
      modifies this
      ensures Valid() && old(log) <= log && serving && t !in calls
      ensures !err ==> id in rows && rows[id] == Stopped && PartsOf(View(), id) * {Process, Tap} <= plan.out(1).left
      ensures id in old(recorded) ==>
                var (k, k') := (old(TaskOf(View(), id)), TaskOf(View(), id));
                var admitted := plan.out(0).ok && Suitable(Stop, k.row);
                && Kept(old(View()), View(), id)
                && (!err <==> admitted && plan.out(2).ok) && k'.row == (if err then k.row else Some(Stopped))
                && LeftWith(plan, id, if admitted then k.parts - ({Process, Tap} - plan.out(1).left) else k.parts,
                            k'.parts)
    {
      hide Valid, Exec, Apply, Locked, Kept, LeftAlone, LeftWith, LeaseOf;
      ghost var s0 := View();
      err := Admit(t, id, Stop, plan);
      if err { return; }
      ghost var s1 := View();
      err := StopAdmitted(t, id, false, plan, 1);
      if id in s0.recorded {
        KeptTrans(s0, s1, View(), id);
        LeftTrans(plan, id, PartsOf(s0, id), PartsOf(s1, id), PartsOf(View(), id), {Process, Tap} - plan.out(1).left);
      }
    }

    /** The rest of stopTaskLocked. */
    method StopAdmitted(t: Tid, id: Id, restore: bool, plan: Plan, n: nat) returns (err: bool)
      requires Valid() && serving && id in recorded && id in rows
      requires t in calls && calls[t] == Call(id, Pc.StopVm(restore))
      modifies this
      ensures Valid() && old(log) <= log && serving && id in recorded && id in rows
      ensures if err || !restore then t !in calls else t in calls && calls[t] == Call(id, Pc.Rollback)
      ensures Kept(old(View()), View(), id)
      ensures LeftWith(plan, id, old(PartsOf(View(), id)) - ({Process, Tap} - plan.out(n).left), PartsOf(View(), id))
      ensures PartsOf(View(), id) * {Process, Tap} <= plan.out(n).left
      ensures rows[id] == if err then old(rows)[id] else Stopped
      ensures err <==> !plan.out(n + 1).ok
    {
      hide Valid, Exec, Apply, Kept, LeaseOf, LeftWith;
      ghost var s0 := View();
      HaltVm(t, id, restore, plan, n);
      ghost var s1 := View();
      err := UpdateTaskStatus(t, id, Pc.MarkStopped(restore), plan.out(n + 1));
      SameKept(s1, View(), id);
      KeptTrans(s0, s1, View(), id);
    }

    /** The backend is asked to stop the VM; what it answers is ignored. */
    method HaltVm(t: Tid, id: Id, restore: bool, plan: Plan, n: nat)
      requires Valid() && serving && id in recorded && id in rows
      requires t in calls && calls[t] == Call(id, Pc.StopVm(restore))
      modifies this
      ensures Valid() && old(log) <= log && serving && id in recorded
      ensures t in calls && calls[t] == Call(id, Pc.MarkStopped(restore))
      ensures Kept(old(View()), View(), id) && TaskOf(View(), id).row == old(TaskOf(View(), id)).row
      ensures LeftWith(plan, id, old(PartsOf(View(), id)) - ({Process, Tap} - plan.out(n).left), PartsOf(View(), id))
      ensures PartsOf(View(), id) * {Process, Tap} <= plan.out(n).left
    {
      hide Valid, Exec, Apply, Kept, LeaseOf, LeftWith, LeftAlone;
      ghost var s0 := View();
      Between(t, id, plan.others(n));
      ghost var s1 := View();
      LeftBy(plan, n, id, s0, s1);
      StopVm(t, id, restore, plan.out(n));
      ghost var s2 := View();
      SameKept(s1, s2, id);
      Between(t, id, plan.others(n + 1));
      ghost var s3 := View();
      LeftBy(plan, n + 1, id, s2, s3);
      hide TaskOf;
      KeptTrans(s0, s1, s2, id);
      KeptTrans(s0, s2, s3, id);
      HaltLeaves(plan, id, PartsOf(s0, id), PartsOf(s1, id), PartsOf(s2, id), PartsOf(s3, id), plan.out(n).left);
    }

    /** FailTask: only the row changes, to failed, if the task is admitted and that can be written. */
    method FailTask(t: Tid, id: Id, plan: Plan) returns (err: bool)
      requires Valid() && serving && t !in calls && !Locked(View(), id)
      modifies this
      ensures Valid() && old(log) <= log && serving && t !in calls
      ensures !err ==> id in rows && rows[id] == Failed
      ensures id in old(recorded) ==>
                var (k, k') := (old(TaskOf(View(), id)), TaskOf(View(), id));
                && Kept(old(View()), View(), id) && LeftWith(plan, id, k.parts, k'.parts)
                && (!err <==> plan.out(0).ok && Suitable(Fail, k.row) && plan.out(1).ok)
                && k'.row == (if err then k.row else Some(Failed))
    {
      hide Valid, Exec, Apply, Locked, Kept, LeftAlone, LeftWith, Survives;
      ghost var s0 := View();
      err := Admit(t, id, Fail, plan);
      if err { return; }
      ghost var s1 := View();
      Between(t, id, plan.others(1));
      ghost var s2 := View();
      LeftBy(plan, 1, id, s1, s2);
      err := UpdateTaskStatus(t, id, MarkFailed, plan.out(1));
      SameKept(s2, View(), id);
      if id in s0.recorded {
        KeptTrans(s0, s1, s2, id);
        KeptTrans(s0, s2, View(), id);
        LeftTrans(plan, id, PartsOf(s0, id), PartsOf(s1, id), PartsOf(s2, id), {});
      }
    }

    /** RestartTask: only a stopped or failed task starts. Its row says starting, and then running
        if the backend started the VM and failed if it did not; where that last write fails it
        stays starting. Workspace and address stay. */
    method RestartTask(t: Tid, id: Id, plan: Plan) returns (err: bool)
      requires Valid() && serving && t !in calls && !Locked(View(), id)
      modifies this
      ensures Valid() && old(log) <= log && serving && t !in calls
      ensures !err ==> id in rows && rows[id] == Running && Tap in PartsOf(View(), id)
      ensures !err && (forall n :: ProcessDies(id) !in plan.others(n)) ==> Process in PartsOf(View(), id)
      ensures !err && id in old(recorded) ==> old(TaskOf(View(), id)).row in {Some(Stopped), Some(Failed)}
      ensures id in old(recorded) ==>
                var (k, k') := (old(TaskOf(View(), id)), TaskOf(View(), id));
                var begun := plan.out(0).ok && Suitable(Restart, k.row) && plan.out(1).ok;
                && Kept(old(View()), View(), id)
                && (!err <==> begun && plan.out(2).ok && plan.out(3).ok)
                && k'.row == (if !begun then k.row else if !plan.out(3).ok then Some(Starting)
                              else if plan.out(2).ok then Some(Running) else Some(Failed))
                && LeftWith(plan, id, if begun then Started(k.parts, plan.out(2)) else k.parts, k'.parts)
    {
      hide Valid, Exec, Apply, Locked, Kept, LeaseOf, LeftWith, Started;
      ghost var s0 := View();
      err := Admit(t, id, Restart, plan);
      if err { return; }
      ghost var s1 := View();
      err := MarkStarting(t, id, plan);
      ghost var s2 := View();
      if id in s0.recorded {
        KeptTrans(s0, s1, s2, id);
        LeftTrans(plan, id, PartsOf(s0, id), PartsOf(s1, id), PartsOf(s2, id), {});
      }
      if err { return; }
      err := StartMarked(t, id, plan);
      if id in s0.recorded {
        KeptTrans(s0, s2, View(), id);
        StartLeaves(plan, id, PartsOf(s0, id), PartsOf(s2, id), PartsOf(View(), id), plan.out(2));
      }
      BothUp(plan, id, PartsOf(s2, id), PartsOf(View(), id), plan.out(2));
    }

    /** The row says starting before the backend is asked. */
    method MarkStarting(t: Tid, id: Id, plan: Plan) returns (err: bool)
      requires Valid() && serving && id in recorded && id in rows
      requires t in calls && calls[t] == Call(id, Pc.MarkStarting)
      modifies this
      ensures Valid() && old(log) <= log && serving && id in recorded && id in rows
      ensures err <==> !plan.out(1).ok
      ensures if err then t !in calls else t in calls && calls[t] == Call(id, Pc.StartVm)
      ensures Kept(old(View()), View(), id) && LeftWith(plan, id, old(PartsOf(View(), id)), PartsOf(View(), id))
      ensures rows[id] == if err then old(rows)[id] else Starting
    {
      hide Valid, Exec, Apply, Kept, LeaseOf, LeftWith, LeftAlone;
      ghost var s0 := View();
      Between(t, id, plan.others(1));
      ghost var s1 := View();
      LeftBy(plan, 1, id, s0, s1);
      err := UpdateTaskStatus(t, id, Pc.MarkStarting, plan.out(1));
      SameKept(s1, View(), id);
      KeptTrans(s0, s1, View(), id);
    }

    /** The rest of restartTaskLocked, once the row says starting. */
    method StartMarked(t: Tid, id: Id, plan: Plan) returns (err: bool)
      requires Valid() && serving && id in recorded && id in rows && rows[id] == Starting
      requires t in calls && calls[t] == Call(id, Pc.StartVm)
      modifies this
      ensures Valid() && old(log) <= log && serving && t !in calls && id in rows
      ensures Kept(old(View()), View(), id)
      ensures err <==> !(plan.out(2).ok && plan.out(3).ok)
      ensures rows[id] == if !plan.out(3).ok then Starting else if plan.out(2).ok then Running else Failed
      ensures LeftWith(plan, id, Started(old(PartsOf(View(), id)), plan.out(2)), PartsOf(View(), id))
    {
      hide Valid, Exec, Apply, LeaseOf, Kept, LeftWith, Started;
      ghost var s0 := View();
      var failed := LaunchVm(t, id, plan);
      ghost var s1 := View();
      if failed {
        err := true;
        var ignored := UpdateTaskStatus(t, id, RevertToFailed, plan.out(3));
      } else {
        err := UpdateTaskStatus(t, id, MarkRunning, plan.out(3));
      }
      SameKept(s1, View(), id);
      KeptTrans(s0, s1, View(), id);
    }

    /** The backend is asked to start the VM. */
    method LaunchVm(t: Tid, id: Id, plan: Plan) returns (err: bool)
      requires Valid() && serving && id in recorded && id in rows
      requires t in calls && calls[t] == Call(id, Pc.StartVm)
      modifies this
      ensures Valid() && old(log) <= log && serving && id in recorded
      ensures err <==> !plan.out(2).ok
      ensures t in calls && calls[t] == Call(id, if err then RevertToFailed else Pc.MarkRunning)
      ensures Kept(old(View()), View(), id) && TaskOf(View(), id).row == old(TaskOf(View(), id)).row
      ensures LeftWith(plan, id, Started(old(PartsOf(View(), id)), plan.out(2)), PartsOf(View(), id))
    {
      hide Valid, Exec, Apply, Kept, LeaseOf, LeftWith, LeftAlone;
      ghost var s0 := View();
      Between(t, id, plan.others(2));
      ghost var s1 := View();
      LeftBy(plan, 2, id, s0, s1);
      err := StartVm(t, id, plan.out(2));
      ghost var s2 := View();
      SameKept(s1, s2, id);
      Between(t, id, plan.others(3));
      ghost var s3 := View();
      LeftBy(plan, 3, id, s2, s3);
      hide TaskOf, Started;
      KeptTrans(s0, s1, s2, id);
      KeptTrans(s0, s2, s3, id);
      StartLeaves(plan, id, PartsOf(s0, id), PartsOf(s1, id), PartsOf(s2, id), plan.out(2));
      LeftTrans(plan, id, Started(PartsOf(s0, id), plan.out(2)), PartsOf(s2, id), PartsOf(s3, id), {});
    }

    /** RestoreSnapshot stops a running task before it rolls the workspace back, by
        stopTaskLocked (the lock is held already), and goes on only if that succeeds. */
    method RestoreSnapshot(t: Tid, id: Id, plan: Plan) returns (err: bool)
      requires Valid() && serving && t !in calls && !Locked(View(), id)
      modifies this
      ensures Valid() && old(log) <= log && serving && t !in calls
      ensures !err ==> id in rows && rows[id] != Running
      ensures id in old(recorded) ==>
                var (k, k') := (old(TaskOf(View(), id)), TaskOf(View(), id));
                var admitted := plan.out(0).ok && Suitable(Restore, k.row);
                var halted := admitted && k.row == Some(Running) && plan.out(1).ok;
                && Kept(old(View()), View(), id)
                && (!err <==>
                    admitted && (k.row == Some(Running) ==> plan.out(1).ok && plan.out(3).ok) && plan.out(4).ok)
                && k'.row == (if halted && plan.out(3).ok then Some(Stopped) else k.row)
                && LeftWith(plan, id, if halted then k.parts - ({Process, Tap} - plan.out(2).left) else k.parts,
                            k'.parts)
    {
      hide Valid, Exec, Apply, Locked, Kept, LeaseOf, LeftWith;
      ghost var s0 := View();
      err := Admit(t, id, Restore, plan);
      if err { return; }
      ghost var s1 := View();
      err := RestoreAdmitted(t, id, plan);
      if id in s0.recorded {
        KeptTrans(s0, s1, View(), id);
        LeftTrans(plan, id, PartsOf(s0, id), PartsOf(s1, id), PartsOf(View(), id), {Process, Tap} - plan.out(2).left);
      }
    }

    method RestoreAdmitted(t: Tid, id: Id, plan: Plan) returns (err: bool)
      requires Valid() && serving && id in recorded && id in rows && rows[id] != CleanupPending
      requires t in calls && calls[t] == Call(id, if rows[id] == Running then StopRead(true) else Pc.Rollback)
      modifies this
      ensures Valid() && old(log) <= log && serving && t !in calls && id in rows
      ensures Kept(old(View()), View(), id)
      ensures var running := old(rows)[id] == Running;
              var halted := running && plan.out(1).ok;
              && (!err <==> (running ==> plan.out(1).ok && plan.out(3).ok) && plan.out(4).ok)
              && rows[id] == (if halted && plan.out(3).ok then Stopped else old(rows)[id])
              && LeftWith(plan, id, var p := old(PartsOf(View(), id));
                                    if halted then p - ({Process, Tap} - plan.out(2).left) else p, PartsOf(View(), id))
    {
      hide Valid, Exec, Apply, LeaseOf, Kept, LeftWith, LeftAlone;
      ghost var s0 := View();
      Between(t, id, plan.others(1));
      ghost var s1 := View();
      LeftBy(plan, 1, id, s0, s1);
      err := false;
      if rows[id] == Running {
        err := StopFirst(t, id, plan);
        KeptTrans(s0, s1, View(), id);
        LeftTrans(plan, id, PartsOf(s0, id), PartsOf(s1, id), PartsOf(View(), id), {Process, Tap} - plan.out(2).left);
        LeftTrans(plan, id, PartsOf(s0, id), PartsOf(s1, id), PartsOf(View(), id), {});
        if err { return; }
      }
      ghost var s2 := View();
      err := RollBack(t, id, plan);
      KeptTrans(s0, s2, View(), id);
      ghost var p := if s0.rows[id] == Running then PartsOf(s0, id) - ({Process, Tap} - plan.out(2).left)
                     else PartsOf(s0, id);
      LeftTrans(plan, id, p, PartsOf(s2, id), PartsOf(View(), id), {});
    }

    method RollBack(t: Tid, id: Id, plan: Plan) returns (err: bool)
      requires Valid() && serving && id in recorded && t in calls && calls[t] == Call(id, Pc.Rollback)
      modifies this
      ensures Valid() && old(log) <= log && serving && t !in calls
      ensures err <==> !plan.out(4).ok
      ensures Kept(old(View()), View(), id) && TaskOf(View(), id).row == old(TaskOf(View(), id)).row
      ensures LeftWith(plan, id, old(PartsOf(View(), id)), PartsOf(View(), id))
    {
      hide Valid, Exec, Apply, LeaseOf, Kept, LeftWith, LeftAlone;
      ghost var s0 := View();
      Between(t, id, plan.others(4));
      ghost var s1 := View();
      LeftBy(plan, 4, id, s0, s1);
      err := Rollback(t, id, plan.out(4));
      SameKept(s1, View(), id);
      KeptTrans(s0, s1, View(), id);
    }

    /** A restore stops a running task; the lock is held already. */
    method StopFirst(t: Tid, id: Id, plan: Plan) returns (err: bool)
      requires Valid() && serving && id in recorded && id in rows && rows[id] == Running
      requires t in calls && calls[t] == Call(id, StopRead(true))
      modifies this
      ensures Valid() && old(log) <= log && serving && id in recorded && id in rows
      ensures if err then t !in calls else t in calls && calls[t] == Call(id, Pc.Rollback)
      ensures Kept(old(View()), View(), id)
      ensures err <==> !plan.out(1).ok || !plan.out(3).ok
      ensures rows[id] == if err then Running else Stopped
      ensures LeftWith(plan, id, var p := old(PartsOf(View(), id));
                                 if plan.out(1).ok then p - ({Process, Tap} - plan.out(2).left) else p,
                       PartsOf(View(), id))
    {
      hide Valid, Exec, Apply, LeaseOf, Kept;
      ghost var s0 := View();
      err := Look(t, id, StopRead(true), plan.out(1));
      ghost var s1 := View();
      SameKept(s0, s1, id);
      if err { return; }
      hide LeftWith;
      err := StopAdmitted(t, id, true, plan, 2);
      KeptTrans(s0, s1, View(), id);
    }

    // ---- create ----------------------------------------------------------------------------------

    /** An id nobody has gets an address, saved before it is handed out. */
    method AllocateAddress(t: Tid, id: Id, save: P.Persist) returns (err: bool)
      requires Valid() && serving && t !in calls && id !in used
      modifies this
      ensures Valid() && log == old(log) + [BeginCreate(t, id, save)] && serving && id !in recorded && id !in work
      ensures if err then t !in calls else t in calls && calls[t] == Call(id, Pc.CreateWorkspace)
      ensures err <==> old(pool).available == [] || !save.Stored?
      ensures !err ==> LeaseOf(pool, id) == var a := Some(old(pool).available[0]); Lease(a, a)
      ensures PartsOf(View(), id) == {}
      ensures err ==> (Gone(View(), id) <==> old(pool).available == [] || save != P.StoredUnsure)
    {
      hide Exec, P.Allocate, Inv, Reachable;
      ghost var w := View();
      Sound();
      FreshIdIsFree(w, usable, id, save);
      var (pool', r) := P.Allocate(pool, id, save);
      pool, used, err := pool', used + {id}, r.Err?;
      if !err {
        calls := calls[t := Call(id, Pc.CreateWorkspace)];
      }
      Note(w, BeginCreate(t, id, save));
      assert TaskOf(View(), id) == TaskOf(w, id);
    }

    /** One step of a create that touches no store: the mountpoint query, or the preparation of
        the configuration. */
    method Prepare(t: Tid, id: Id, pc: Pc, out: Outcome) returns (err: bool)
      requires Valid() && t in calls && calls[t] == Call(id, pc) && (pc.FindMountpoint? || pc.Configure?)
      modifies this
      ensures Valid() && log == old(log) + [Step(t, out)] && serving == old(serving) && recorded == old(recorded)
      ensures TaskOf(View(), id) == old(TaskOf(View(), id)) && pool == old(pool)
      ensures err <==> !out.ok
      ensures t in calls
      ensures calls[t] == Call(id, if err then Pc.UndoWorkspace(true) else if pc.FindMountpoint? then Configure
                               else Pc.CreateVm)
    {
      hide Apply, Exec, Local, P.Release, Inv, Reachable;
      ghost var w := View();
      Sound();
      StepIs(w, usable, t, out);
      AtPrepare(TaskOf(w, id), pc, out);
      TaskStepIs(w, usable, t, out);
      err := !out.ok;
      Move(t, id, Goto(if err then Pc.UndoWorkspace(true) else if pc.FindMountpoint? then Configure else Pc.CreateVm));
      Note(w, Step(t, out));
    }

    method CreateWorkspace(t: Tid, id: Id, out: Outcome) returns (err: bool)
      requires Valid() && t in calls && calls[t] == Call(id, Pc.CreateWorkspace)
      modifies this
      ensures Valid() && log == old(log) + [Step(t, out)] && serving == old(serving) && recorded == old(recorded)
      ensures var k := old(TaskOf(View(), id)); TaskOf(View(), id) == k.(work := out.ok || out.work || k.work)
      ensures pool == old(pool)
      ensures err <==> !out.ok
      ensures t in calls && calls[t] == Call(id, if err then Pc.UndoAddress(true) else FindMountpoint)
    {
      hide Apply, Exec, Local, P.Release, Inv, Reachable;
      ghost var w := View();
      Sound();
      StepIs(w, usable, t, out);
      AtCreateWorkspace(TaskOf(w, id), out);
      TaskStepIs(w, usable, t, out);
      err := !out.ok;
      if id !in work && (out.ok || out.work) {
        work := work + {id};
      }
      Move(t, id, Goto(if err then Pc.UndoAddress(true) else FindMountpoint));
      Note(w, Step(t, out));
    }

    method CreateVm(t: Tid, id: Id, out: Outcome) returns (err: bool)
      requires Valid() && t in calls && calls[t] == Call(id, Pc.CreateVm)
      modifies this
      ensures Valid() && log == old(log) + [Step(t, out)] && serving == old(serving) && recorded == old(recorded)
      ensures TaskOf(View(), id) == old(TaskOf(View(), id)).(parts := if out.ok then ALL_PARTS else out.left)
      ensures pool == old(pool)
      ensures err <==> !out.ok
      ensures t in calls && calls[t] == Call(id, if err then Pc.UndoVm else RecordTask)
    {
      hide Apply, Exec, Local, P.Release, Inv, Reachable;
      ghost var w := View();
      Sound();
      StepIs(w, usable, t, out);
      AtCreateVm(TaskOf(w, id), out);
      TaskStepIs(w, usable, t, out);
      err := !out.ok;
      NoPartsYet(w, usable, t);
      LeaveParts(id, if err then out.left else ALL_PARTS);
      Move(t, id, Goto(if err then Pc.UndoVm else RecordTask));
      Note(w, Step(t, out));
    }

    /** State.CreateTask: the row appears with status running, or not at all. */
    method InsertRow(t: Tid, id: Id, out: Outcome) returns (err: bool)
      requires Valid() && t in calls && calls[t] == Call(id, RecordTask)
      modifies this
      ensures Valid() && log == old(log) + [Step(t, out)] && serving == old(serving)
      ensures TaskOf(View(), id) == if out.ok then old(TaskOf(View(), id)).(row := Some(Running), recorded := true)
                                    else old(TaskOf(View(), id))
      ensures pool == old(pool)
      ensures err <==> !out.ok
      ensures if err then t in calls && calls[t] == Call(id, Pc.UndoVm) else t !in calls
    {
      hide Apply, Exec, Local, P.Release, Inv, Reachable;
      ghost var w := View();
      Sound();
      NoRowYet(w, usable, t);
      StepIs(w, usable, t, out);
      AtRecordTask(TaskOf(w, id), out);
      TaskStepIs(w, usable, t, out);
      err := !out.ok;
      if out.ok {
        rows, recorded := rows[id := Running], recorded + {id};
      }
      Move(t, id, if err then Goto(Pc.UndoVm) else Return);
      Note(w, Step(t, out));
    }

    // cleanupCreateTask

    method UndoVm(t: Tid, id: Id, out: Outcome) returns (err: bool)
      requires Valid() && t in calls && calls[t] == Call(id, Pc.UndoVm)
      modifies this
      ensures Valid() && log == old(log) + [Step(t, out)] && serving == old(serving) && recorded == old(recorded)
      ensures err <==> !out.ok
      ensures var k := old(TaskOf(View(), id));
              TaskOf(View(), id) == k.(parts := Undone(k.parts, out))
      ensures pool == old(pool)
      ensures t in calls && calls[t] == Call(id, Pc.UndoWorkspace(!err))
    {
      hide Apply, Exec, Local, P.Release, Inv, Reachable;
      ghost var w := View();
      Sound();
      StepIs(w, usable, t, out);
      AtUndoVm(TaskOf(w, id), out);
      TaskStepIs(w, usable, t, out);
      err := !out.ok;
      LeaveParts(id, if err then PartsOf(View(), id) * out.left else {});
      Move(t, id, Goto(Pc.UndoWorkspace(!err)));
      Note(w, Step(t, out));
    }

    method UndoWorkspace(t: Tid, id: Id, can: bool, out: Outcome) returns (err: bool)
      requires Valid() && t in calls && calls[t] == Call(id, Pc.UndoWorkspace(can))
      modifies this
      ensures Valid() && log == old(log) + [Step(t, out)] && serving == old(serving) && recorded == old(recorded)
      ensures err <==> !out.ok
      ensures var k := old(TaskOf(View(), id)); TaskOf(View(), id) == k.(work := k.work && out.work)
      ensures pool == old(pool)
      ensures t in calls && calls[t] == Call(id, Pc.UndoAddress(can))
    {
      hide Apply, Exec, Local, P.Release, Inv, Reachable;
      ghost var w := View();
      Sound();
      StepIs(w, usable, t, out);
      AtUndoWorkspace(TaskOf(w, id), can, out);
      TaskStepIs(w, usable, t, out);
      err := !out.ok;
      if id in work && !out.work {
        work := work - {id};
      }
      Move(t, id, Goto(Pc.UndoAddress(can)));
      Note(w, Step(t, out));
    }

    /** The address is released only if the VM is known to be gone. */
    method UndoAddress(t: Tid, id: Id, can: bool, out: Outcome) returns (err: bool)
      requires Valid() && t in calls && calls[t] == Call(id, Pc.UndoAddress(can))
      modifies this
      ensures Valid() && log == old(log) + [Step(t, out)] && serving == old(serving) && recorded == old(recorded)
      ensures err <==> can && !out.save.Stored?
      ensures t !in calls
      ensures !can ==> pool == old(pool)
      ensures TaskOf(View(), id) == old(TaskOf(View(), id))
      ensures can && !err ==> (Gone(View(), id) <==> id !in old(work))
    {
      hide Apply, Exec, Local, P.Release, Inv, Reachable;
      ghost var w := View();
      Sound();
      UndoAddressFacts(w, usable, t, out);
      if can { ReleaseStepIs(w, usable, t, out); } else { StepIs(w, usable, t, out); }
      err := false;
      if can {
        var (pool', r) := P.Release(pool, id, out.save);
        pool, err := pool', r.Err?;
      }
      Move(t, id, Return);
      Note(w, Step(t, out));
      assert TaskOf(View(), id) == TaskOf(w, id);
    }

    /** Other goroutines run while t creates a task. */
    method Meanwhile(t: Tid, id: Id, others: seq<Label>)
      requires Valid() && serving && id !in recorded
      requires t in calls && calls[t].id == id && Creating(calls[t].pc)
      modifies this
      ensures Valid() && old(log) <= log && serving && id !in recorded
      ensures t in calls && calls[t] == old(calls)[t]
      ensures LeftAlone(old(View()), View(), id)
      ensures ProcessDies(id) !in others ==> PartsOf(View(), id) == old(PartsOf(View(), id))
    {
      hide Valid, Exec, Apply;
      Interfere(t, others);
      assert TaskOf(View(), id).recorded == old(TaskOf(View(), id)).recorded;
    }

    /** cleanupCreateTask: an error exactly if one of its steps fails. Without faults nothing is
        left, unless it is not told of a dataset that is there; an address whose VM could not be
        deleted stays allocated. */
    method CleanupCreateTask(t: Tid, id: Id, vm: bool, dataset: bool, plan: Plan) returns (err: bool)
      requires Valid() && serving && id !in recorded && (vm ==> dataset)
      requires t in calls
      requires calls[t] == Call(id, if vm then Pc.UndoVm else if dataset then Pc.UndoWorkspace(true)
                                else Pc.UndoAddress(true))
      modifies this
      ensures Valid() && old(log) <= log && serving && t !in calls && id !in recorded
      ensures FaultFree(plan) ==> !err && (Gone(View(), id) <==> dataset || id !in old(work))
      ensures var deleted := vm ==> plan.out(0).ok;
              && (!err <==> deleted && (dataset ==> plan.out(1).ok) && plan.out(2).save.Stored?)
              && (!deleted ==> Refreshed(old(LeaseOf(pool, id)), LeaseOf(pool, id)))
              && LeftWith(plan, id, var p := old(PartsOf(View(), id)); if vm then Undone(p, plan.out(0)) else p,
                          PartsOf(View(), id))
      ensures id in work <==> id in old(work) && (dataset ==> plan.out(1).work)
    {
      hide Valid, Exec, Apply, Gone, Local, LeaseOf, LeftWith, Refreshed, Undone;
      ghost var s0 := View();
      err := false;
      LeftItself(plan, s0, id);
      if vm {
        err := CleanupVm(t, id, plan);
      }
      ghost var s1 := View();
      var canRelease := !err;
      if dataset {
        var left := CleanupWorkspace(t, id, canRelease, plan);
        err := err || left;
      }
      ghost var s2 := View();
      var kept := CleanupAddress(t, id, canRelease, plan);
      err := err || kept;
      ghost var expected := if vm then Undone(PartsOf(s0, id), plan.out(0)) else PartsOf(s0, id);
      RefreshedTrans(s0, s1, s2, id);
      RefreshedTrans(s0, s2, View(), id);
      if dataset { LeftTrans(plan, id, expected, PartsOf(s1, id), PartsOf(s2, id), {}); }
      LeftTrans(plan, id, expected, PartsOf(s2, id), PartsOf(View(), id), {});
    }

    method CleanupVm(t: Tid, id: Id, plan: Plan) returns (err: bool)
      requires Valid() && serving && id !in recorded && t in calls && calls[t] == Call(id, Pc.UndoVm)
      modifies this
      ensures Valid() && old(log) <= log && serving && id !in recorded
      ensures err <==> !plan.out(0).ok
      ensures t in calls && calls[t] == Call(id, Pc.UndoWorkspace(!err))
      ensures (id in work <==> id in old(work)) && Refreshed(old(LeaseOf(pool, id)), LeaseOf(pool, id))
      ensures LeftWith(plan, id, Undone(old(PartsOf(View(), id)), plan.out(0)), PartsOf(View(), id))
    {
      hide Valid, Exec, Apply, Gone, Local, LeaseOf, Refreshed;
      Meanwhile(t, id, plan.others(0));
      assert TaskOf(View(), id).work == old(TaskOf(View(), id)).work;
      err := UndoVm(t, id, plan.out(0));
    }

    method CleanupWorkspace(t: Tid, id: Id, can: bool, plan: Plan) returns (err: bool)
      requires Valid() && serving && id !in recorded && t in calls && calls[t] == Call(id, Pc.UndoWorkspace(can))
      modifies this
      ensures Valid() && old(log) <= log && serving && id !in recorded
      ensures err <==> !plan.out(1).ok
      ensures t in calls && calls[t] == Call(id, Pc.UndoAddress(can))
      ensures id in work <==> id in old(work) && plan.out(1).work
      ensures Refreshed(old(LeaseOf(pool, id)), LeaseOf(pool, id))
      ensures LeftWith(plan, id, old(PartsOf(View(), id)), PartsOf(View(), id))
    {
      hide Valid, Exec, Apply, Gone, Local, LeaseOf, Refreshed, Survives;
      Meanwhile(t, id, plan.others(1));
      assert TaskOf(View(), id).work == old(TaskOf(View(), id)).work;
      err := UndoWorkspace(t, id, can, plan.out(1));
    }

    method CleanupAddress(t: Tid, id: Id, can: bool, plan: Plan) returns (err: bool)
      requires Valid() && serving && id !in recorded && t in calls && calls[t] == Call(id, Pc.UndoAddress(can))
      modifies this
      ensures Valid() && old(log) <= log && serving && t !in calls && id !in recorded
      ensures err <==> can && !plan.out(2).save.Stored?
      ensures id in work <==> id in old(work)
      ensures !can ==> Refreshed(old(LeaseOf(pool, id)), LeaseOf(pool, id))
      ensures can && !err ==> (Gone(View(), id) <==> id !in old(work))
      ensures LeftWith(plan, id, old(PartsOf(View(), id)), PartsOf(View(), id))
    {
      hide Valid, Exec, Apply, Gone, Local, LeaseOf, Refreshed, Survives;
      Meanwhile(t, id, plan.others(2));
      assert TaskOf(View(), id).work == old(TaskOf(View(), id)).work;
      err := UndoAddress(t, id, can, plan.out(2));
    }

    /** CreateTask (Firecracker, with ZFS and an address pool) succeeds exactly if an address is free
        and no step fails, and then leaves a running row, the workspace, the VM and the first free
        address, in memory and on disk. After a failure the task has no row; if the clean-up meets
        no fault nothing at all is left if and only if the failing step had not half succeeded: a
        failed save that replaced the state file, or a failed `zfs create` that created the
        dataset; and the address of a VM that could not be deleted again stays allocated. */
    method CreateTask(t: Tid, id: Id, save: P.Persist, plan: Plan, cleanup: Plan) returns (err: bool)
      requires Valid() && serving && t !in calls && id !in used
      modifies this
      ensures Valid() && old(log) <= log && serving && t !in calls
      ensures if err then id !in recorded else id in rows && rows[id] == Running && id in work
      ensures !err <==> old(pool).available != [] && save.Stored? && forall n :: 0 <= n < 5 ==> plan.out(n).ok
      ensures !err ==> LeftWith(plan, id, {Process, Directory, Tap, Rootfs}, PartsOf(View(), id))
      ensures !err || (old(pool).available != [] && save.Stored? && plan.out(0).ok && plan.out(1).ok &&
                       plan.out(2).ok && !cleanup.out(0).ok) ==>
                var a := Some(old(pool).available[0]); LeaseOf(pool, id) == Lease(a, a)
      ensures err && FaultFree(cleanup) ==>
                (Gone(View(), id) <==>
                   old(pool).available == [] ||
                   (save != P.StoredUnsure && !(save.Stored? && plan.out(0).work && !plan.out(0).ok)))
    {
      hide Valid, Exec, Apply, Gone, Local, LeaseOf, LeftWith;
      err := AllocateAddress(t, id, save);
      if err { return; }
      err := CreateWithAddress(t, id, plan, cleanup);
    }

    /** CreateTask, once the address is saved. */
    method CreateWithAddress(t: Tid, id: Id, plan: Plan, cleanup: Plan) returns (err: bool)
      requires Valid() && serving && id !in recorded
      requires t in calls && calls[t] == Call(id, Pc.CreateWorkspace)
      modifies this
      ensures Valid() && old(log) <= log && serving && t !in calls
      ensures if err then id !in recorded else id in rows && rows[id] == Running && id in work
      ensures !err <==> forall n :: 0 <= n < 5 ==> plan.out(n).ok
      ensures !err ==> LeftWith(plan, id, ALL_PARTS, PartsOf(View(), id))
      ensures !err || (plan.out(0).ok && plan.out(1).ok && plan.out(2).ok && !cleanup.out(0).ok) ==>
                Refreshed(old(LeaseOf(pool, id)), LeaseOf(pool, id))
      ensures err && FaultFree(cleanup) ==>
                (Gone(View(), id) <==> plan.out(0).ok || !(plan.out(0).work || id in old(work)))
    {
      hide Valid, Exec, Apply, Gone, Local, LeaseOf, LeftWith, Refreshed, Survives, FaultFree;
      ghost var s0 := View();
      Meanwhile(t, id, plan.others(0));
      assert TaskOf(View(), id).work == old(TaskOf(View(), id)).work;
      err := CreateWorkspace(t, id, plan.out(0));
      assert TaskOf(View(), id).work <==> id in work;
      ghost var s1 := View();
      if err {
        var ignored := CleanupCreateTask(t, id, false, false, cleanup);
        return;
      }
      hide TaskOf;
      err := CreateRest(t, id, plan, cleanup);
      RefreshedTrans(s0, s1, View(), id);
    }

    /** CreateTask, once the dataset exists. */
    method CreateRest(t: Tid, id: Id, plan: Plan, cleanup: Plan) returns (err: bool)
      requires Valid() && serving && id !in recorded
      requires t in calls && calls[t] == Call(id, FindMountpoint)
      modifies this
      ensures Valid() && old(log) <= log && serving && t !in calls
      ensures if err then id !in recorded else id in rows && rows[id] == Running && (id in work <==> id in old(work))
      ensures !err <==> forall n :: 1 <= n < 5 ==> plan.out(n).ok
      ensures !err ==> LeftWith(plan, id, ALL_PARTS, PartsOf(View(), id))
      ensures !err || (plan.out(1).ok && plan.out(2).ok && !cleanup.out(0).ok) ==>
                Refreshed(old(LeaseOf(pool, id)), LeaseOf(pool, id))
      ensures err && FaultFree(cleanup) ==> Gone(View(), id)
    {
      hide Valid, Exec, Apply, Gone, Local, LeaseOf, LeftWith, Refreshed, Survives, FaultFree;
      ghost var s0 := View();
      err := PrepareAll(t, id, plan);
      ghost var s1 := View();
      if err {
        var ignored := CleanupCreateTask(t, id, false, true, cleanup);
        return;
      }
      err := CreateVmAndRecord(t, id, plan, cleanup);
      RefreshedTrans(s0, s1, View(), id);
    }

    method PrepareAll(t: Tid, id: Id, plan: Plan) returns (err: bool)
      requires Valid() && serving && id !in recorded
      requires t in calls && calls[t] == Call(id, FindMountpoint)
      modifies this
      ensures Valid() && old(log) <= log && serving && id !in recorded
      ensures !err <==> plan.out(1).ok && plan.out(2).ok
      ensures t in calls && calls[t] == Call(id, if err then Pc.UndoWorkspace(true) else Pc.CreateVm)
      ensures (id in work <==> id in old(work)) && Refreshed(old(LeaseOf(pool, id)), LeaseOf(pool, id))
    {
      hide Valid, Exec, Apply, Local, LeaseOf, Survives;
      Meanwhile(t, id, plan.others(1));
      assert TaskOf(View(), id).work == old(TaskOf(View(), id)).work;
      err := Prepare(t, id, FindMountpoint, plan.out(1));
      if !err {
        ghost var k := TaskOf(View(), id);
        Meanwhile(t, id, plan.others(2));
        assert TaskOf(View(), id).work == k.work;
        err := Prepare(t, id, Configure, plan.out(2));
      }
    }

    /** CreateTask, from the backend's CreateVM on. */
    method CreateVmAndRecord(t: Tid, id: Id, plan: Plan, cleanup: Plan) returns (err: bool)
      requires Valid() && serving && id !in recorded
      requires t in calls && calls[t] == Call(id, Pc.CreateVm)
      modifies this
      ensures Valid() && old(log) <= log && serving && t !in calls
      ensures if err then id !in recorded else id in rows && rows[id] == Running && (id in work <==> id in old(work))
      ensures !err <==> plan.out(3).ok && plan.out(4).ok
      ensures !err ==> LeftWith(plan, id, ALL_PARTS, PartsOf(View(), id))
      ensures !err || !cleanup.out(0).ok ==> Refreshed(old(LeaseOf(pool, id)), LeaseOf(pool, id))
      ensures err && FaultFree(cleanup) ==> Gone(View(), id)
    {
      hide Valid, Exec, Apply, Gone, Local, LeaseOf, LeftWith, Refreshed, FaultFree;
      ghost var s0 := View();
      err := LaunchNew(t, id, plan);
      ghost var s1 := View();
      if !err {
        err := InsertRow(t, id, plan.out(4));
      }
      if err {
        var ignored := CleanupCreateTask(t, id, true, true, cleanup);
        RefreshedTrans(s0, s1, View(), id);
      }
    }

    method LaunchNew(t: Tid, id: Id, plan: Plan) returns (err: bool)
      requires Valid() && serving && id !in recorded
      requires t in calls && calls[t] == Call(id, Pc.CreateVm)
      modifies this
      ensures Valid() && old(log) <= log && serving && id !in recorded
      ensures err <==> !plan.out(3).ok
      ensures t in calls && calls[t] == Call(id, if err then Pc.UndoVm else RecordTask)
      ensures (id in work <==> id in old(work)) && Refreshed(old(LeaseOf(pool, id)), LeaseOf(pool, id))
      ensures !err ==> LeftWith(plan, id, ALL_PARTS, PartsOf(View(), id))
    {
      hide Valid, Exec, Apply, Local, LeaseOf, LeftWith;
      Meanwhile(t, id, plan.others(3));
      assert TaskOf(View(), id).work == old(TaskOf(View(), id)).work;
      err := CreateVm(t, id, plan.out(3));
      ghost var s1 := View();
      if !err {
        Meanwhile(t, id, plan.others(4));
        assert TaskOf(View(), id).work == TaskOf(s1, id).work;
        LeftBy(plan, 4, id, s1, View());
      }
    }

    // ---- all tasks of an image, and start-up --------------------------------------------------------

    /** DestroyTasksByImage takes up the listed tasks of the image and no others, in listing order,
        until one cannot be destroyed; on success nothing is left of any task that had this image
        when the rows were listed. `listing`: the rows in some order, or None if they cannot be
        read; `waiting`: the call would have to wait for the lock of the next task. */
    method DestroyTasksByImage(t: Tid, listing: Option<seq<Id>>, imageOf: Id -> string, image: string,
                               plans: nat -> Plan)
      returns (err: bool, waiting: bool, ghost taken: seq<Id>)
      requires Valid() && serving && t !in calls
      requires listing.Some? ==> forall id :: id in listing.value <==> id in rows
      modifies this
      ensures Valid() && old(log) <= log && Begun(log, t) == Begun(old(log), t) + taken && serving && t !in calls
      ensures listing.None? ==> err && !waiting && taken == []
      ensures forall id :: id in taken ==> id in old(rows) && imageOf(id) == image
      ensures listing.Some? ==> taken <= Selected(listing.value, imageOf, image)
      ensures !err ==> !waiting && listing.Some? && taken == Selected(listing.value, imageOf, image)
      ensures !err ==> forall id :: id in old(rows) && imageOf(id) == image ==> Gone(View(), id)
      ensures waiting ==> var all := Selected(listing.value, imageOf, image);
                          |taken| < |all| && Locked(View(), all[|taken|])
      ensures err && listing.Some? && (forall n :: FaultFree(plans(n))) ==> waiting
    {
      taken := [];
      if listing.None? { return true, false, taken; }
      hide Valid, View, Exec, Apply, Gone, Locked, FaultFree, Begun, Selected;
      forall id | id in listing.value ensures id in recorded { RecordedIfRow(id); }
      err, waiting, taken := DestroySelected(t, listing.value, imageOf, image, plans);
      SelectedExact(listing.value, imageOf, image);
    }

    method DestroySelected(t: Tid, listed: seq<Id>, imageOf: Id -> string, image: string, plans: nat -> Plan)
      returns (err: bool, waiting: bool, ghost taken: seq<Id>)
      requires Valid() && serving && t !in calls && forall id :: id in listed ==> id in recorded
      modifies this
      ensures Valid() && old(log) <= log && Begun(log, t) == Begun(old(log), t) + taken && serving && t !in calls
      ensures taken <= Selected(listed, imageOf, image)
      ensures !err ==> !waiting && taken == Selected(listed, imageOf, image)
      ensures !err ==> forall id :: id in listed && imageOf(id) == image ==> Gone(View(), id)
      ensures waiting ==> var all := Selected(listed, imageOf, image);
                          err && |taken| < |all| && Locked(View(), all[|taken|])
      ensures err && (forall n :: FaultFree(plans(n))) ==> waiting
    {
      hide Valid, View, Exec, Apply, Gone, Locked, FaultFree, Begun, TakenUp;
      err, waiting, taken := false, false, [];
      var i := 0;
      NoneTaken(listed, imageOf, image);
      while i < |listed| && !err
        invariant 0 <= i <= |listed| && Valid() && old(log) <= log && serving && t !in calls
        invariant Begun(log, t) == Begun(old(log), t) + taken
        invariant !err ==> !waiting && TakenUp(listed, imageOf, image, i, taken)
        invariant err ==> i > 0 && imageOf(listed[i - 1]) == image &&
                          TakenUp(listed, imageOf, image, if waiting then i - 1 else i, taken)
        invariant waiting ==> Locked(View(), listed[i - 1])
        invariant err && !waiting ==> !forall n :: FaultFree(plans(n))
        invariant forall j :: 0 <= j < |listed| ==> listed[j] in recorded
        invariant !err ==> forall j :: 0 <= j < i && imageOf(listed[j]) == image ==>
                    Gone(View(), listed[j]) && listed[j] !in rows
      {
        TakenMore(listed, imageOf, image, i, taken);
        if imageOf(listed[i]) == image {
          err, waiting := TakeUp(t, listed[i], plans(i), listed);
          if !waiting { taken := taken + [listed[i]]; }
        }
        i := i + 1;
      }
      TakenAre(listed, imageOf, image, if waiting then i - 1 else i, taken);
    }

    /** One of them, unless its lock is held; what was gone before stays gone. */
    method TakeUp(t: Tid, id: Id, plan: Plan, ghost ids: seq<Id>) returns (err: bool, waiting: bool)
      requires Valid() && serving && t !in calls && id in recorded
      modifies this
      ensures Valid() && old(log) <= log && serving && t !in calls
      ensures Begun(log, t) == if waiting then Begun(old(log), t) else Begun(old(log), t) + [id]
      ensures waiting ==> err && Locked(View(), id)
      ensures !err ==> Gone(View(), id) && id !in rows
      ensures err && FaultFree(plan) ==> waiting
      ensures forall i :: i in ids && i in old(recorded) ==> i in recorded
      ensures forall i :: i in ids && i in old(recorded) && i !in old(rows) ==> Gone(View(), i) && i !in rows
    {
      hide Exec, Apply, Gone, Locked, FaultFree, Shrunk, Begun, Destroyed;
      ghost var w, before := View(), log;
      err, waiting := true, Locked(View(), id);
      if !waiting {
        err := DestroyTask(t, id, plan);
      }
      StaysGone(w, before, View(), log, ids);
    }

    /** What has had a row keeps that history, and what is gone stays gone. */
    lemma StaysGone(w: World, before: seq<Label>, w': World, after: seq<Label>, ids: seq<Id>)
      requires NoDup(usable) && before <= after
      requires w == Exec(Init(usable), usable, before) && w' == Exec(Init(usable), usable, after)
      ensures forall id :: id in ids && id in w.recorded ==> id in w'.recorded
      ensures forall id :: id in ids && id in w.recorded && id !in w.rows ==> Gone(w', id) && id !in w'.rows
    {
      ExecSplit(Init(usable), usable, before, after[|before|..]);
      assert before + after[|before|..] == after;
      ReachableInv(w, usable);
      ReachableInv(w', usable);
      RecordedForever(w, usable, after[|before|..]);
      hide Exec, Reachable;
      forall id | id in ids && id in w.recorded && id !in w.rows ensures Gone(w', id) && id !in w'.rows {
        SealedForever(w, usable, after[|before|..], id);
        assert TaskOk(TaskOf(w', id), LeaseOf(w'.pool, id));
      }
    }

    /** A crash, reconcileRunningVMs over the running rows in listing order (None if they cannot
        be read), and the daemon serves again. Exactly the running rows without a live process
        become stopped (where the write succeeds); memory of the pool is what the state file
        says; nothing else changes. */
    method RestartDaemon(listing: Option<seq<Id>>, alive: Id -> bool, written: Id -> bool)
      requires Valid()
      requires listing.Some? ==>
                 NoDup(listing.value) && forall id :: id in listing.value <==> id in rows && rows[id] == Running
      modifies this
      ensures Valid() && old(log) <= log && serving && calls == map[]
      ensures rows == if listing.Some? then Reconciled(old(rows), old(rows).Keys, alive, written) else old(rows)
      ensures pool == P.Reload(old(pool), usable)
      ensures parts == old(parts) && work == old(work) && recorded == old(recorded)
    {
      hide Exec, P.Reload;
      ghost var w := View();
      calls, serving, pool := map[], false, P.Reload(pool, usable);
      Note(w, Crash);
      if listing.Some? {
        ReconcileRunningVMs(listing.value, alive, written);
      }
      w := View();
      serving := true;
      Note(w, Serve);
    }

    method ReconcileRunningVMs(listed: seq<Id>, alive: Id -> bool, written: Id -> bool)
      requires Valid() && !serving
      requires NoDup(listed) && forall id :: id in listed <==> id in rows && rows[id] == Running
      modifies this
      ensures Valid() && old(log) <= log
      ensures View() == old(View()).(rows := Reconciled(old(rows), old(rows).Keys, alive, written))
    {
      hide Valid, Exec, Apply;
      ghost var done: set<Id> := {};
      var i := 0;
      assert Reconciled(rows, {}, alive, written) == rows;
      while i < |listed|
        invariant 0 <= i <= |listed| && Valid() && old(log) <= log
        invariant forall id :: id in done <==> id in listed[..i]
        invariant View() == old(View()).(rows := Reconciled(old(rows), done, alive, written))
      {
        var id := listed[i];
        assert id !in done;
        if !alive(id) {
          ReconcileRow(id, written(id));
        }
        assert listed[..i + 1] == listed[..i] + [id];
        done := done + {id};
        assert rows == Reconciled(old(rows), done, alive, written);
        i := i + 1;
      }
      assert listed[..i] == listed;
      assert Reconciled(old(rows), done, alive, written) == Reconciled(old(rows), old(rows).Keys, alive, written);
    }

    method ReconcileRow(id: Id, written: bool)
      requires Valid() && !serving && id in rows && rows[id] == Running
      modifies this
      ensures Valid() && old(log) <= log
      ensures View() == old(View()).(rows := if written then old(rows)[id := Stopped] else old(rows))
    {
      hide Exec;
      ghost var w := View();
      if written {
        rows := rows[id := Stopped];
      }
      Note(w, Reconcile(id, written));
    }
  }

  /** Looking at a destroy from its start on. */
  lemma DestroyedIf(plan: Plan, id: Id, s: World, s1: World, s': World, found: Option<Status>, err: bool)
    requires LeftAlone(s, s1, id) && LeftWith(plan, id, PartsOf(s, id), PartsOf(s1, id))
    requires found == if plan.cancelled(0) || !plan.out(0).ok then None else TaskOf(s1, id).row
    requires found.None? ==> s' == s1 && (err <==> plan.cancelled(0) || !plan.out(0).ok)
    requires found.Some? ==>
               var work := id in s1.work;
               && (err <==> !(VmGoes(plan) && WorkspaceGoes(plan, work) &&
                              RecordGoes(plan, found.value == CleanupPending, id in s1.pool.leased)))
               && LeftWith(plan, id, Undone(PartsOf(s1, id), plan.out(1)), PartsOf(s', id))
               && (id in s'.work <==> work && (VmGoes(plan) ==> plan.out(2).work))
               && RowAfter(TaskOf(s1, id).row, TaskOf(s', id).row, VmGoes(plan) && WorkspaceGoes(plan, work))
    ensures Destroyed(plan, id, s, s', err)
  {
    LeftTrans(plan, id, PartsOf(s, id), PartsOf(s1, id), PartsOf(s', id), plan.out(1).left);
    assert found.Some? ==> LeftWith(plan, id, Undone(PartsOf(s, id), plan.out(1)), PartsOf(s', id));
    hide LeftWith, VmGoes, WorkspaceGoes, RecordGoes;
    assert TaskOf(s1, id).row == TaskOf(s, id).row && TaskOf(s1, id).work == TaskOf(s, id).work;
    assert id in s.pool.leased <==> id in s1.pool.leased;
  }

  /** What is left of what is left. */
  lemma LeftTrans(plan: Plan, id: Id, a: set<Part>, b: set<Part>, c: set<Part>, x: set<Part>)
    requires LeftWith(plan, id, a, b)
    ensures LeftWith(plan, id, b, c) ==> LeftWith(plan, id, a, c)
    ensures LeftWith(plan, id, b * x, c) ==> LeftWith(plan, id, a * x, c)
    ensures LeftWith(plan, id, b - x, c) ==> LeftWith(plan, id, a - x, c)
  {
  }

  lemma LeftBy(plan: Plan, n: nat, id: Id, s: World, s': World)
    requires LeftAlone(s, s', id) && (ProcessDies(id) !in plan.others(n) ==> PartsOf(s', id) == PartsOf(s, id))
    ensures LeftWith(plan, id, PartsOf(s, id), PartsOf(s', id))
    ensures TaskOf(s', id).row == TaskOf(s, id).row
  {
  }

  lemma HaltLeaves(plan: Plan, id: Id, a: set<Part>, b: set<Part>, c: set<Part>, d: set<Part>, left: set<Part>)
    requires LeftWith(plan, id, a, b) && c == b - ({Process, Tap} - left) && LeftWith(plan, id, c, d)
    ensures LeftWith(plan, id, a - ({Process, Tap} - left), d) && d * {Process, Tap} <= left
  {
  }

  lemma StartLeaves(plan: Plan, id: Id, a: set<Part>, b: set<Part>, c: set<Part>, out: Outcome)
    requires LeftWith(plan, id, a, b)
    ensures Started(a, out) == Started(b, out)
    ensures c == Started(b, out) || LeftWith(plan, id, Started(b, out), c) ==> LeftWith(plan, id, Started(a, out), c)
  {
    assert a + {Process, Tap} == b + {Process, Tap};
  }

  lemma LeftItself(plan: Plan, s: World, id: Id)
    ensures LeftWith(plan, id, PartsOf(s, id), PartsOf(s, id)) && Refreshed(LeaseOf(s.pool, id), LeaseOf(s.pool, id))
  {
  }

  lemma RefreshedTrans(a: World, b: World, c: World, id: Id)
    requires Refreshed(LeaseOf(a.pool, id), LeaseOf(b.pool, id))
    ensures Refreshed(LeaseOf(b.pool, id), LeaseOf(c.pool, id)) ==> Refreshed(LeaseOf(a.pool, id), LeaseOf(c.pool, id))
  {
  }

  lemma BothUp(plan: Plan, id: Id, a: set<Part>, b: set<Part>, out: Outcome)
    requires LeftWith(plan, id, Started(a, out), b)
    ensures out.ok ==> Tap in b && ((forall n :: ProcessDies(id) !in plan.others(n)) ==> Process in b)
  {
  }

  lemma DeletedLeaves(plan: Plan, id: Id, s0: World, s1: World, s2: World)
    requires LeftAlone(s0, s1, id) && (ProcessDies(id) !in plan.others(1) ==> PartsOf(s1, id) == PartsOf(s0, id))
    requires PartsOf(s2, id) == Undone(PartsOf(s1, id), plan.out(1))
    ensures LeftWith(plan, id, Undone(PartsOf(s0, id), plan.out(1)), PartsOf(s2, id))
  {
  }

  lemma NoneLeft(s: World, s': World, id: Id)
    requires Shrunk(s, s', id) && PartsOf(s, id) == {}
    ensures PartsOf(s', id) == {}
  {
  }

  lemma KeptTrans(a: World, b: World, c: World, id: Id)
    requires Kept(a, b, id) && Kept(b, c, id)
    ensures Kept(a, c, id)
  {
  }

  /** A change of status or VM alone. */
  lemma SameKept(a: World, b: World, id: Id)
    requires b.pool == a.pool && TaskOf(b, id) == TaskOf(a, id).(row := TaskOf(b, id).row, parts := TaskOf(b, id).parts)
    requires TaskOf(a, id).row.Some? <==> TaskOf(b, id).row.Some?
    ensures Kept(a, b, id)
  {
  }

  lemma SameShrunk(a: World, b: World, id: Id)
    requires b.pool == a.pool && TaskOf(b, id) == TaskOf(a, id) && a.recorded <= b.recorded
    ensures Shrunk(a, b, id)
  {
  }

  /** What others leave of a task whose history says that t owns it. */
  lemma SparedTask(s: World, s': World, t: Tid)
    requires Spared(s, s', t) && !Creating(s.calls[t].pc)
    ensures var id := s.calls[t].id;
            id in s.recorded ==>
              Kept(s, s', id) && Shrunk(s, s', id) && id in s'.recorded && TaskOf(s', id).row == TaskOf(s, id).row
  {
    var id := s.calls[t].id;
    if id in s.recorded {
      assert TaskOf(s', id).work == TaskOf(s, id).work && TaskOf(s', id).row == TaskOf(s, id).row;
      assert Refreshed(LeaseOf(s.pool, id), LeaseOf(s'.pool, id));
    }
  }

  lemma ShrunkTrans(a: World, b: World, c: World, id: Id)
    requires Shrunk(a, b, id) && Shrunk(b, c, id)
    ensures Shrunk(a, c, id)
  {
  }

  /** The stores after a call's step, which makes its task k'. */
  ghost predicate Stepped(w: World, w': World, t: Tid, k': Task, next: Next)
    requires t in w.calls
  {
    var c := w.calls[t];
    var k := TaskOf(w, c.id);
    && w'.rows == (if k'.row == k.row then w.rows else SetRow(w.rows, c.id, k'.row))
    && w'.parts == (if k'.parts == k.parts then w.parts else SetParts(w.parts, c.id, k'.parts))
    && w'.work == (if k'.work == k.work then w.work else if k'.work then w.work + {c.id} else w.work - {c.id})
    && w'.recorded == (if k'.recorded == k.recorded then w.recorded
                       else if k'.recorded then w.recorded + {c.id} else w.recorded - {c.id})
    && w'.calls == (if next.Goto? then w.calls[t := Call(c.id, next.pc)] else w.calls - {t})
    && w'.serving == w.serving && w'.used == w.used
  }

  /** One step of a call, spelled out as what it does to each store. */
  lemma StepIs(w: World, usable: seq<string>, t: Tid, out: Outcome)
    requires t in w.calls && !Releases(w.calls[t].pc) && (w.calls[t].id in w.parts ==> w.parts[w.calls[t].id] != {})
    ensures var c, w' := w.calls[t], Apply(w, usable, Step(t, out));
            var (k', next) := Local(TaskOf(w, c.id), c.pc, out, true);
            w'.pool == w.pool && Stepped(w, w', t, k', next)
  {
    hide Local;
  }

  /** ... and to its own task. */
  lemma TaskStepIs(w: World, usable: seq<string>, t: Tid, out: Outcome)
    requires t in w.calls
    ensures var c, w' := w.calls[t], Apply(w, usable, Step(t, out));
            var released := Releases(c.pc) ==> P.Release(w.pool, c.id, out.save).1.Ok?;
            TaskOf(w', c.id) == Local(TaskOf(w, c.id), c.pc, out, released).0
  {
    hide Local, DoStep, P.Release;
    StepIsLocal(w, t, out);
  }

  /** A step of a destroy brings nothing of its task back. */
  lemma DestroyStepIs(w: World, usable: seq<string>, t: Tid, out: Outcome)
    requires Inv(w, usable) && t in w.calls && Destroying(w.calls[t].pc)
    ensures Shrunk(w, Apply(w, usable, Step(t, out)), w.calls[t].id)
  {
    DestroyOnlyShrinks(w, usable, t, out);
    hide Inv, Local, DoStep, P.Release;
    StepKeepsHistory(w, t, out);
  }

  lemma ReleaseStepIs(w: World, usable: seq<string>, t: Tid, out: Outcome)
    requires t in w.calls && Releases(w.calls[t].pc) && (w.calls[t].id in w.parts ==> w.parts[w.calls[t].id] != {})
    ensures var c, w' := w.calls[t], Apply(w, usable, Step(t, out));
            var (pool, r) := P.Release(w.pool, c.id, out.save);
            var (k', next) := Local(TaskOf(w, c.id), c.pc, out, r.Ok?);
            w'.pool == pool && Stepped(w, w', t, k', next)
  {
    hide Local, P.Release;
  }

  // What the protocol prescribes at each step of a destroy.

  lemma AtDestroyRead(k: Task, out: Outcome)
    ensures Local(k, DestroyRead, out, true) ==
            (k, if out.ok && k.row.Some? then Goto(Pc.DeleteVm(k.row == Some(CleanupPending))) else Return)
  {
  }

  lemma AtDeleteVm(k: Task, pending: bool, out: Outcome)
    ensures Local(k, Pc.DeleteVm(pending), out, true) ==
            (k.(parts := if out.ok then {} else k.parts * out.left),
             if out.ok then Goto(Pc.DestroyWorkspace(pending)) else Return)
  {
  }

  lemma AtDestroyWorkspace(k: Task, pending: bool, out: Outcome)
    ensures Local(k, Pc.DestroyWorkspace(pending), out, true) ==
            (k.(work := k.work && out.work), if out.ok then Goto(Pc.VerifyWorkspace(pending)) else Return)
  {
  }

  lemma AtVerifyWorkspace(k: Task, pending: bool, out: Outcome)
    ensures Local(k, Pc.VerifyWorkspace(pending), out, true) ==
            (k, if out.ok && !k.work then Goto(if pending then Pc.ReleaseAddress else Pc.MarkPending) else Return)
  {
  }

  lemma AtMarkPending(k: Task, out: Outcome)
    ensures Local(k, Pc.MarkPending, out, true) ==
            (if out.ok || out.applied then k.(row := Some(CleanupPending)) else k,
             if out.ok then Goto(Pc.ReleaseAddress) else Return)
  {
  }

  lemma AtReleaseAddress(k: Task, p: P.Pool, id: Id, out: Outcome)
    ensures var r := P.Release(p, id, out.save).1;
            && (r.Err? <==> id in p.leased && !out.save.Stored?)
            && Local(k, Pc.ReleaseAddress, out, r.Ok?) == (k, if r.Ok? then Goto(Pc.DeleteRow) else Return)
  {
  }

  lemma AtDeleteRow(k: Task, out: Outcome)
    ensures Local(k, Pc.DeleteRow, out, true) == (if out.ok || out.applied then k.(row := None) else k, Return)
  {
  }

  // ... and at each step of the others.

  function AfterLook(pc: Pc, row: Status): Pc {
    match pc
    case StopRead(restore) => Pc.StopVm(restore)
    case FailRead => MarkFailed
    case RestoreRead => if row == Running then StopRead(true) else Pc.Rollback
    case _ => MarkStarting
  }

  lemma AtLook(k: Task, pc: Pc, out: Outcome)
    requires Reading(pc) && !pc.DestroyRead?
    ensures Local(k, pc, out, true) ==
            (k, if out.ok && Admitted(k) && (pc.RestartRead? ==> k.row == Some(Stopped) || k.row == Some(Failed))
                then Goto(AfterLook(pc, k.row.value)) else Return)
  {
  }

  predicate Updating(pc: Pc) {
    pc.MarkStarting? || pc.RevertToFailed? || pc.MarkRunning? || pc.MarkStopped? || pc.MarkFailed?
  }

  function Written(pc: Pc): Status {
    match pc
    case MarkStarting => Starting
    case MarkRunning => Running
    case MarkStopped(_) => Stopped
    case _ => Failed
  }

  predicate Last(pc: Pc) {
    !pc.MarkStarting? && pc != Pc.MarkStopped(true)
  }

  function AfterUpdate(pc: Pc): Pc {
    if pc.MarkStarting? then Pc.StartVm else Pc.Rollback
  }

  lemma AtUpdate(k: Task, pc: Pc, out: Outcome)
    requires Updating(pc)
    ensures !Releases(pc)
    ensures Local(k, pc, out, true) ==
            (if out.ok then k.(row := Some(Written(pc))) else k,
             if !out.ok || Last(pc) then Return else Goto(AfterUpdate(pc)))
  {
  }

  lemma AtStartVm(k: Task, out: Outcome)
    ensures Local(k, Pc.StartVm, out, true) ==
            (k.(parts := (k.parts + {Process, Tap}) * if out.ok then ALL_PARTS else out.left),
             Goto(if out.ok then MarkRunning else RevertToFailed))
  {
    forall p: Part ensures p in ALL_PARTS {
      match p { case Process => case Directory => case Tap => case Rootfs => }
    }
    assert (k.parts + {Process, Tap}) * ALL_PARTS == k.parts + {Process, Tap};
  }

  lemma AtStopVm(k: Task, restore: bool, out: Outcome)
    ensures Local(k, Pc.StopVm(restore), out, true) ==
            (k.(parts := k.parts - ({Process, Tap} - out.left)), Goto(Pc.MarkStopped(restore)))
  {
  }

  lemma AtRollback(k: Task, out: Outcome)
    ensures Local(k, Pc.Rollback, out, true) == (k, Return)
  {
  }

  // ... and at each step of a create.

  lemma FreshIdIsFree(w: World, usable: seq<string>, id: Id, save: P.Persist)
    requires Inv(w, usable) && id !in w.used
    ensures TaskOf(w, id) == Task(None, {}, false, false)
    ensures var (pool, r) := P.Allocate(w.pool, id, save);
            && (r.Err? <==> w.pool.available == [] || !save.Stored?)
            && (r.Ok? ==> var a := Some(w.pool.available[0]); LeaseOf(pool, id) == Lease(a, a))
            && (r.Err? ==> (GoneTask(TaskOf(w, id), LeaseOf(pool, id)) <==>
                            w.pool.available == [] || save != P.StoredUnsure))
  {
  }

  lemma NoRowYet(w: World, usable: seq<string>, t: Tid)
    requires Inv(w, usable) && t in w.calls && w.calls[t].pc.RecordTask?
    ensures w.calls[t].id !in w.rows && w.calls[t].id !in w.recorded
  {
  }

  lemma NoPartsYet(w: World, usable: seq<string>, t: Tid)
    requires Inv(w, usable) && t in w.calls && w.calls[t].pc.CreateVm?
    ensures PartsOf(w, w.calls[t].id) == {}
  {
    var c := w.calls[t];
    assert CallOk(TaskOf(w, c.id), LeaseOf(w.pool, c.id), c.pc);
  }

  lemma UndoAddressFacts(w: World, usable: seq<string>, t: Tid, out: Outcome)
    requires Inv(w, usable) && t in w.calls && w.calls[t].pc.UndoAddress?
    ensures var id := w.calls[t].id;
            var can := w.calls[t].pc.canRelease;
            var (pool, r) := P.Release(w.pool, id, out.save);
            && Releases(w.calls[t].pc) == can
            && (r.Err? <==> !out.save.Stored?)
            && Local(TaskOf(w, id), w.calls[t].pc, out, if can then r.Ok? else true) == (TaskOf(w, id), Return)
            && (can && r.Ok? ==> (GoneTask(TaskOf(w, id), LeaseOf(pool, id)) <==> id !in w.work))
  {
  }

  lemma AtPrepare(k: Task, pc: Pc, out: Outcome)
    requires pc.FindMountpoint? || pc.Configure?
    ensures Local(k, pc, out, true) ==
            (k, Goto(if !out.ok then Pc.UndoWorkspace(true) else if pc.FindMountpoint? then Configure else Pc.CreateVm))
  {
  }

  lemma AtCreateWorkspace(k: Task, out: Outcome)
    ensures Local(k, Pc.CreateWorkspace, out, true) ==
            (k.(work := out.ok || out.work || k.work), Goto(if out.ok then FindMountpoint else UndoAddress(true)))
  {
  }

  lemma AtCreateVm(k: Task, out: Outcome)
    ensures Local(k, Pc.CreateVm, out, true) ==
            (k.(parts := if out.ok then ALL_PARTS else out.left), Goto(if out.ok then RecordTask else Pc.UndoVm))
  {
  }

  lemma AtRecordTask(k: Task, out: Outcome)
    ensures Local(k, RecordTask, out, true) ==
            if out.ok then (k.(row := Some(Running), recorded := true), Return) else (k, Goto(Pc.UndoVm))
  {
  }

  lemma AtUndoVm(k: Task, out: Outcome)
    ensures Local(k, Pc.UndoVm, out, true) ==
            (k.(parts := if out.ok then {} else k.parts * out.left), Goto(Pc.UndoWorkspace(out.ok)))
  {
  }

  lemma AtUndoWorkspace(k: Task, can: bool, out: Outcome)
    ensures Local(k, Pc.UndoWorkspace(can), out, true) == (k.(work := k.work && out.work), Goto(Pc.UndoAddress(can)))
  {
  }
}
