/**
 The tasks table with its guards: which status each operation may write, which errors it
 reports, and which status changes it announces to the registered callback.
 */
module TaskTable {
  import opened Common
  import opened Lifecycle

  datatype Row = Row(status: Status, stoppedAt: Option<nat>)

  datatype Change = Change(id: Id, before: Status, after: Status)

  datatype Table = Table(rows: map<Id, Row>, notified: seq<Change>)

  /** How the statements of one operation end; `counted`: the affected rows could be asked for. */
  datatype Sql = Sql(read: bool, write: bool, counted: bool)

  datatype Answer = Done | NotFound | Refused | SqlError

  datatype Write =
    | Create(id: Id, status: Status, sql: Sql)
    | Update(id: Id, status: Status, now: nat, sql: Sql)
    | Mark(id: Id, sql: Sql)
    | Delete(id: Id, sql: Sql)

  function Affected(found: bool, sql: Sql): Answer {
    if !sql.write || !sql.counted then SqlError else if found then Done else NotFound
  }

  function Run(t: Table, w: Write): (Table, Answer) {
    match w
    case Create(id, status, sql) =>
      if status == CleanupPending then (t, Refused)
      else if !sql.write || id in t.rows then (t, SqlError)
      else (t.(rows := t.rows[id := Row(status, None)]), Done)
    case Update(id, status, now, sql) =>
      if status == CleanupPending then (t, Refused)
      else if !sql.read then (t, SqlError)
      else if id !in t.rows then (t, NotFound)
      else if !sql.write then (t, SqlError)
      else
        var row := t.rows[id];
        var stopped := if status == Stopped then Some(now) else row.stoppedAt;
        (Table(t.rows[id := Row(status, stopped)],
               if row.status == status then t.notified else t.notified + [Change(id, row.status, status)]), Done)
    case Mark(id, sql) =>
      (if sql.write && id in t.rows then t.(rows := t.rows[id := t.rows[id].(status := CleanupPending)]) else t,
       Affected(id in t.rows, sql))
    case Delete(id, sql) =>
      (if sql.write then t.(rows := t.rows - {id}) else t, Affected(id in t.rows, sql))
  }

  function RunAll(t: Table, ws: seq<Write>): Table
    decreases |ws|
  {
    if ws == [] then t else RunAll(Run(t, ws[0]).0, ws[1..])
  }

  predicate Pending(t: Table, id: Id) {
    id in t.rows && t.rows[id].status == CleanupPending
  }

  /** However many operations run and fail, a row can read cleanup_pending only if it did at
      the start or the one marking operation ran on it. */
  lemma {:induction false} OnlyMarkMakesPending(t: Table, ws: seq<Write>, id: Id)
    requires Pending(RunAll(t, ws), id)
    ensures Pending(t, id) || exists i :: 0 <= i < |ws| && ws[i].Mark? && ws[i].id == id && ws[i].sql.write
    decreases |ws|
  {
    if ws == [] {
    } else {
      OnlyMarkMakesPending(Run(t, ws[0]).0, ws[1..], id);
      if Pending(Run(t, ws[0]).0, id) {
        assert Pending(t, id) || (ws[0].Mark? && ws[0].id == id && ws[0].sql.write);
      } else {
        var i :| 0 <= i < |ws[1..]| && ws[1..][i].Mark? && ws[1..][i].id == id && ws[1..][i].sql.write;
        assert ws[i + 1] == ws[1..][i];
      }
    }
  }

  /** The table does not guard the way out: an ordinary update takes a row out of
      cleanup_pending. That none is ever made is due to the callers. */
  lemma UpdateCanLeavePending(id: Id, now: nat)
    ensures var t := RunAll(Table(map[], []),
                       [Create(id, Running, Sql(true, true, true)), Mark(id, Sql(true, true, true))]);
            && Pending(t, id)
            && Run(t, Update(id, Stopped, now, Sql(true, true, true))).1 == Done
            && !Pending(Run(t, Update(id, Stopped, now, Sql(true, true, true))).0, id)
  {
    var fine := Sql(true, true, true);
    var ws := [Create(id, Running, fine), Mark(id, fine)];
    var t1 := Run(Table(map[], []), ws[0]).0;
    assert ws[1..] == [Mark(id, fine)] && ws[1..][1..] == [];
    assert RunAll(Table(map[], []), ws) == RunAll(t1, ws[1..]) == Run(t1, Mark(id, fine)).0;
  }

  /** The operations that take a row out of cleanup_pending: an update to any other status, which
      nothing in the table forbids, and the deletion of the row. */
  predicate Escapes(w: Write, id: Id) {
    w.id == id &&
    ((w.Update? && w.status != CleanupPending && w.sql.read && w.sql.write) || (w.Delete? && w.sql.write))
  }

  lemma OneEscape(t: Table, w: Write, id: Id)
    requires Pending(t, id)
    ensures Pending(Run(t, w).0, id) <==> !Escapes(w, id)
  {
  }

  /** Over every run a pending row stays pending throughout exactly if no operation of it is one
      of these. */
  lemma {:induction false} PendingUnlessEscape(t: Table, ws: seq<Write>, id: Id)
    requires Pending(t, id)
    ensures (forall n :: 0 <= n <= |ws| ==> Pending(RunAll(t, ws[..n]), id)) <==>
            (forall i :: 0 <= i < |ws| ==> !Escapes(ws[i], id))
    decreases |ws|
  {
    if ws == [] {
    } else {
      var u := Run(t, ws[0]).0;
      forall n | 0 < n <= |ws| ensures RunAll(t, ws[..n]) == RunAll(u, ws[1..][..n - 1]) {
        assert ws[..n][1..] == ws[1..][..n - 1];
      }
      assert RunAll(u, ws[1..][..0]) == u;
      if Pending(u, id) {
        PendingUnlessEscape(u, ws[1..], id);
        assert forall i :: 0 < i < |ws| ==> ws[i] == ws[1..][i - 1];
        Shift(t, u, ws, id);
      } else {
        assert !Pending(RunAll(t, ws[..1]), id);
      }
    }
  }

  /** The states of a run, seen from its second on. */
  lemma Shift(t: Table, u: Table, ws: seq<Write>, id: Id)
    requires ws != [] && Pending(t, id)
    requires forall n :: 0 < n <= |ws| ==> RunAll(t, ws[..n]) == RunAll(u, ws[1..][..n - 1])
    ensures (forall n :: 0 <= n <= |ws| ==> Pending(RunAll(t, ws[..n]), id)) <==>
            (forall n :: 0 <= n <= |ws[1..]| ==> Pending(RunAll(u, ws[1..][..n]), id))
  {
    assert RunAll(t, ws[..0]) == t;
    if forall n :: 0 <= n <= |ws| ==> Pending(RunAll(t, ws[..n]), id) {
      forall n | 0 <= n <= |ws[1..]| ensures Pending(RunAll(u, ws[1..][..n]), id) {
        assert Pending(RunAll(t, ws[..n + 1]), id);
      }
    }
  }

  /** Follow the announced changes of one task from a status: each must start where the task is
      and lead elsewhere. */
  function Follow(s: Status, changes: seq<Change>, id: Id): Option<Status>
    decreases |changes|
  {
    if changes == [] then Some(s)
    else if changes[0].id != id then Follow(s, changes[1..], id)
    else if changes[0].before != s || changes[0].after == s then None
    else Follow(changes[0].after, changes[1..], id)
  }

  lemma {:induction false} FollowAppend(s: Status, changes: seq<Change>, more: seq<Change>, id: Id)
    ensures Follow(s, changes + more, id) ==
            if Follow(s, changes, id).None? then None else Follow(Follow(s, changes, id).value, more, id)
    decreases |changes|
  {
    if changes == [] {
      assert changes + more == more;
    } else {
      assert (changes + more)[1..] == changes[1..] + more;
      FollowAppend(if changes[0].id == id then changes[0].after else s, changes[1..], more, id);
    }
  }

  /** The callback's account of a task is faithful: over every run of updates, and of anything on
      other tasks, following the announcements from its first status leads to its last. */
  lemma {:induction false} AnnouncementsAreFaithful(t: Table, ws: seq<Write>, id: Id)
    requires id in t.rows
    requires forall i :: 0 <= i < |ws| && ws[i].id == id ==> ws[i].Update?
    ensures var t' := RunAll(t, ws);
            && id in t'.rows && t.notified <= t'.notified
            && Follow(t.rows[id].status, t'.notified[|t.notified|..], id) == Some(t'.rows[id].status)
    decreases |ws|
  {
    if ws == [] {
      assert t.notified[|t.notified|..] == [];
    } else {
      hide Run, Follow;
      var u := Run(t, ws[0]).0;
      assert ws[0].id == id ==> ws[0].Update?;
      OneAnnouncement(t, ws[0], id);
      AnnouncementsAreFaithful(u, ws[1..], id);
      var t' := RunAll(t, ws);
      var first := u.notified[|t.notified|..];
      assert t'.notified[|t.notified|..] == first + t'.notified[|u.notified|..];
      FollowAppend(t.rows[id].status, first, t'.notified[|u.notified|..], id);
    }
  }

  lemma OneAnnouncement(t: Table, w: Write, id: Id)
    requires id in t.rows && (w.id == id ==> w.Update?)
    ensures var u := Run(t, w).0;
            id in u.rows && t.notified <= u.notified &&
            Follow(t.rows[id].status, u.notified[|t.notified|..], id) == Some(u.rows[id].status)
  {
    var u := Run(t, w).0;
    var first := u.notified[|t.notified|..];
    if first != [] {
      assert first == [Change(w.id, t.rows[w.id].status, u.rows[w.id].status)];
      assert first[1..] == [];
    }
  }

  /** What a failed operation leaves: the table as it was, but for the two writes whose row count
      could not be asked for. */
  lemma FailureChangesNothing(t: Table, w: Write)
    ensures Run(t, w).1 != Done ==>
              Run(t, w).0 == t || (Run(t, w).1 == SqlError && (w.Mark? || w.Delete?) && w.sql.write && !w.sql.counted)
  {
    if w.Delete? && w.id !in t.rows {
      assert t.rows - {w.id} == t.rows;
    }
  }

  class State {
    var rows: map<Id, Row>
    var notified: seq<Change>

    function View(): Table
      reads this
    {
      Table(rows, notified)
    }

    constructor ()
      ensures View() == Table(map[], [])
    {
      rows, notified := map[], [];
    }

    method CreateTask(id: Id, status: Status, sql: Sql) returns (a: Answer)
      modifies this
      ensures (View(), a) == Run(old(View()), Create(id, status, sql))
      ensures a != Done ==> View() == old(View())
      ensures forall i :: Pending(View(), i) ==> Pending(old(View()), i)
      ensures a == Refused <==> status == CleanupPending
      ensures a == Done <==> status != CleanupPending && sql.write && id !in old(rows)
      ensures a == Done ==> rows == old(rows)[id := Row(status, None)] && notified == old(notified)
    {
      if status == CleanupPending { return Refused; }
      if !sql.write || id in rows { return SqlError; }
      rows := rows[id := Row(status, None)];
      a := Done;
    }

    method UpdateTaskStatus(id: Id, status: Status, now: nat, sql: Sql) returns (a: Answer)
      modifies this
      ensures (View(), a) == Run(old(View()), Update(id, status, now, sql))
      ensures a != Done ==> View() == old(View())
      ensures forall i :: Pending(View(), i) ==> Pending(old(View()), i)
      ensures a == Refused <==> status == CleanupPending
      ensures a == NotFound <==> status != CleanupPending && sql.read && id !in old(rows)
      ensures a == Done <==> status != CleanupPending && sql.read && id in old(rows) && sql.write
      ensures a == Done ==>
                var was := old(rows)[id];
                && rows == old(rows)[id := Row(status, if status == Stopped then Some(now) else was.stoppedAt)]
                && notified == old(notified) + if was.status == status then [] else [Change(id, was.status, status)]
    {
      if status == CleanupPending { return Refused; }
      if !sql.read { return SqlError; }
      if id !in rows { return NotFound; }
      var oldStatus := rows[id].status;
      if !sql.write { return SqlError; }
      rows := rows[id := Row(status, if status == Stopped then Some(now) else rows[id].stoppedAt)];
      if oldStatus != status {
        notified := notified + [Change(id, oldStatus, status)];
      }
      a := Done;
    }

    method MarkTaskCleanupPending(id: Id, sql: Sql) returns (a: Answer)
      modifies this
      ensures (View(), a) == Run(old(View()), Mark(id, sql))
      ensures a == Done ==> Pending(View(), id)
      ensures a == NotFound ==> id !in old(rows) && View() == old(View())
      ensures a == Done <==> sql.write && sql.counted && id in old(rows)
      ensures a == NotFound <==> sql.write && sql.counted && id !in old(rows)
      ensures notified == old(notified)
      ensures rows == if sql.write && id in old(rows) then old(rows)[id := Row(CleanupPending, old(rows)[id].stoppedAt)]
                      else old(rows)
    {
      if !sql.write { return SqlError; }
      var found := id in rows;
      if found {
        rows := rows[id := rows[id].(status := CleanupPending)];
      }
      if !sql.counted { return SqlError; }
      a := if found then Done else NotFound;
    }

    method DeleteTask(id: Id, sql: Sql) returns (a: Answer)
      modifies this
      ensures (View(), a) == Run(old(View()), Delete(id, sql))
      ensures a == Done || a == NotFound ==> id !in rows
      ensures a == Done <==> sql.write && sql.counted && id in old(rows)
      ensures a == NotFound <==> sql.write && sql.counted && id !in old(rows)
      ensures notified == old(notified) && rows == if sql.write then old(rows) - {id} else old(rows)
    {
      if !sql.write { return SqlError; }
      var found := id in rows;
      rows := rows - {id};
      if !sql.counted { return SqlError; }
      a := if found then Done else NotFound;
    }
  }
}
