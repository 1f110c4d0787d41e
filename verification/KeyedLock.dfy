/**
 The reference-counted per-task lifecycle lock (`withTaskLock`) as a concurrent
 step system: any number of goroutines, any ids, every interleaving.

 A handle stands for the identity of one heap-allocated lock entry. `mu` is the
 mutex that guards the table; `held` says which goroutine owns each entry mutex.
 */
module KeyedLock {
  import opened Common

  type Id = string
  type Tid = nat
  type Handle = nat

  /** The table under `mu`: entries by id, the reference count of every entry ever made. */
  datatype Table = Table(entries: map<Id, Handle>, refs: map<Handle, nat>, next: Handle)

  /** Where one call of withTaskLock stands. */
  datatype Pc =
    | Called                 // wants the table mutex
    | Admitting              // owns the table mutex, entry not looked up yet
    | Admitted(h: Handle)    // counted, still owns the table mutex
    | Queued(h: Handle)      // waits for the entry mutex
    | Running(h: Handle)     // inside fn
    | Returned(h: Handle)    // fn is over, the deferred release wants the table mutex
    | Releasing(h: Handle)   // owns the table mutex, reference not dropped yet
    | Released(h: Handle)    // reference dropped, still owns the table mutex
    | Detached(h: Handle)    // only the entry mutex is left to unlock
    | Done

  datatype Call = Call(id: Id, pc: Pc)

  datatype State = State(table: Table, mu: Option<Tid>, held: map<Handle, Tid>, calls: seq<Call>)

  datatype Label = Start(id: Id) | Go(t: Tid)

  const INIT := State(Table(map[], map[], 0), None, map[], [])

  // ---- the two critical sections -------------------------------------------------

  function Admit(tab: Table, id: Id): (Table, Handle) {
    if id in tab.entries then
      var h := tab.entries[id];
      (tab.(refs := tab.refs[h := RefsOf(tab, h) + 1]), h)
    else
      var h := tab.next;
      (Table(tab.entries[id := h], tab.refs[h := 1], h + 1), h)
  }

  function RefsOf(tab: Table, h: Handle): nat {
    if h in tab.refs then tab.refs[h] else 0
  }

  function Drop(tab: Table, id: Id, h: Handle): Table {
    var left := if RefsOf(tab, h) > 0 then RefsOf(tab, h) - 1 else 0;
    tab.(refs := tab.refs[h := left],
         entries := if left == 0 then tab.entries - {id} else tab.entries)
  }

  // ---- steps ------------------------------------------------------------------------

  predicate Enabled(s: State, t: Tid) {
    t < |s.calls| &&
    match s.calls[t].pc
    case Called => s.mu.None?
    case Returned(_) => s.mu.None?
    case Queued(h) => h !in s.held
    case Done => false
    case _ => true
  }

  function Step(s: State, t: Tid): State
    requires Enabled(s, t)
  {
    var id := s.calls[t].id;
    match s.calls[t].pc
    case Called => At(s.(mu := Some(t)), t, Admitting)
    case Admitting => var (tab, h) := Admit(s.table, id); At(s.(table := tab), t, Admitted(h))
    case Admitted(h) => At(s.(mu := None), t, Queued(h))
    case Queued(h) => At(s.(held := s.held[h := t]), t, Running(h))
    case Running(h) => At(s, t, Returned(h))
    case Returned(h) => At(s.(mu := Some(t)), t, Releasing(h))
    case Releasing(h) => At(s.(table := Drop(s.table, id, h)), t, Released(h))
    case Released(h) => At(s.(mu := None), t, Detached(h))
    case Detached(h) => At(s.(held := s.held - {h}), t, Done)
  }

  function At(s: State, t: Tid, pc: Pc): State
    requires t < |s.calls|
  {
    s.(calls := s.calls[t := s.calls[t].(pc := pc)])
  }

  /** A label that is not enabled changes nothing, so every label sequence is a run. */
  function Apply(s: State, l: Label): State {
    match l
    case Start(id) => s.(calls := s.calls + [Call(id, Called)])
    case Go(t) => if Enabled(s, t) then Step(s, t) else s
  }

  function Exec(s: State, run: seq<Label>): State
    decreases run
  {
    if run == [] then s else Exec(Apply(s, run[0]), run[1..])
  }

  // ---- invariant ------------------------------------------------------------------

  predicate OwnsTable(pc: Pc) { pc.Admitting? || pc.Admitted? || pc.Releasing? || pc.Released? }

  predicate OwnsEntry(pc: Pc) {
    pc.Running? || pc.Returned? || pc.Releasing? || pc.Released? || pc.Detached?
  }

  /** Between admission and the drop of the reference. */
  predicate Counted(pc: Pc) {
    pc.Admitted? || pc.Queued? || pc.Running? || pc.Returned? || pc.Releasing?
  }

  function CountedOn(s: State, id: Id): set<Tid> {
    set t | 0 <= t < |s.calls| && s.calls[t].id == id && Counted(s.calls[t].pc)
  }

  /** The table mutex is owned by exactly the goroutine whose program point says so. */
  ghost predicate TableMutexAgrees(s: State) {
    && (s.mu.Some? ==> s.mu.value < |s.calls| && OwnsTable(s.calls[s.mu.value].pc))
    && (forall t | 0 <= t < |s.calls| && OwnsTable(s.calls[t].pc) :: s.mu == Some(t))
  }

  /** So is every entry mutex, and only entries that were once made can be locked. */
  ghost predicate EntryMutexesAgree(s: State) {
    && (forall t | 0 <= t < |s.calls| && OwnsEntry(s.calls[t].pc) ::
          s.calls[t].pc.h in s.held && s.held[s.calls[t].pc.h] == t)
    && (forall h | h in s.held ::
          && s.held[h] < |s.calls| && OwnsEntry(s.calls[s.held[h]].pc) && s.calls[s.held[h]].pc.h == h
          && h < s.table.next)
  }

  /** Counted goroutines hold the current entry of their id; entries count exactly them. */
  ghost predicate TableAgrees(s: State) {
    && (forall t | 0 <= t < |s.calls| && Counted(s.calls[t].pc) ::
          s.calls[t].id in s.table.entries && s.table.entries[s.calls[t].id] == s.calls[t].pc.h)
    && (forall id | id in s.table.entries :: EntryCounts(s, id))
    && Injective(s.table.entries)
  }

  ghost predicate EntryCounts(s: State, id: Id)
    requires id in s.table.entries
  {
    && s.table.entries[id] < s.table.next
    && RefsOf(s.table, s.table.entries[id]) == |CountedOn(s, id)| > 0
  }

  ghost predicate Inv(s: State) {
    TableMutexAgrees(s) && EntryMutexesAgree(s) && TableAgrees(s)
  }

  lemma CountedOnUpdate(s: State, s': State, t: Tid, id: Id)
    requires |s.calls| == |s'.calls| && t < |s.calls|
    requires forall u | 0 <= u < |s.calls| && u != t :: s'.calls[u] == s.calls[u]
    requires s'.calls[t].id == s.calls[t].id
    ensures id != s.calls[t].id ==> CountedOn(s', id) == CountedOn(s, id)
    ensures Counted(s.calls[t].pc) == Counted(s'.calls[t].pc) ==> CountedOn(s', id) == CountedOn(s, id)
    ensures id == s.calls[t].id && !Counted(s.calls[t].pc) && Counted(s'.calls[t].pc) ==>
              |CountedOn(s', id)| == |CountedOn(s, id)| + 1
    ensures id == s.calls[t].id && Counted(s.calls[t].pc) && !Counted(s'.calls[t].pc) ==>
              |CountedOn(s', id)| == |CountedOn(s, id)| - 1
  {
    hide Counted;
    var a, b := CountedOn(s, id), CountedOn(s', id);
    assert a - {t} == b - {t};
    assert t in a <==> s.calls[t].id == id && Counted(s.calls[t].pc);
    assert t in b <==> s.calls[t].id == id && Counted(s'.calls[t].pc);
    hide CountedOn;
    SameBut(a, b, t);
  }

  lemma SameBut(a: set<Tid>, b: set<Tid>, t: Tid)
    requires a - {t} == b - {t}
    ensures (t in a <==> t in b) ==> a == b
    ensures t !in a && t in b ==> |b| == |a| + 1
    ensures t in a && t !in b ==> |b| == |a| - 1
  {
    assert t in a ==> a == (a - {t}) + {t};
    assert t in b ==> b == (b - {t}) + {t};
    assert t !in a ==> a == a - {t};
    assert t !in b ==> b == b - {t};
  }

  lemma StepKeepsTableMutex(s: State, t: Tid)
    requires TableMutexAgrees(s) && Enabled(s, t)
    ensures TableMutexAgrees(Step(s, t))
  {
  }

  lemma LockKeepsEntryMutexes(s: State, t: Tid)
    requires EntryMutexesAgree(s) && TableAgrees(s) && Enabled(s, t) && s.calls[t].pc.Queued?
    ensures EntryMutexesAgree(Step(s, t))
  {
  }

  lemma UnlockKeepsEntryMutexes(s: State, t: Tid)
    requires EntryMutexesAgree(s) && Enabled(s, t) && s.calls[t].pc.Detached?
    ensures EntryMutexesAgree(Step(s, t))
  {
  }

  lemma OtherStepsKeepEntryMutexes(s: State, t: Tid)
    requires EntryMutexesAgree(s) && Enabled(s, t) && !s.calls[t].pc.Queued? && !s.calls[t].pc.Detached?
    ensures EntryMutexesAgree(Step(s, t))
  {
  }

  /** The entries are apart from each other and were all made. */
  predicate Apart(tab: Table) {
    Injective(tab.entries) && forall i | i in tab.entries :: tab.entries[i] < tab.next
  }

  /** What an admission does to the table. */
  lemma AdmitOnTable(tab: Table, id: Id)
    requires Apart(tab)
    ensures var (tab', h) := Admit(tab, id);
            && Apart(tab') && tab'.entries == tab.entries[id := h] && (id in tab.entries ==> tab.entries[id] == h)
            && RefsOf(tab', h) == (if id in tab.entries then RefsOf(tab, h) + 1 else 1)
            && forall i :: i in tab.entries && i != id ==> RefsOf(tab', tab.entries[i]) == RefsOf(tab, tab.entries[i])
  {
  }

  /** What a release does to the table. */
  lemma DropOnTable(tab: Table, id: Id)
    requires Apart(tab) && id in tab.entries && RefsOf(tab, tab.entries[id]) > 0
    ensures var h := tab.entries[id];
            var tab' := Drop(tab, id, h);
            && Apart(tab') && RefsOf(tab', h) == RefsOf(tab, h) - 1
            && tab'.entries == (if RefsOf(tab, h) == 1 then tab.entries - {id} else tab.entries)
            && forall i :: i in tab.entries && i != id ==> RefsOf(tab', tab.entries[i]) == RefsOf(tab, tab.entries[i])
  {
  }

  lemma EntriesApart(s: State)
    requires TableAgrees(s)
    ensures Apart(s.table)
  {
    hide CountedOn;
    assert forall i | i in s.table.entries :: EntryCounts(s, i);
  }

  lemma AdmitKeepsTable(s: State, t: Tid)
    requires TableAgrees(s) && Enabled(s, t) && s.calls[t].pc.Admitting?
    ensures TableAgrees(Step(s, t))
  {
    hide CountedOn, Admit, RefsOf;
    var s' := Step(s, t);
    var id := s.calls[t].id;
    if id !in s.table.entries { NobodyCounted(s, id); }
    EntriesApart(s);
    AdmitOnTable(s.table, id);
    forall i | i in s'.table.entries ensures EntryCounts(s', i) {
      CountedOnUpdate(s, s', t, i);
      assert i in s.table.entries ==> EntryCounts(s, i);
    }
  }

  lemma NobodyCounted(s: State, id: Id)
    requires TableAgrees(s) && id !in s.table.entries
    ensures CountedOn(s, id) == {}
  {
  }

  lemma DropKeepsTable(s: State, t: Tid)
    requires TableAgrees(s) && Enabled(s, t) && s.calls[t].pc.Releasing?
    ensures TableAgrees(Step(s, t))
  {
    hide CountedOn, Drop, RefsOf;
    var s' := Step(s, t);
    var id := s.calls[t].id;
    assert EntryCounts(s, id);
    EntriesApart(s);
    DropOnTable(s.table, id);
    CountedOnUpdate(s, s', t, id);
    forall i | i in s'.table.entries ensures EntryCounts(s', i) {
      CountedOnUpdate(s, s', t, i);
      assert EntryCounts(s, i);
    }
    forall u | 0 <= u < |s'.calls| && Counted(s'.calls[u].pc)
      ensures s'.calls[u].id in s'.table.entries && s'.table.entries[s'.calls[u].id] == s'.calls[u].pc.h
    {
      if s'.calls[u].id == id { SomebodyCounted(s', u); }
    }
  }

  lemma SomebodyCounted(s: State, u: Tid)
    requires u < |s.calls| && Counted(s.calls[u].pc)
    ensures |CountedOn(s, s.calls[u].id)| > 0
  {
    assert u in CountedOn(s, s.calls[u].id);
  }

  lemma OtherStepsKeepTable(s: State, t: Tid)
    requires TableAgrees(s) && Enabled(s, t) && !s.calls[t].pc.Admitting? && !s.calls[t].pc.Releasing?
    ensures TableAgrees(Step(s, t))
  {
    var s' := Step(s, t);
    assert s'.table == s.table;
    assert Counted(s'.calls[t].pc) == Counted(s.calls[t].pc);
    forall i | i in s'.table.entries ensures EntryCounts(s', i) {
      CountedOnUpdate(s, s', t, i);
      assert EntryCounts(s, i);
    }
  }

  lemma StepKeepsInv(s: State, t: Tid)
    requires Inv(s) && Enabled(s, t)
    ensures Inv(Step(s, t))
  {
    StepKeepsTableMutex(s, t);
    if s.calls[t].pc.Queued? {
      LockKeepsEntryMutexes(s, t);
    } else if s.calls[t].pc.Detached? {
      UnlockKeepsEntryMutexes(s, t);
    } else {
      OtherStepsKeepEntryMutexes(s, t);
    }
    if s.calls[t].pc.Admitting? {
      AdmitKeepsTable(s, t);
    } else if s.calls[t].pc.Releasing? {
      DropKeepsTable(s, t);
    } else {
      OtherStepsKeepTable(s, t);
    }
  }

  lemma ApplyKeepsInv(s: State, l: Label)
    requires Inv(s)
    ensures Inv(Apply(s, l))
  {
    match l
    case Go(t) => if Enabled(s, t) { StepKeepsInv(s, t); }
    case Start(id) => StartKeepsInv(s, id);
  }

  lemma StartKeepsInv(s: State, id: Id)
    requires Inv(s)
    ensures Inv(Apply(s, Start(id)))
  {
    hide CountedOn;
    var s' := Apply(s, Start(id));
    StartKeepsMutexes(s, id);
    forall i | i in s'.table.entries ensures EntryCounts(s', i) {
      StartCountsNobody(s, id, i);
      assert EntryCounts(s, i);
    }
    hide TableMutexAgrees, EntryMutexesAgree, EntryCounts;
  }

  lemma StartCountsNobody(s: State, id: Id, i: Id)
    ensures CountedOn(Apply(s, Start(id)), i) == CountedOn(s, i)
  {
  }

  lemma StartKeepsMutexes(s: State, id: Id)
    requires TableMutexAgrees(s) && EntryMutexesAgree(s)
    ensures TableMutexAgrees(Apply(s, Start(id))) && EntryMutexesAgree(Apply(s, Start(id)))
  {
  }

  /** The invariant holds after every run of every set of goroutines. */
  lemma {:induction false} RunKeepsInv(s: State, run: seq<Label>)
    requires Inv(s)
    ensures Inv(Exec(s, run))
    decreases run
  {
    if run == [] {
    } else {
      ApplyKeepsInv(s, run[0]);
      RunKeepsInv(Apply(s, run[0]), run[1..]);
    }
  }

  // ---- safety ---------------------------------------------------------------------

  /** In every interleaving at most one goroutine is inside fn for an id. */
  lemma MutualExclusion(run: seq<Label>, t: Tid, u: Tid)
    requires var s := Exec(INIT, run);
             t < |s.calls| && u < |s.calls| && s.calls[t].id == s.calls[u].id &&
             s.calls[t].pc.Running? && s.calls[u].pc.Running?
    ensures t == u
  {
    RunKeepsInv(INIT, run);
  }

  /** Waiters and runners hold the entry that the table currently maps their id to. */
  lemma WaitersHoldCurrentEntry(run: seq<Label>, t: Tid)
    requires var s := Exec(INIT, run);
             t < |s.calls| && (s.calls[t].pc.Queued? || s.calls[t].pc.Running?)
    ensures var s := Exec(INIT, run);
            s.calls[t].id in s.table.entries && s.table.entries[s.calls[t].id] == s.calls[t].pc.h
  {
    RunKeepsInv(INIT, run);
  }

  /** An entry exists exactly while somebody is between admission and release, and counts them. */
  lemma EntryExactlyWhileCounted(run: seq<Label>, id: Id)
    ensures var s := Exec(INIT, run);
            && (id in s.table.entries <==> CountedOn(s, id) != {})
            && (id in s.table.entries ==> RefsOf(s.table, s.table.entries[id]) == |CountedOn(s, id)|)
  {
    RunKeepsInv(INIT, run);
    var s := Exec(INIT, run);
    if CountedOn(s, id) != {} {
      var t :| t in CountedOn(s, id);
      assert s.calls[t].id in s.table.entries;
    }
  }

  /** The subtle window, exactly: whoever still owns an entry of an id while another goroutine is
      inside fn for it has dropped its reference already, and the entry is not the other's. */
  lemma OverlapOnlyDetached(run: seq<Label>, t: Tid, u: Tid)
    requires var s := Exec(INIT, run);
             t < |s.calls| && u < |s.calls| && t != u && s.calls[t].id == s.calls[u].id &&
             OwnsEntry(s.calls[t].pc) && s.calls[u].pc.Running?
    ensures var s := Exec(INIT, run);
            (s.calls[t].pc.Released? || s.calls[t].pc.Detached?) && s.calls[t].pc.h != s.calls[u].pc.h
  {
    RunKeepsInv(INIT, run);
  }

  /** Go(t) repeated: the labels that carry goroutine t through n steps. */
  function Goes(t: Tid, n: nat): seq<Label> {
    seq(n, i => Go(t))
  }

  /**
   The subtle window: a goroutine that finished fn can still own its locked, detached
   entry while another goroutine is already inside fn for the same id under a new one.
   */
  lemma DetachedEntryCanOverlap(id: Id)
    ensures Exec(INIT, [Start(id), Start(id)] + Goes(0, 8) + Goes(1, 4)) ==
            State(Table(map[id := 1], map[0 := 0, 1 := 1], 2), None, map[0 := 0, 1 := 1],
                  [Call(id, Detached(0)), Call(id, Running(1))])
  {
    var run := [Start(id), Start(id)] + Goes(0, 8) + Goes(1, 4);
    var c := Call(id, Called);
    var s2 := State(Table(map[], map[], 0), None, map[], [c, c]);
    var s1 := Apply(INIT, Start(id));
    assert run[0] == Start(id) && run[1..][0] == Start(id);
    assert Apply(s1, Start(id)) == s2;
    assert Exec(INIT, run) == Exec(s1, run[1..]) == Exec(s2, run[1..][1..]);
    assert run[1..][1..] == Goes(0, 8) + Goes(1, 4);
    var s3 := State(Table(map[], map[0 := 0], 1), None, map[0 := 0], [Call(id, Detached(0)), c]);
    FirstLeavesDetached(s2, id, s3);
    ExecMany(s2, 0, 8, Goes(1, 4));
    SecondEnters(s3, id);
    assert Goes(1, 4) + [] == Goes(1, 4);
    ExecMany(s3, 1, 4, []);
  }

  lemma FirstLeavesDetached(s: State, id: Id, s': State)
    requires s == State(Table(map[], map[], 0), None, map[], [Call(id, Called), Call(id, Called)])
    requires s' == State(Table(map[], map[0 := 0], 1), None, map[0 := 0], [Call(id, Detached(0)), Call(id, Called)])
    ensures Many(s, 0, 8) == s'
  {
    var c := Call(id, Called);
    var tab := Table(map[id := 0], map[0 := 1], 1);
    var a := State(tab, Some(0), map[], [Call(id, Admitted(0)), c]);
    assert Apply(Apply(s, Go(0)), Go(0)) == a;
    var b := State(tab, None, map[0 := 0], [Call(id, Running(0)), c]);
    assert Apply(Apply(a, Go(0)), Go(0)) == b;
    var d := State(tab, Some(0), map[0 := 0], [Call(id, Releasing(0)), c]);
    assert Apply(Apply(b, Go(0)), Go(0)) == d;
    assert Drop(tab, id, 0) == s'.table;
    assert Apply(Apply(d, Go(0)), Go(0)) == s';
    assert Many(s, 0, 8) == Many(a, 0, 6) == Many(b, 0, 4) == Many(d, 0, 2) == Many(s', 0, 0);
  }

  lemma SecondEnters(s: State, id: Id)
    requires s == State(Table(map[], map[0 := 0], 1), None, map[0 := 0], [Call(id, Detached(0)), Call(id, Called)])
    ensures Many(s, 1, 4) == State(Table(map[id := 1], map[0 := 0, 1 := 1], 2), None, map[0 := 0, 1 := 1],
                                   [Call(id, Detached(0)), Call(id, Running(1))])
  {
  }

  function Many(s: State, t: Tid, n: nat): State
    decreases n
  {
    if n == 0 then s else Many(Apply(s, Go(t)), t, n - 1)
  }

  lemma {:induction false} ExecMany(s: State, t: Tid, n: nat, rest: seq<Label>)
    ensures Exec(s, Goes(t, n) + rest) == Exec(Many(s, t, n), rest)
    decreases n
  {
    var run := Goes(t, n) + rest;
    if n == 0 {
      assert run == rest;
    } else {
      assert run[1..] == Goes(t, n - 1) + rest;
      ExecMany(Apply(s, Go(t)), t, n - 1, rest);
    }
  }

  // ---- progress -------------------------------------------------------------------

  predicate AllDone(s: State) {
    forall t :: 0 <= t < |s.calls| ==> s.calls[t].pc.Done?
  }

  /** While a call is unfinished some goroutine can step: the two mutex levels never deadlock. */
  lemma SomebodyCanStep(s: State)
    requires Inv(s) && !AllDone(s)
    ensures exists t :: Enabled(s, t)
  {
    if s.mu.Some? {
      assert Enabled(s, s.mu.value);
    } else {
      var t :| 0 <= t < |s.calls| && !s.calls[t].pc.Done?;
      if !Enabled(s, t) {
        assert Enabled(s, s.held[s.calls[t].pc.h]);
      }
    }
  }

  /** When every call is over, nothing is left in the table and no mutex is locked. */
  lemma QuiescentIsEmpty(s: State)
    requires Inv(s) && AllDone(s)
    ensures s.table.entries == map[] && s.held == map[] && s.mu.None?
  {
  }

  function Remaining(pc: Pc): nat {
    match pc
    case Called => 9
    case Admitting => 8
    case Admitted(_) => 7
    case Queued(_) => 6
    case Running(_) => 5
    case Returned(_) => 4
    case Releasing(_) => 3
    case Released(_) => 2
    case Detached(_) => 1
    case Done => 0
  }

  function Work(calls: seq<Call>): nat {
    if calls == [] then 0 else Remaining(calls[0].pc) + Work(calls[1..])
  }

  lemma {:induction false} WorkUpdate(calls: seq<Call>, t: nat, c: Call)
    requires t < |calls|
    ensures Work(calls[t := c]) == Work(calls) - Remaining(calls[t].pc) + Remaining(c.pc)
  {
    if t == 0 {
      assert calls[0 := c][1..] == calls[1..];
    } else {
      assert calls[t := c][1..] == calls[1..][t - 1 := c];
      WorkUpdate(calls[1..], t - 1, c);
    }
  }

  lemma StepWorks(s: State, t: Tid)
    requires Enabled(s, t)
    ensures Work(Step(s, t).calls) + 1 == Work(s.calls)
  {
    var s' := Step(s, t);
    WorkUpdate(s.calls, t, s'.calls[t]);
    assert s'.calls == s.calls[t := s'.calls[t]];
  }

  /** A schedule names goroutines in the order they step; each must be able to. */
  predicate Schedulable(s: State, sched: seq<Tid>)
    decreases sched
  {
    sched == [] || (Enabled(s, sched[0]) && Schedulable(Step(s, sched[0]), sched[1..]))
  }

  function After(s: State, sched: seq<Tid>): State
    requires Schedulable(s, sched)
    decreases sched
  {
    if sched == [] then s else After(Step(s, sched[0]), sched[1..])
  }

  /**
   Without new calls every schedule stops within a fixed number of steps, and one that
   cannot be extended has finished every call and emptied the table. So the lock neither
   deadlocks nor livelocks, whatever the scheduler does.
   */
  lemma {:induction false} EveryScheduleDrains(s: State, sched: seq<Tid>)
    requires Inv(s) && Schedulable(s, sched)
    ensures |sched| + Work(After(s, sched).calls) == Work(s.calls)
    ensures (forall t :: !Enabled(After(s, sched), t)) ==>
              AllDone(After(s, sched)) && After(s, sched).table.entries == map[] && After(s, sched).held == map[]
    decreases sched
  {
    if sched == [] {
      if !AllDone(s) {
        SomebodyCanStep(s);
      } else {
        QuiescentIsEmpty(s);
      }
    } else {
      var t := sched[0];
      StepKeepsInv(s, t);
      StepWorks(s, t);
      EveryScheduleDrains(Step(s, t), sched[1..]);
    }
  }

  /** Re-entering for an id already locked by the same goroutine could never proceed:
      a queued call whose entry is owned by a running call stays blocked while that call runs. */
  lemma {:induction false} BlockedWhileRunning(s: State, run: seq<Label>, t: Tid, u: Tid)
    requires Inv(s) && t < |s.calls| && u < |s.calls|
    requires s.calls[t].pc.Running? && s.calls[u].pc == Queued(s.calls[t].pc.h)
    requires Go(t) !in run
    ensures var s' := Exec(s, run);
            |s.calls| <= |s'.calls| && s'.calls[t] == s.calls[t] && s'.calls[u] == s.calls[u]
    decreases run
  {
    if run == [] {
    } else {
      ApplyKeepsInv(s, run[0]);
      OthersLeaveBlocked(s, run[0], t, u);
      BlockedWhileRunning(Apply(s, run[0]), run[1..], t, u);
    }
  }

  lemma OthersLeaveBlocked(s: State, l: Label, t: Tid, u: Tid)
    requires EntryMutexesAgree(s) && t < |s.calls| && u < |s.calls|
    requires s.calls[t].pc.Running? && s.calls[u].pc == Queued(s.calls[t].pc.h)
    requires l != Go(t)
    ensures var s' := Apply(s, l);
            |s.calls| <= |s'.calls| && s'.calls[t] == s.calls[t] && s'.calls[u] == s.calls[u]
  {
  }

  // ---- the mutable table -------------------------------------------------------------

  /** The lock table as the manager keeps it; each method is one critical section under `mu`. */
  class LifecycleLocks {
    var entries: map<Id, Handle>
    var refs: map<Handle, nat>
    var next: Handle

    constructor ()
      ensures View() == INIT.table && Valid()
    {
      entries, refs, next := map[], map[], 0;
    }

    ghost function View(): Table
      reads this
    {
      Table(entries, refs, next)
    }

    /** Listed entries are counted, and no two ids share one. */
    ghost predicate Valid()
      reads this
    {
      (forall i | i in entries :: entries[i] in refs && refs[entries[i]] > 0 && entries[i] < next) && Injective(entries)
    }

    /** Look the entry up, create it when missing, and take a reference. */
    method Acquire(id: Id) returns (h: Handle)
      requires forall i | i in entries :: entries[i] in refs
      modifies this
      ensures View() == Admit(old(View()), id).0 && h == Admit(old(View()), id).1
      ensures id in entries && entries[id] == h && h in refs && refs[h] > 0
      ensures old(Valid()) ==> Valid()
    {
      if id in entries {
        h := entries[id];
      } else {
        h := next;
        next := next + 1;
        entries := entries[id := h];
        refs := refs[h := 0];
      }
      refs := refs[h := refs[h] + 1];
    }

    /** Give the reference back and forget the entry with its last reference. */
    method Release(id: Id, h: Handle)
      requires h in refs && refs[h] > 0
      modifies this
      ensures View() == Drop(old(View()), id, h)
      ensures old(Valid()) && id in old(entries) && old(entries)[id] == h ==>
                Valid() && (id in entries <==> refs[h] > 0)
    {
      refs := refs[h := refs[h] - 1];
      if refs[h] == 0 {
        entries := entries - {id};
      }
    }
  }
}
