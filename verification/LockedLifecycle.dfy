/**
 The lifecycle protocol under the real lock. Goroutines call operations, take every step of
 withTaskLock, and work on the stores only while they are inside fn. The protocol of module
 Lifecycle admits a call to a task only when no other call is working on it; here that is not
 assumed but a consequence of the lock, so its theorems hold of this system.
 */
module LockedLifecycle {
  import opened Common
  import K = KeyedLock
  import L = Lifecycle
  import P = IpPool
  import T = LifecycleTheorems

  /** The lock, the operation each goroutine has called, and the stores with the calls at work.
      Goroutine t works as call 2t; creates, which take no lock, have odd numbers. */
  datatype System = System(lock: K.State, ops: seq<L.Op>, world: L.World)

  datatype Move =
    | Request(id: string, op: L.Op)    // a goroutine calls an operation
    | LockStep(t: nat)                 // it takes its next step in withTaskLock
    | Work(l: L.Label)                 // a step on the stores, or of the outside world
    | Crash

  function Init(usable: seq<string>): System {
    System(K.INIT, [], L.Init(usable))
  }

  /** A label that is work: not an admission, which the lock decides, nor a crash. */
  predicate IsWork(l: L.Label) {
    match l
    case BeginCreate(t, _, _) => t % 2 == 1
    case Begin(_, _, _) => false
    case Crash => false
    case _ => true
  }

  /** Inside fn a goroutine leaves only when its work is over. */
  predicate Enabled(s: System, m: Move) {
    match m
    case Request(_, _) => s.world.serving
    case LockStep(t) => K.Enabled(s.lock, t) && t < |s.ops| && (s.lock.calls[t].pc.Running? ==> 2 * t !in s.world.calls)
    case Work(l) => IsWork(l)
    case Crash => true
  }

  /** The protocol's label for a move, if it is one: entering fn is the admission. */
  function LabelOf(s: System, m: Move): Option<L.Label>
    requires Enabled(s, m)
  {
    match m
    case Request(_, _) => None
    case LockStep(t) => if s.lock.calls[t].pc.Queued? then Some(L.Begin(2 * t, s.lock.calls[t].id, s.ops[t])) else None
    case Work(l) => Some(l)
    case Crash => Some(L.Crash)
  }

  function Apply(s: System, usable: seq<string>, m: Move): System {
    if !Enabled(s, m) then s
    else
      var world := match LabelOf(s, m) case Some(l) => L.Apply(s.world, usable, l) case None => s.world;
      match m
      case Request(id, op) => System(K.Apply(s.lock, K.Start(id)), s.ops + [op], world)
      case LockStep(t) => System(K.Step(s.lock, t), s.ops, world)
      case Work(_) => System(s.lock, s.ops, world)
      case Crash => System(K.INIT, [], world)
  }

  function Exec(s: System, usable: seq<string>, run: seq<Move>): System
    decreases |run|
  {
    if run == [] then s else Exec(Apply(s, usable, run[0]), usable, run[1..])
  }

  /** Calls at work under the lock are goroutines inside fn, on the id they hold the lock of. */
  ghost predicate InsideFn(s: System) {
    forall u :: u in s.world.calls ==> AtWork(s.lock, u, s.world.calls[u])
  }

  predicate AtWork(k: K.State, u: nat, c: L.Call) {
    if L.Creating(c.pc) then u % 2 == 1
    else u % 2 == 0 && u / 2 < |k.calls| && k.calls[u / 2].pc.Running? && k.calls[u / 2].id == c.id
  }

  ghost predicate Inv(s: System, usable: seq<string>) {
    && K.Inv(s.lock) && |s.ops| == |s.lock.calls|
    && T.Reachable(s.world, usable)
    && InsideFn(s)
    && (!s.world.serving ==> s.lock.calls == [])
  }

  /** The lock admits a call only when the protocol would: whenever a goroutine can take the
      entry mutex, no other call is at work on its task. */
  lemma LockAdmits(s: System, usable: seq<string>, t: nat)
    requires Inv(s, usable) && Enabled(s, LockStep(t)) && s.lock.calls[t].pc.Queued?
    ensures L.Enabled(s.world, L.Begin(2 * t, s.lock.calls[t].id, s.ops[t]))
  {
    hide K.Inv, K.Enabled, T.Reachable, L.Creating;
    var id := s.lock.calls[t].id;
    forall u | u in s.world.calls && s.world.calls[u].id == id ensures L.Creating(s.world.calls[u].pc) {
      assert AtWork(s.lock, u, s.world.calls[u]);
      if !L.Creating(s.world.calls[u].pc) {
        SameEntry(s.lock, t, u / 2);
      }
    }
  }

  /** Nobody is inside fn for the id of a goroutine that can enter. */
  lemma SameEntry(k: K.State, t: nat, u: nat)
    requires K.Inv(k) && K.Enabled(k, t) && k.calls[t].pc.Queued?
    requires u < |k.calls| && k.calls[u].id == k.calls[t].id
    ensures !k.calls[u].pc.Running?
  {
  }

  lemma WorkKeepsInside(s: System, usable: seq<string>, l: L.Label)
    requires Inv(s, usable) && IsWork(l)
    ensures InsideFn(s.(world := L.Apply(s.world, usable, l)))
    ensures s.world.serving ==> L.Apply(s.world, usable, l).serving
  {
    if l.Step? && L.Enabled(s.world, l) {
      L.StepOnCalls(s.world, l.t, l.out);
      hide L.DoStep;
    }
  }

  lemma LockStepKeepsInside(s: System, usable: seq<string>, t: nat)
    requires Inv(s, usable) && Enabled(s, LockStep(t))
    ensures InsideFn(Apply(s, usable, LockStep(t)))
  {
    hide L.Apply, L.Enabled, L.Creating, L.Entry, K.Step, K.Enabled, K.Inv, T.Reachable;
    var s' := Apply(s, usable, LockStep(t));
    LockMoves(s.lock, t);
    if s.lock.calls[t].pc.Queued? {
      LockAdmits(s, usable, t);
      Admitted(s.world, usable, 2 * t, s.lock.calls[t].id, s.ops[t]);
    }
    forall u | u in s'.world.calls ensures AtWork(s'.lock, u, s'.world.calls[u]) {
      if u != 2 * t {
        assert u in s.world.calls && s'.world.calls[u] == s.world.calls[u];
        Halves(u, t);
      }
    }
  }

  lemma Halves(u: nat, t: nat)
    requires u != 2 * t
    ensures u % 2 == 0 ==> u / 2 != t
  {
  }

  /** A step of the lock moves one goroutine, and into fn only from the queue. */
  lemma LockMoves(k: K.State, t: nat)
    requires K.Enabled(k, t)
    ensures var k' := K.Step(k, t);
            && |k'.calls| == |k.calls| && k'.calls[t].id == k.calls[t].id
            && (k.calls[t].pc.Queued? <==> k'.calls[t].pc.Running?)
            && forall u :: 0 <= u < |k.calls| && u != t ==> k'.calls[u] == k.calls[u]
  {
  }

  lemma Admitted(w: L.World, usable: seq<string>, u: nat, id: string, op: L.Op)
    requires L.Enabled(w, L.Begin(u, id, op))
    ensures var w' := L.Apply(w, usable, L.Begin(u, id, op));
            && w'.calls == w.calls[u := L.Call(id, L.Entry(op))] && !L.Creating(L.Entry(op)) && w'.serving == w.serving
  {
  }

  lemma MoveKeepsInv(s: System, usable: seq<string>, m: Move)
    requires Inv(s, usable)
    ensures Inv(Apply(s, usable, m), usable)
  {
    hide T.Reachable, K.Inv, K.Enabled, K.Step, L.Apply;
    if Enabled(s, m) {
      if LabelOf(s, m).Some? { T.ReachableNext(s.world, usable, LabelOf(s, m).value); }
      match m {
        case Request(id, op) => K.ApplyKeepsInv(s.lock, K.Start(id));
        case LockStep(t) =>
          K.StepKeepsInv(s.lock, t);
          LockMoves(s.lock, t);
          LockStepKeepsInside(s, usable, t);
          if s.lock.calls[t].pc.Queued? {
            LockAdmits(s, usable, t);
            Admitted(s.world, usable, 2 * t, s.lock.calls[t].id, s.ops[t]);
          }
        case Work(l) => WorkKeepsInside(s, usable, l);
        case Crash => CrashStops(s.world, usable);
      }
    }
  }

  /** After a crash nobody works, and the table of locks is new. */
  lemma CrashStops(w: L.World, usable: seq<string>)
    ensures L.Apply(w, usable, L.Crash).calls == map[] && K.Inv(K.INIT)
  {
  }

  /** Every run of goroutines using the lock is, on the stores, a run of the protocol, and in
      each of its states the work under the lock is done by goroutines inside fn. */
  lemma {:induction false} RunRefines(s: System, usable: seq<string>, run: seq<Move>)
    requires Inv(s, usable)
    ensures Inv(Exec(s, usable, run), usable)
    decreases |run|
  {
    hide Inv, Apply;
    if run == [] {
    } else {
      MoveKeepsInv(s, usable, run[0]);
      RunRefines(Apply(s, usable, run[0]), usable, run[1..]);
    }
  }

  lemma InitOk(usable: seq<string>)
    requires NoDup(usable)
    ensures Inv(Init(usable), usable)
  {
    assert L.Exec(L.Init(usable), usable, []) == L.Init(usable);
  }

  /** So, for example, cleanup_pending means absence and present VMs have distinct addresses
      under the real lock, in every interleaving. */
  lemma GuaranteesUnderTheLock(usable: seq<string>, run: seq<Move>, id: string, other: string)
    requires NoDup(usable)
    ensures var w := Exec(Init(usable), usable, run).world;
            && (id in w.rows && w.rows[id] == L.CleanupPending ==> L.PartsOf(w, id) == {} && id !in w.work)
            && (L.PartsOf(w, id) != {} && L.PartsOf(w, other) != {} && id != other ==>
                  id in w.pool.leased && other in w.pool.leased && w.pool.leased[id] != w.pool.leased[other])
  {
    InitOk(usable);
    RunRefines(Init(usable), usable, run);
    var w := Exec(Init(usable), usable, run).world;
    hide Exec, T.Reachable, L.PartsOf;
    if id in w.rows && w.rows[id] == L.CleanupPending {
      T.PendingMeansAbsent(w, usable, id);
    }
    if L.PartsOf(w, id) != {} && L.PartsOf(w, other) != {} && id != other {
      T.PresentVmsOwnDistinctAddresses(w, usable, id, other);
      T.PresentVmsOwnDistinctAddresses(w, usable, other, id);
    }
  }

  // ---- progress -------------------------------------------------------------------------------

  /** No new work comes in, and the daemon does not crash. */
  predicate Quiet(m: Move) {
    match m
    case Request(_, _) => false
    case LockStep(_) => true
    case Work(l) => !l.BeginCreate?
    case Crash => false
  }

  /** A move by which a call gets on: in withTaskLock, or with its work inside fn. */
  predicate Advances(s: System, m: Move) {
    Enabled(s, m) &&
    match m
    case LockStep(_) => true
    case Work(l) => (l.Step? || l.Cancel?) && L.Enabled(s.world, l)
    case _ => false
  }

  /** How many moves of a run are such. */
  function Advanced(s: System, usable: seq<string>, run: seq<Move>): nat
    decreases |run|
  {
    if run == [] then 0
    else (if Advances(s, run[0]) then 1 else 0) + Advanced(Apply(s, usable, run[0]), usable, run[1..])
  }

  function Owed(calls: map<nat, L.Call>, u: nat): nat {
    if u in calls then T.Rank(calls[u].pc) else 0
  }

  /** The steps of work the calls below n can still take. */
  function WorkLeft(calls: map<nat, L.Call>, n: nat): nat {
    if n == 0 then 0 else WorkLeft(calls, n - 1) + Owed(calls, n - 1)
  }

  lemma {:induction false} WorkLeftAt(calls: map<nat, L.Call>, calls': map<nat, L.Call>, u: nat, n: nat)
    requires forall v | v != u :: (v in calls <==> v in calls') && (v in calls ==> calls'[v] == calls[v])
    ensures WorkLeft(calls', n) + (if u < n then Owed(calls, u) else 0) ==
            WorkLeft(calls, n) + if u < n then Owed(calls', u) else 0
  {
    hide T.Rank;
    if n == 0 {
    } else {
      WorkLeftAt(calls, calls', u, n - 1);
    }
  }

  /** What all calls together can still do: entering fn costs a step in the lock and brings at
      most seven of work. `n` bounds the numbers of the calls. */
  function Budget(s: System, n: nat): nat {
    8 * K.Work(s.lock.calls) + WorkLeft(s.world.calls, n)
  }

  ghost predicate Within(s: System, n: nat) {
    2 * |s.ops| <= n && forall u :: u in s.world.calls ==> u < n
  }

  lemma LockStepCosts(s: System, usable: seq<string>, t: nat, n: nat)
    requires Inv(s, usable) && Within(s, n) && Enabled(s, LockStep(t))
    ensures var s' := Apply(s, usable, LockStep(t)); Within(s', n) && Budget(s', n) < Budget(s, n)
  {
    hide K.Inv, K.Enabled, K.Step, K.Work, T.Reachable, T.Rank, L.Apply, L.Enabled, L.Entry;
    K.StepWorks(s.lock, t);
    if s.lock.calls[t].pc.Queued? {
      var id, op := s.lock.calls[t].id, s.ops[t];
      LockAdmits(s, usable, t);
      Admitted(s.world, usable, 2 * t, id, op);
      EntryRank(op);
      var calls' := s.world.calls[2 * t := L.Call(id, L.Entry(op))];
      WorkLeftAt(s.world.calls, calls', 2 * t, n);
    }
  }

  lemma EntryRank(op: L.Op)
    ensures T.Rank(L.Entry(op)) <= 7
  {
  }

  lemma WorkCosts(s: System, usable: seq<string>, l: L.Label, n: nat)
    requires Within(s, n) && IsWork(l) && !l.BeginCreate?
    ensures var w' := L.Apply(s.world, usable, l);
            && (forall u :: u in w'.calls ==> u < n)
            && WorkLeft(w'.calls, n) + (if Advances(s, Work(l)) then 1 else 0) <= WorkLeft(s.world.calls, n)
  {
    hide T.Rank, L.DoStep, WorkLeft;
    var w, w' := s.world, L.Apply(s.world, usable, l);
    if L.Enabled(w, l) && (l.Step? || l.Cancel?) {
      if l.Step? {
        StepCosts(w, l.t, l.out);
      } else {
        T.RankDrops(L.TaskOf(w, w.calls[l.t].id), w.calls[l.t].pc, L.FINE, true);
      }
      WorkLeftAt(w.calls, w'.calls, l.t, n);
    }
  }

  /** A step of work brings its call nearer to its end and leaves the others where they are. */
  lemma StepCosts(w: L.World, u: nat, out: L.Outcome)
    requires u in w.calls
    ensures var w' := L.DoStep(w, u, out);
            && (forall v | v != u :: (v in w.calls <==> v in w'.calls) && (v in w.calls ==> w'.calls[v] == w.calls[v]))
            && Owed(w'.calls, u) < Owed(w.calls, u)
  {
    hide L.DoStep, L.Local, P.Release, T.Rank;
    var c := w.calls[u];
    var r := if L.Releases(c.pc) then P.Release(w.pool, c.id, out.save).1 else Ok(());
    L.StepIsLocal(w, u, out);
    T.RankDrops(L.TaskOf(w, c.id), c.pc, out, r.Ok?);
  }

  lemma MoveCosts(s: System, usable: seq<string>, m: Move, n: nat)
    requires Inv(s, usable) && Within(s, n) && Quiet(m)
    ensures var s' := Apply(s, usable, m);
            Within(s', n) && Budget(s', n) + (if Advances(s, m) then 1 else 0) <= Budget(s, n)
  {
    hide Inv, L.Apply, K.Step, K.Enabled, K.Work, WorkLeft;
    if Enabled(s, m) {
      match m {
        case LockStep(t) => LockStepCosts(s, usable, t, n);
        case Work(l) => WorkCosts(s, usable, l, n);
      }
    }
  }

  /** While a call is unfinished, or work is left, somebody can get on: the locks, the protocol's
      admission and the work inside fn never wait for each other in a circle. */
  lemma SomebodyCanMove(s: System, usable: seq<string>) returns (m: Move)
    requires Inv(s, usable) && !(K.AllDone(s.lock) && s.world.calls == map[])
    ensures Advances(s, m) && Fine(m)
  {
    hide K.Inv, K.Enabled, T.Reachable;
    if s.world.calls != map[] {
      var u :| u in s.world.calls;
      m := Work(L.Step(u, L.FINE));
    } else {
      K.SomebodyCanStep(s.lock);
      var t :| K.Enabled(s.lock, t);
      EnabledIsThere(s.lock, t);
      m := LockStep(t);
    }
  }

  /** A step of the lock, or one of work that ends well. */
  predicate Fine(m: Move) {
    m.LockStep? || (m.Work? && m.l.Step? && m.l.out == L.FINE)
  }

  lemma EnabledIsThere(k: K.State, t: nat)
    requires K.Enabled(k, t)
    ensures t < |k.calls|
  {
  }

  /** Nobody can get on any more, and then every call is over and no lock is left. */
  ghost predicate Drained(s: System) {
    K.AllDone(s.lock) && s.lock.table.entries == map[] && s.lock.held == map[] && s.world.calls == map[]
  }

  /** Under the real lock, without new work, calls can get on only a fixed number of times in any
      run, whatever fails, is cancelled or dies meanwhile; and a run after which nobody can get on
      has finished every call and emptied the table of locks. */
  lemma {:induction false} EveryRunFinishes(s: System, usable: seq<string>, run: seq<Move>, n: nat)
    requires Inv(s, usable) && Within(s, n)
    requires forall i :: 0 <= i < |run| ==> Quiet(run[i])
    ensures var s' := Exec(s, usable, run);
            && Advanced(s, usable, run) + Budget(s', n) <= Budget(s, n)
            && ((forall m :: !Advances(s', m)) ==> Drained(s'))
    decreases |run|
  {
    hide Apply, Advances, Budget, Within;
    if run == [] {
      if !(K.AllDone(s.lock) && s.world.calls == map[]) {
        var m := SomebodyCanMove(s, usable);
      } else {
        K.QuiescentIsEmpty(s.lock);
      }
    } else {
      assert Quiet(run[0]);
      MoveCosts(s, usable, run[0], n);
      MoveKeepsInv(s, usable, run[0]);
      EveryRunFinishes(Apply(s, usable, run[0]), usable, run[1..], n);
    }
  }

  /** And from every state there is such a run in which no work fails. */
  lemma CanFinish(s: System, usable: seq<string>, n: nat) returns (run: seq<Move>)
    requires Inv(s, usable) && Within(s, n)
    ensures forall i :: 0 <= i < |run| ==> Quiet(run[i]) && Fine(run[i])
    ensures Drained(Exec(s, usable, run))
    decreases Budget(s, n)
  {
    hide Inv, Apply, Advances, Budget, Within;
    if K.AllDone(s.lock) && s.world.calls == map[] {
      DoneIsDrained(s, usable);
      run := [];
    } else {
      var m := SomebodyCanMove(s, usable);
      MoveCosts(s, usable, m, n);
      MoveKeepsInv(s, usable, m);
      var rest := CanFinish(Apply(s, usable, m), usable, n);
      run := [m] + rest;
      assert run[1..] == rest;
    }
  }

  lemma DoneIsDrained(s: System, usable: seq<string>)
    requires Inv(s, usable) && K.AllDone(s.lock) && s.world.calls == map[]
    ensures Drained(s)
  {
    K.QuiescentIsEmpty(s.lock);
  }

  // ---- a requested destroy ----------------------------------------------------------------------

  predicate Waiting(pc: K.Pc) {
    pc.Called? || pc.Admitting? || pc.Admitted? || pc.Queued?
  }

  /** Goroutine t destroys id: it waits for the lock, is on its way inside fn, or has left fn and
      the row is gone. */
  ghost predicate Destroyer(s: System, t: nat, id: string) {
    && t < |s.ops| && t < |s.lock.calls| && s.ops[t].Destroy? && s.lock.calls[t].id == id && id in s.world.recorded
    && (s.lock.calls[t].pc.Running? ==> T.OnItsWay(s.world, 2 * t, id, 7))
    && (!Waiting(s.lock.calls[t].pc) && !s.lock.calls[t].pc.Running? ==> id !in s.world.rows)
  }

  /** Nothing goes wrong in the work of goroutine t; the others may do and suffer anything. */
  predicate FineFor(t: nat, m: Move) {
    match m
    case Request(_, _) => true
    case LockStep(_) => true
    case Work(l) => T.FaultFreeFor(2 * t, l)
    case Crash => false
  }

  /** What a label leaves of a destroy that call u is on its way with. */
  lemma LabelKeeps(w: L.World, usable: seq<string>, l: L.Label, u: nat, id: string)
    requires T.Reachable(w, usable) && id in w.recorded && T.FaultFreeFor(u, l)
    ensures var w' := L.Apply(w, usable, l);
            && id in w'.recorded
            && (id !in w.rows ==> id !in w'.rows)
            && (T.OnItsWay(w, u, id, 7) ==> T.OnItsWay(w', u, id, 7))
  {
    hide L.Apply, L.Inv, T.Reachable, T.Rank, L.Destroying;
    T.ReachableInv(w, usable);
    T.RecordedStays(w, usable, l);
    if id !in w.rows { T.SealedStays(w, usable, l, id); }
    if T.OnItsWay(w, u, id, 7) {
      if l.Step? && l.t == u {
        T.OwnStepAdvances(w, usable, u, id, 7);
      } else {
        T.OthersSpare(w, usable, l, u, id, 7);
      }
    }
  }

  lemma MoveKeepsDestroyer(s: System, usable: seq<string>, m: Move, t: nat, id: string)
    requires Inv(s, usable) && Destroyer(s, t, id) && FineFor(t, m)
    ensures Destroyer(Apply(s, usable, m), t, id)
  {
    hide K.Inv, K.Enabled, K.Step, T.Reachable, T.OnItsWay, L.Apply, InsideFn;
    if Enabled(s, m) {
      match m {
        case Request(_, _) =>
        case Work(l) => LabelKeeps(s.world, usable, l, 2 * t, id);
        case LockStep(u) =>
          LockMoves(s.lock, u);
          if u == t {
            DestroyerSteps(s, usable, t, id);
          } else if s.lock.calls[u].pc.Queued? {
            LabelKeeps(s.world, usable, L.Begin(2 * u, s.lock.calls[u].id, s.ops[u]), 2 * t, id);
          }
      }
    }
  }

  lemma DestroyerSteps(s: System, usable: seq<string>, t: nat, id: string)
    requires Inv(s, usable) && Destroyer(s, t, id) && Enabled(s, LockStep(t))
    ensures Destroyer(Apply(s, usable, LockStep(t)), t, id)
  {
    hide K.Inv, L.Apply, L.Enabled, T.Reachable;
    LockGoesOn(s.lock, t);
    hide K.Enabled, K.Step;
    if s.lock.calls[t].pc.Queued? {
      LockAdmits(s, usable, t);
      Admitted(s.world, usable, 2 * t, id, L.Destroy);
      T.RecordedStays(s.world, usable, L.Begin(2 * t, id, L.Destroy));
    }
  }

  /** In the lock a goroutine goes from waiting to running to the rest, and never back. */
  lemma LockGoesOn(k: K.State, t: nat)
    requires K.Enabled(k, t)
    ensures var pc, c := k.calls[t].pc, K.Step(k, t).calls;
            && |c| == |k.calls| && c[t].id == k.calls[t].id
            && (Waiting(c[t].pc) <==> Waiting(pc) && !pc.Queued?) && (c[t].pc.Running? <==> pc.Queued?)
  {
  }

  /** A requested destroy of a task that ever had a row, whose own work meets no fault, has left
      nothing once it is out of fn, in every interleaving under the real lock. */
  lemma {:induction false} DestroyUnderTheLock(s: System, usable: seq<string>, run: seq<Move>, t: nat, id: string)
    requires Inv(s, usable) && Destroyer(s, t, id)
    requires forall i :: 0 <= i < |run| ==> FineFor(t, run[i])
    ensures var s' := Exec(s, usable, run);
            && Destroyer(s', t, id)
            && (!Waiting(s'.lock.calls[t].pc) && !s'.lock.calls[t].pc.Running? ==> T.Gone(s'.world, id))
    decreases |run|
  {
    if run == [] {
      hide T.Reachable, L.Inv, T.Gone, K.Inv;
      T.ReachableInv(s.world, usable);
      if id !in s.world.rows { T.RecordedAndRowless(s.world, usable, id); }
    } else {
      assert FineFor(t, run[0]);
      hide Inv, Apply, Destroyer, T.Gone;
      MoveKeepsDestroyer(s, usable, run[0], t, id);
      MoveKeepsInv(s, usable, run[0]);
      DestroyUnderTheLock(Apply(s, usable, run[0]), usable, run[1..], t, id);
    }
  }

  /** So a destroy that waits for the lock completes: without new work, every run in which its own
      work meets no fault, taken as far as anybody can get on, ends with nothing of its task left,
      whatever the other calls do and suffer. */
  lemma RequestedDestroyCompletes(s: System, usable: seq<string>, run: seq<Move>, t: nat, n: nat)
    requires Inv(s, usable) && Within(s, n)
    requires t < |s.ops| && s.ops[t].Destroy? && Waiting(s.lock.calls[t].pc)
    requires s.lock.calls[t].id in s.world.recorded
    requires forall i :: 0 <= i < |run| ==> Quiet(run[i]) && FineFor(t, run[i])
    requires forall m :: !Advances(Exec(s, usable, run), m)
    ensures var s' := Exec(s, usable, run); Drained(s') && T.Gone(s'.world, s.lock.calls[t].id)
  {
    hide Exec, K.Inv, T.Reachable, T.Gone, Advances, Quiet, Budget, Within;
    EveryRunFinishes(s, usable, run, n);
    DestroyUnderTheLock(s, usable, run, t, s.lock.calls[t].id);
  }
}
