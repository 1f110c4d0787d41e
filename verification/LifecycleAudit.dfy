/**
 The orphan audit on the worlds the lifecycle protocol can reach: what it says about a
 cleanup-pending task, about addresses, and what its verdict means for the host.
 */
module LifecycleAudit {
  import opened Common
  import IPv4
  import L = Lifecycle
  import T = LifecycleTheorems
  import A = OrphanAudit

  function StatusName(s: L.Status): string {
    match s
    case Starting => "starting"
    case Running => "running"
    case Stopped => "stopped"
    case Failed => "failed"
    case CleanupPending => "cleanup_pending"
  }

  /** The listing names each id that has this part, once, in some order. */
  ghost predicate Lists(owners: seq<string>, s: L.World, part: L.Part) {
    NoDup(owners) && forall id :: id in owners <==> part in L.PartsOf(s, id)
  }

  /** What the seven readers see of a world when nothing changes under them. */
  ghost predicate Describes(inv: A.Inventory, s: L.World) {
    && (forall t :: t in inv.tasks ==> t.id in s.rows && t.vmid == t.id && t.status == StatusName(s.rows[t.id]))
    && NoDup(A.Ids(inv.tasks)) && (forall id :: id in s.rows ==> id in A.Ids(inv.tasks))
    && Lists(A.Owners(inv.vmDirectories), s, L.Directory)
    && Lists(A.ProcessOwners(inv.processes), s, L.Process) && (forall p :: p in inv.processes ==> p.pid > 0)
    && Lists(A.Owners(inv.rootfsDatasets), s, L.Rootfs)
    && Lists(A.Owners(inv.taps), s, L.Tap)
    && NoDup(A.Owners(inv.workspaceDatasets)) && (forall id :: id in A.Owners(inv.workspaceDatasets) <==> id in s.work)
    && inv.ipAllocations == s.pool.disk
  }

  /** Ids are generated as eight hexadecimal digits; the pool hands out dotted addresses. */
  ghost predicate WellNamed(s: L.World, usable: seq<string>) {
    (forall id :: id in s.used ==> IsCanonicalId(id)) && forall a :: a in usable ==> A.CanonicalIPv4(a)
  }

  /** The addresses a pool generates from a subnet are of that form. */
  lemma GeneratedAreDotted(net: IPv4.Net, gateway: string)
    requires net.Valid()
    ensures forall a :: a in IPv4.UsableList(net, gateway) ==> A.CanonicalIPv4(a)
  {
    var addrs := IPv4.UsableAddrs(net, gateway);
    forall a | a in IPv4.UsableList(net, gateway) ensures A.CanonicalIPv4(a) {
      var i :| 0 <= i < |IPv4.UsableList(net, gateway)| && IPv4.UsableList(net, gateway)[i] == a;
      IPv4.TextsAt(addrs, i);
      IPv4.ParseAddrExact(a, addrs[i]);
    }
  }

  /** Whatever exists or is allocated belongs to an id that was generated. */
  lemma OnlyUsedIds(s: L.World, usable: seq<string>, id: string)
    requires T.Reachable(s, usable)
    ensures id in s.rows || L.PartsOf(s, id) != {} || id in s.work || id in s.pool.disk ==> id in s.used
  {
    T.ReachableInv(s, usable);
    assert id !in s.used ==> L.GoneTask(L.TaskOf(s, id), L.LeaseOf(s.pool, id));
  }

  lemma CountIsMembership(owners: seq<string>, id: string)
    requires NoDup(owners)
    ensures A.Count(owners, id) == if id in owners then 1 else 0
  {
    A.CountNoDup(owners);
    assert id in owners <==> id in multiset(owners);
    assert A.Count(owners, id) <= 1;
  }

  /** In every reachable world, the audit has nothing to say about a cleanup-pending task: the
      absence it demands is what the protocol guarantees. */
  lemma PendingTasksPass(s: L.World, usable: seq<string>, inv: A.Inventory, t: A.TaskRow, unknown: seq<A.Source>)
    requires T.Reachable(s, usable) && Describes(inv, s)
    requires t in inv.tasks && t.status == "cleanup_pending"
    ensures A.Demands(inv, t, unknown) == []
  {
    assert s.rows[t.id] == L.CleanupPending;
    T.PendingMeansAbsent(s, usable, t.id);
    CountIsMembership(A.Owners(inv.vmDirectories), t.id);
    CountIsMembership(A.ProcessOwners(inv.processes), t.id);
    CountIsMembership(A.Owners(inv.rootfsDatasets), t.id);
    CountIsMembership(A.Owners(inv.workspaceDatasets), t.id);
    CountIsMembership(A.Owners(inv.taps), t.id);
    hide A.Count, T.Reachable, L.PartsOf;
  }

  /** Every other row has its allocation, no address is recorded twice, and every recorded
      allocation is well formed. */
  lemma AllocationsPass(s: L.World, usable: seq<string>, inv: A.Inventory)
    requires T.Reachable(s, usable) && WellNamed(s, usable) && Describes(inv, s)
    ensures forall id :: id in s.rows && s.rows[id] != L.CleanupPending ==> id in inv.ipAllocations
    ensures Injective(inv.ipAllocations)
    ensures forall id :: id in inv.ipAllocations ==> A.GoodLease(inv.ipAllocations, id)
  {
    T.ReachableInv(s, usable);
    forall id | id in s.rows && s.rows[id] != L.CleanupPending ensures id in inv.ipAllocations {
      assert L.TaskOk(L.TaskOf(s, id), L.LeaseOf(s.pool, id));
    }
    forall id | id in inv.ipAllocations ensures A.GoodLease(inv.ipAllocations, id) {
      OnlyUsedIds(s, usable, id);
    }
  }

  /** An id without a row that owns anything never had a row: what the audit reports as an
      orphan is a create that is under way or was cut short, never a destroyed task. */
  lemma OrphansAreUnrecorded(s: L.World, usable: seq<string>, id: string)
    requires T.Reachable(s, usable) && id !in s.rows
    requires L.PartsOf(s, id) != {} || id in s.work || id in s.pool.disk
    ensures id !in s.recorded
  {
    T.ReachableInv(s, usable);
    assert L.TaskOk(L.TaskOf(s, id), L.LeaseOf(s.pool, id));
  }

  /** A world in which every task has what its status says, and nothing else exists. */
  predicate Fits(k: L.Task, lease: Option<string>) {
    match k.row
    case None => k.parts == {} && !k.work && lease.None?
    case Some(CleanupPending) => true
    case Some(Stopped) => k.parts == {L.Directory, L.Rootfs} && k.work
    case Some(Failed) => {L.Directory, L.Rootfs} <= k.parts && k.work
    case Some(_) => k.parts == L.ALL_PARTS && k.work
  }

  ghost predicate Settled(s: L.World) {
    forall id :: Fits(L.TaskOf(s, id), L.LeaseOf(s.pool, id).disk)
  }

  lemma OwnersAre(s: L.World, inv: A.Inventory)
    requires Describes(inv, s) && forall id :: L.PartsOf(s, id) != {} || id in s.work ==> IsCanonicalId(id)
    ensures A.OwnedOnce(inv) <==> forall id :: id !in s.rows ==> L.PartsOf(s, id) == {} && id !in s.work
  {
    var ids := A.Ids(inv.tasks);
    assert forall id :: id in ids <==> id in s.rows by {
      forall id | id in ids ensures id in s.rows {
        var i :| 0 <= i < |ids| && ids[i] == id;
        assert inv.tasks[i] in inv.tasks;
      }
    }
    OwnedIs(A.Owners(inv.vmDirectories), ids);
    OwnedIs(A.ProcessOwners(inv.processes), ids);
    OwnedIs(A.Owners(inv.rootfsDatasets), ids);
    OwnedIs(A.Owners(inv.taps), ids);
    OwnedIs(A.Owners(inv.workspaceDatasets), ids);
    hide A.OneOwnerEach, IsCanonicalId, NoDup;
    forall id ensures L.PartsOf(s, id) == {} <==>
                      L.Directory !in L.PartsOf(s, id) && L.Process !in L.PartsOf(s, id) &&
                      L.Rootfs !in L.PartsOf(s, id) && L.Tap !in L.PartsOf(s, id)
    {
      NoParts(L.PartsOf(s, id));
    }
    hide L.PartsOf;
  }

  lemma NoParts(ps: set<L.Part>)
    ensures ps == {} <==> L.Directory !in ps && L.Process !in ps && L.Rootfs !in ps && L.Tap !in ps
  {
    if ps != {} {
      var p :| p in ps;
      match p {
        case Process =>
        case Directory =>
        case Tap =>
        case Rootfs =>
      }
    }
  }

  lemma PartsAre(ps: set<L.Part>)
    ensures ps == L.ALL_PARTS <==> L.Directory in ps && L.Process in ps && L.Rootfs in ps && L.Tap in ps
    ensures ps == {L.Directory, L.Rootfs} <==> L.Directory in ps && L.Process !in ps && L.Rootfs in ps && L.Tap !in ps
  {
    forall p | p in ps ensures p == L.Directory || p == L.Process || p == L.Rootfs || p == L.Tap {
      match p {
        case Process =>
        case Directory =>
        case Tap =>
        case Rootfs =>
      }
    }
  }

  lemma OwnedIs(owners: seq<string>, ids: seq<string>)
    requires NoDup(owners) && forall o :: o in owners ==> IsCanonicalId(o)
    ensures A.OneOwnerEach(owners, ids) <==> forall o :: o in owners ==> o in ids
  {
    A.CountNoDup(owners);
  }

  /** For one listed task, the demands are what Fits says. */
  lemma AccountedIs(s: L.World, inv: A.Inventory, t: A.TaskRow)
    requires Describes(inv, s) && t in inv.tasks
    requires s.rows[t.id] == L.CleanupPending ==> L.PartsOf(s, t.id) == {} && t.id !in s.work
    requires s.rows[t.id] != L.CleanupPending ==> t.id in inv.ipAllocations
    ensures A.Accounted(inv, t) <==> Fits(L.TaskOf(s, t.id), L.LeaseOf(s.pool, t.id).disk)
  {
    CountIsMembership(A.Owners(inv.vmDirectories), t.id);
    CountIsMembership(A.ProcessOwners(inv.processes), t.id);
    CountIsMembership(A.Owners(inv.rootfsDatasets), t.id);
    CountIsMembership(A.Owners(inv.workspaceDatasets), t.id);
    CountIsMembership(A.Owners(inv.taps), t.id);
    PartsAre(L.PartsOf(s, t.id));
    hide A.Count, L.PartsOf, NoDup;
  }

  /** Whoever owns something or has a row has an id of the generated form. */
  lemma OwnersAreCanonical(s: L.World, usable: seq<string>)
    requires T.Reachable(s, usable) && WellNamed(s, usable)
    ensures forall id :: L.PartsOf(s, id) != {} || id in s.work || id in s.rows ==> IsCanonicalId(id)
  {
    hide T.Reachable, L.PartsOf, IsCanonicalId, A.CanonicalIPv4;
    forall id | L.PartsOf(s, id) != {} || id in s.work || id in s.rows ensures IsCanonicalId(id) {
      OnlyUsedIds(s, usable, id);
    }
  }

  /** Every listed row is well formed, and accounted for exactly if the task has what Fits says. */
  lemma RowsAre(s: L.World, usable: seq<string>, inv: A.Inventory)
    requires T.Reachable(s, usable) && WellNamed(s, usable) && Describes(inv, s)
    ensures forall t :: t in inv.tasks ==> A.CanonicalRow(t) && t.id == t.vmid
    ensures forall t :: t in inv.tasks ==>
              (A.Accounted(inv, t) <==> Fits(L.TaskOf(s, t.id), L.LeaseOf(s.pool, t.id).disk))
  {
    AllocationsPass(s, usable, inv);
    OwnersAreCanonical(s, usable);
    hide T.Reachable, A.Accounted, A.GoodLease, Fits, L.PartsOf, L.LeaseOf, L.TaskOf, NoDup, Injective, Lists,
         A.CanonicalIPv4;
    forall t | t in inv.tasks
      ensures A.CanonicalRow(t) && t.id == t.vmid
      ensures A.Accounted(inv, t) <==> Fits(L.TaskOf(s, t.id), L.LeaseOf(s.pool, t.id).disk)
    {
      if s.rows[t.id] == L.CleanupPending { T.PendingMeansAbsent(s, usable, t.id); }
      AccountedIs(s, inv, t);
    }
  }

  /** Clean, for listings of a world whose ids and allocations are in order. */
  lemma CleanIs(s: L.World, inv: A.Inventory)
    requires NoDup(A.Ids(inv.tasks)) && forall id :: id in s.rows <==> id in A.Ids(inv.tasks)
    requires Injective(inv.ipAllocations) && forall id :: id in inv.ipAllocations ==> A.GoodLease(inv.ipAllocations, id)
    requires forall t :: t in inv.tasks ==> A.CanonicalRow(t) && t.id == t.vmid
    ensures A.Clean(inv) <==>
            && A.OwnedOnce(inv)
            && (forall t :: t in inv.tasks ==> A.Accounted(inv, t))
            && (forall id :: id in inv.ipAllocations ==> id in s.rows)
  {
    hide A.OwnedOnce, A.Accounted, A.CanonicalRow, A.GoodLease, A.Count, A.Ids, NoDup, Injective;
    A.CountNoDup(A.Ids(inv.tasks));
  }

  /** On a reachable world the audit succeeds if and only if every task has exactly what its
      status says and nothing belongs to anybody else. Cleanup-pending tasks need no clause. */
  lemma AuditVerdict(s: L.World, usable: seq<string>, inv: A.Inventory)
    requires T.Reachable(s, usable) && WellNamed(s, usable) && Describes(inv, s)
    ensures A.Clean(inv) <==> Settled(s)
  {
    AllocationsPass(s, usable, inv);
    OwnersAreCanonical(s, usable);
    RowsAre(s, usable, inv);
    RowsListed(s, inv);
    hide T.Reachable, Describes, WellNamed, Settled, Fits, A.Clean, A.OwnedOnce, A.Accounted, A.CanonicalRow,
         A.GoodLease, Injective, IsCanonicalId, L.PartsOf, L.TaskOf, L.LeaseOf;
    OwnersAre(s, inv);
    CleanIs(s, inv);
    SettledIs(s, inv);
  }

  /** In particular for the addresses the pool really generates. */
  lemma AuditVerdictForPool(net: IPv4.Net, gateway: string, s: L.World, inv: A.Inventory)
    requires net.Valid() && T.Reachable(s, IPv4.UsableList(net, gateway)) && Describes(inv, s)
    requires forall id :: id in s.used ==> IsCanonicalId(id)
    ensures A.Clean(inv) <==> Settled(s)
  {
    GeneratedAreDotted(net, gateway);
    hide A.Clean, Settled, Describes, T.Reachable, A.CanonicalIPv4, IPv4.UsableList;
    AuditVerdict(s, IPv4.UsableList(net, gateway), inv);
  }

  lemma RowsListed(s: L.World, inv: A.Inventory)
    requires Describes(inv, s)
    ensures forall id :: id in s.rows <==> id in A.Ids(inv.tasks)
    ensures forall id :: id in s.rows ==> exists t :: t in inv.tasks && t.id == id
  {
  }

  /** Settled, sorted into the ids with a row and the others. */
  lemma SettledIs(s: L.World, inv: A.Inventory)
    requires Describes(inv, s)
    ensures Settled(s) <==>
            && (forall t :: t in inv.tasks ==> Fits(L.TaskOf(s, t.id), L.LeaseOf(s.pool, t.id).disk))
            && (forall id :: id !in s.rows ==> L.PartsOf(s, id) == {} && id !in s.work)
            && (forall id :: id in inv.ipAllocations ==> id in s.rows)
  {
    RowsListed(s, inv);
    var byRow := (forall t :: t in inv.tasks ==> Fits(L.TaskOf(s, t.id), L.LeaseOf(s.pool, t.id).disk));
    forall id ensures id !in s.rows ==>
      (Fits(L.TaskOf(s, id), L.LeaseOf(s.pool, id).disk) <==>
         L.PartsOf(s, id) == {} && id !in s.work && id !in inv.ipAllocations)
    {
    }
    if byRow {
      forall id | id in s.rows ensures Fits(L.TaskOf(s, id), L.LeaseOf(s.pool, id).disk) {
        var t :| t in inv.tasks && t.id == id;
      }
    }
    hide Fits;
  }
}
