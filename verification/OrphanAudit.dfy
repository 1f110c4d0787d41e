/**
 The orphan audit: seven listings, reconciled by loops over lists and maps into a list of
 mismatches. The loops are proved to find exactly what the verdict functions say of each
 item, and the audit to succeed exactly when the inventory is Clean, a statement that knows
 nothing of list order, map order or "seen" tables.
 */
module OrphanAudit {
  import opened Common
  import opened IPv4

  datatype TaskRow = TaskRow(id: string, vmid: string, status: string)
  datatype Resource = Resource(owner: string, name: string)
  datatype Process = Process(owner: string, pid: int, running: bool)

  datatype Source = Tasks | VmDirectories | Processes | RootfsDatasets | WorkspaceDatasets | Taps | IpAllocations

  datatype Inventory = Inventory(
    tasks: seq<TaskRow>,
    vmDirectories: seq<Resource>,
    processes: seq<Process>,
    rootfsDatasets: seq<Resource>,
    workspaceDatasets: seq<Resource>,
    taps: seq<Resource>,
    ipAllocations: map<string, string>)

  datatype Kind = Malformed | Mismatched | Duplicate | Orphan | Missing
  datatype What = TheTaskRow | TheTaskVm | Item(source: Source)
  datatype Detail = NoDetail | Text(text: string) | Pid(pid: int) | Shared(other: string, ip: string)
  datatype Mismatch = Mismatch(kind: Kind, what: What, owner: string, detail: Detail, running: bool)

  // ---- lists of verdicts ------------------------------------------------------------------

  function Gather(verdict: nat -> Option<Mismatch>, n: nat): seq<Mismatch> {
    if n == 0 then [] else Gather(verdict, n - 1) + Listed(verdict(n - 1))
  }

  function Listed(v: Option<Mismatch>): seq<Mismatch> {
    if v.Some? then [v.value] else []
  }

  lemma {:induction false} GatherExact(verdict: nat -> Option<Mismatch>, n: nat)
    ensures forall m :: m in Gather(verdict, n) <==> exists i: nat :: i < n && verdict(i) == Some(m)
    ensures Gather(verdict, n) == [] <==> forall i: nat :: i < n ==> verdict(i).None?
  {
    if n == 0 {
    } else {
      GatherExact(verdict, n - 1);
      var s := Gather(verdict, n - 1);
      forall m ensures m in Gather(verdict, n) <==> exists i: nat :: i < n && verdict(i) == Some(m) {
        assert m in Gather(verdict, n) <==> m in s || verdict(n - 1) == Some(m);
        if m in s {
          var i: nat :| i < n - 1 && verdict(i) == Some(m);
          assert i < n;
        }
      }
    }
  }

  lemma GatherStep(verdict: nat -> Option<Mismatch>, i: nat)
    ensures Gather(verdict, 0) == []
    ensures Gather(verdict, i + 1) == Gather(verdict, i) + Listed(verdict(i))
  {
  }

  // ---- task rows ------------------------------------------------------------------------------

  predicate AuditStatus(status: string) {
    status in {"running", "starting", "stopped", "failed", "cleanup_pending"}
  }

  predicate CanonicalRow(t: TaskRow) {
    IsCanonicalId(t.id) && IsCanonicalId(t.vmid) && AuditStatus(t.status)
  }

  predicate GoodRow(t: TaskRow) {
    CanonicalRow(t) && t.id == t.vmid
  }

  /** The row that counts for an id: the first good one. */
  function FirstRow(tasks: seq<TaskRow>, id: string): (r: Option<TaskRow>)
    ensures r.Some? ==> r.value in tasks && GoodRow(r.value) && r.value.id == id
    ensures r.None? ==> forall t :: t in tasks && GoodRow(t) ==> t.id != id
  {
    if tasks == [] then None
    else
      var n := |tasks| - 1;
      var before := FirstRow(tasks[..n], id);
      if before.Some? then before
      else if GoodRow(tasks[n]) && tasks[n].id == id then Some(tasks[n])
      else None
  }

  function TaskVerdict(tasks: seq<TaskRow>, i: nat): Option<Mismatch> {
    if i >= |tasks| then None
    else
      var t := tasks[i];
      if !CanonicalRow(t) then
        Some(Mismatch(Malformed, TheTaskRow, t.id, Text("task id, vm id, and status must be canonical"), false))
      else if t.id != t.vmid then Some(Mismatch(Mismatched, TheTaskVm, t.id, Text(t.vmid), false))
      else if FirstRow(tasks[..i], t.id).Some? then Some(Mismatch(Duplicate, TheTaskRow, t.id, NoDetail, false))
      else None
  }

  function TaskVerdicts(tasks: seq<TaskRow>): nat -> Option<Mismatch> {
    (i: nat) => TaskVerdict(tasks, i)
  }

  lemma TaskVerdictsAt(tasks: seq<TaskRow>, i: nat)
    ensures TaskVerdicts(tasks)(i) == TaskVerdict(tasks, i)
  {
  }

  function NextRow(before: Option<TaskRow>, t: TaskRow, id: string): Option<TaskRow> {
    if before.Some? then before else if GoodRow(t) && t.id == id then Some(t) else None
  }

  lemma FirstRowStep(tasks: seq<TaskRow>, i: nat)
    ensures forall id :: FirstRow([], id).None?
    ensures i < |tasks| ==> forall id :: FirstRow(tasks[..i + 1], id) == NextRow(FirstRow(tasks[..i], id), tasks[i], id)
  {
    if i < |tasks| { assert tasks[..i + 1][..i] == tasks[..i]; }
  }

  // ---- owned things ----------------------------------------------------------------------------

  /** The verdict on a thing, given whether its owner has been seen before. */
  function OwnerVerdict(source: Source, item: Resource, seen: bool, listed: set<string>,
                        otherwise: set<string>): Option<Mismatch> {
    if item.owner == "" then Some(Mismatch(Malformed, Item(source), "", Text(item.name), false))
    else if seen then Some(Mismatch(Duplicate, Item(source), item.owner, Text(item.name), false))
    else if item.owner in listed then None
    else Some(Mismatch(if item.owner in otherwise then Mismatched else Orphan,
                       Item(source), item.owner, Text(item.name), false))
  }

  function ResourceVerdict(source: Source, items: seq<Resource>, i: nat, listed: set<string>,
                           otherwise: set<string>): Option<Mismatch> {
    if i >= |items| then None
    else OwnerVerdict(source, items[i], items[i].owner in Owners(items[..i]), listed, otherwise)
  }

  function ResourceVerdicts(source: Source, items: seq<Resource>, listed: set<string>,
                            otherwise: set<string>): nat -> Option<Mismatch> {
    (i: nat) => ResourceVerdict(source, items, i, listed, otherwise)
  }

  function Owners(items: seq<Resource>): (o: seq<string>)
    ensures |o| == |items| && forall i :: 0 <= i < |o| ==> o[i] == items[i].owner
  {
    seq(|items|, i requires 0 <= i < |items| => items[i].owner)
  }

  lemma ResourceVerdictsAt(source: Source, items: seq<Resource>, i: nat, listed: set<string>, otherwise: set<string>)
    requires i < |items|
    ensures ResourceVerdicts(source, items, listed, otherwise)(i) ==
            OwnerVerdict(source, items[i], items[i].owner in Owners(items[..i]), listed, otherwise)
  {
  }

  /** The owners of the first items, as the loop collects them. */
  ghost predicate Seen(seen: set<string>, items: seq<Resource>, i: nat)
    requires i <= |items|
  {
    forall o :: o in seen <==> o != "" && o in Owners(items[..i])
  }

  lemma NoneSeen(items: seq<Resource>)
    ensures Seen({}, items, 0)
  {
  }

  lemma SeenMore(seen: set<string>, items: seq<Resource>, i: nat)
    requires i < |items| && Seen(seen, items, i)
    ensures "" !in seen
    ensures Seen(if items[i].owner == "" then seen else seen + {items[i].owner}, items, i + 1)
  {
    assert Owners(items[..i + 1]) == Owners(items[..i]) + [items[i].owner];
  }

  /** The verdict on an item, in terms of what the loop has collected. */
  lemma SeenVerdict(source: Source, seen: set<string>, items: seq<Resource>, i: nat, listed: set<string>,
                    otherwise: set<string>)
    requires i < |items| && Seen(seen, items, i)
    ensures ResourceVerdicts(source, items, listed, otherwise)(i) ==
            OwnerVerdict(source, items[i], items[i].owner in seen, listed, otherwise)
  {
    ResourceVerdictsAt(source, items, i, listed, otherwise);
    hide ResourceVerdicts, Owners;
  }

  predicate GoodProcess(p: Process) {
    p.owner != "" && p.pid > 0
  }

  predicate SeenProcess(items: seq<Process>, i: nat, owner: string)
    requires i <= |items|
  {
    exists j :: 0 <= j < i && items[j].owner == owner && GoodProcess(items[j])
  }

  /** The owners of the first good processes, as the loop collects them. */
  ghost predicate SeenOwners(seen: set<string>, items: seq<Process>, i: nat)
    requires i <= |items|
  {
    forall o :: o in seen <==> SeenProcess(items, i, o)
  }

  lemma NoProcessSeen(items: seq<Process>)
    ensures SeenOwners({}, items, 0)
  {
  }

  lemma SeenOwnersMore(seen: set<string>, items: seq<Process>, i: nat)
    requires i < |items| && SeenOwners(seen, items, i)
    ensures SeenOwners(if GoodProcess(items[i]) then seen + {items[i].owner} else seen, items, i + 1)
  {
    if GoodProcess(items[i]) {
      assert SeenProcess(items, i + 1, items[i].owner);
    }
  }

  function ProcessVerdict(items: seq<Process>, i: nat, listed: set<string>, otherwise: set<string>): Option<Mismatch> {
    if i >= |items| then None
    else
      var p := items[i];
      if !GoodProcess(p) then Some(Mismatch(Malformed, Item(Processes), p.owner, Pid(p.pid), p.running))
      else if SeenProcess(items, i, p.owner) then
        Some(Mismatch(Duplicate, Item(Processes), p.owner, Pid(p.pid), p.running))
      else if p.owner in listed then None
      else Some(Mismatch(if p.owner in otherwise then Mismatched else Orphan,
                         Item(Processes), p.owner, Pid(p.pid), p.running))
  }

  function ProcessVerdicts(items: seq<Process>, listed: set<string>, otherwise: set<string>): nat -> Option<Mismatch> {
    (i: nat) => ProcessVerdict(items, i, listed, otherwise)
  }

  lemma ProcessVerdictsAt(items: seq<Process>, i: nat, listed: set<string>, otherwise: set<string>)
    ensures ProcessVerdicts(items, listed, otherwise)(i) == ProcessVerdict(items, i, listed, otherwise)
  {
  }

  function ProcessOwners(items: seq<Process>): (o: seq<string>)
    ensures |o| == |items| && forall i :: 0 <= i < |o| ==> o[i] == items[i].owner
  {
    seq(|items|, i requires 0 <= i < |items| => items[i].owner)
  }

  predicate CanonicalIPv4(value: string) {
    var a := ParseAddr(value);
    a.Some? && Dotted(a.value) == value
  }

  predicate GoodLease(leases: map<string, string>, id: string)
    requires id in leases
  {
    IsCanonicalId(id) && CanonicalIPv4(leases[id])
  }

  /** The map's keys in the order in which one iteration visits them. */
  ghost predicate Visits(order: seq<string>, keys: set<string>) {
    NoDup(order) && forall k :: k in order <==> k in keys
  }

  /** Who holds an address among the keys visited so far. */
  function Holder(leases: map<string, string>, order: seq<string>, ip: string): (r: Option<string>)
    requires forall k :: k in order ==> k in leases
    ensures r.Some? ==> r.value in order && GoodLease(leases, r.value) && leases[r.value] == ip
  {
    if order == [] then None
    else
      var n := |order| - 1;
      var before := Holder(leases, order[..n], ip);
      if before.Some? then before
      else if GoodLease(leases, order[n]) && leases[order[n]] == ip then Some(order[n])
      else None
  }

  lemma {:induction false} HolderNone(leases: map<string, string>, order: seq<string>, ip: string)
    requires forall k :: k in order ==> k in leases
    ensures Holder(leases, order, ip).None? ==> forall k :: k in order && GoodLease(leases, k) ==> leases[k] != ip
  {
    hide GoodLease;
    if order == [] {
    } else {
      var n := |order| - 1;
      HolderNone(leases, order[..n], ip);
      assert order == order[..n] + [order[n]];
    }
  }

  /** The verdict on the lease of `id`, visited after those in `order`. */
  function LeaseVerdictOf(leases: map<string, string>, order: seq<string>, id: string, listed: set<string>,
                          otherwise: set<string>): Option<Mismatch>
    requires (forall k :: k in order ==> k in leases) && id in leases
  {
    var ip := leases[id];
    if !GoodLease(leases, id) then Some(Mismatch(Malformed, Item(IpAllocations), id, Text(ip), false))
    else if Holder(leases, order, ip).Some? then
      Some(Mismatch(Duplicate, Item(IpAllocations), id, Shared(Holder(leases, order, ip).value, ip), false))
    else if id in listed then None
    else Some(Mismatch(if id in otherwise then Mismatched else Orphan, Item(IpAllocations), id, Text(ip), false))
  }

  function LeaseVerdict(leases: map<string, string>, order: seq<string>, i: nat, listed: set<string>,
                        otherwise: set<string>): Option<Mismatch>
    requires forall k :: k in order ==> k in leases
  {
    if i >= |order| then None else LeaseVerdictOf(leases, order[..i], order[i], listed, otherwise)
  }

  function LeaseVerdicts(leases: map<string, string>, order: seq<string>, listed: set<string>,
                         otherwise: set<string>): nat -> Option<Mismatch>
    requires forall k :: k in order ==> k in leases
  {
    (i: nat) => LeaseVerdict(leases, order, i, listed, otherwise)
  }

  // ---- what each task needs ---------------------------------------------------------------------

  function Count(owners: seq<string>, id: string): nat {
    multiset(owners)[id]
  }

  datatype Need = One | Zero

  /** The demand on one kind of thing; a listing that could not be read makes no demand. */
  function Demand(t: TaskRow, need: Need, source: Source, count: nat, unknown: seq<Source>): seq<Mismatch> {
    if source in unknown then []
    else if need.One? && count != 1 then [Mismatch(Missing, Item(source), t.id, Text("expected exactly one"), false)]
    else if need.Zero? && count != 0 then
      [Mismatch(Mismatched, Item(source), t.id, Text("cleanup_pending requires absence"), false)]
    else []
  }

  function LeaseCount(leases: map<string, string>, id: string): nat {
    if id in leases then 1 else 0
  }

  function AbsenceDemands(inv: Inventory, t: TaskRow, unknown: seq<Source>): seq<Mismatch> {
    Demand(t, Zero, VmDirectories, Count(Owners(inv.vmDirectories), t.vmid), unknown) +
    Demand(t, Zero, RootfsDatasets, Count(Owners(inv.rootfsDatasets), t.vmid), unknown) +
    Demand(t, Zero, WorkspaceDatasets, Count(Owners(inv.workspaceDatasets), t.id), unknown) +
    ActivityDemands(inv, t, Zero, unknown)
  }

  function PresenceDemands(inv: Inventory, t: TaskRow, unknown: seq<Source>): seq<Mismatch> {
    Demand(t, One, VmDirectories, Count(Owners(inv.vmDirectories), t.vmid), unknown) +
    Demand(t, One, RootfsDatasets, Count(Owners(inv.rootfsDatasets), t.vmid), unknown) +
    Demand(t, One, WorkspaceDatasets, Count(Owners(inv.workspaceDatasets), t.id), unknown) +
    Demand(t, One, IpAllocations, LeaseCount(inv.ipAllocations, t.id), unknown)
  }

  function ActivityDemands(inv: Inventory, t: TaskRow, need: Need, unknown: seq<Source>): seq<Mismatch> {
    Demand(t, need, Processes, Count(ProcessOwners(inv.processes), t.vmid), unknown) +
    Demand(t, need, Taps, Count(Owners(inv.taps), t.vmid), unknown)
  }

  /** A failed task may or may not have a process and a TAP. */
  function Demands(inv: Inventory, t: TaskRow, unknown: seq<Source>): seq<Mismatch> {
    if t.status == "cleanup_pending" then AbsenceDemands(inv, t, unknown)
    else
      PresenceDemands(inv, t, unknown) +
      (if t.status == "running" || t.status == "starting" then ActivityDemands(inv, t, One, unknown)
       else if t.status == "stopped" then ActivityDemands(inv, t, Zero, unknown)
       else [])
  }

  function AllDemands(inv: Inventory, rows: map<string, TaskRow>, order: seq<string>,
                      unknown: seq<Source>): seq<Mismatch>
    requires forall k :: k in order ==> k in rows
  {
    if order == [] then []
    else
      var n := |order| - 1;
      AllDemands(inv, rows, order[..n], unknown) + Demands(inv, rows[order[n]], unknown)
  }

  lemma AllDemandsStep(inv: Inventory, rows: map<string, TaskRow>, order: seq<string>, unknown: seq<Source>)
    requires forall k :: k in order ==> k in rows
    ensures AllDemands(inv, rows, [], unknown) == []
    ensures forall k :: k in rows ==>
              AllDemands(inv, rows, order + [k], unknown) ==
                AllDemands(inv, rows, order, unknown) + Demands(inv, rows[k], unknown)
  {
  }

  // ---- the audit ------------------------------------------------------------------------------------

  /** How a reader ends: it is missing, it fails, or it gives a listing. */
  datatype Read<T> = NotConfigured | Failed | Got(items: T)

  datatype Readers = Readers(
    tasks: Read<seq<TaskRow>>,
    vmDirectories: Read<seq<Resource>>,
    processes: Read<seq<Process>>,
    rootfsDatasets: Read<seq<Resource>>,
    workspaceDatasets: Read<seq<Resource>>,
    taps: Read<seq<Resource>>,
    ipAllocations: Read<map<string, string>>)

  class Audit {
    var inv: Inventory
    var mismatches: seq<Mismatch>
    var unknownReads: seq<Source>

    constructor ()
      ensures inv == Inventory([], [], [], [], [], [], map[]) && mismatches == [] && unknownReads == []
    {
      inv := Inventory([], [], [], [], [], [], map[]);
      mismatches, unknownReads := [], [];
    }

    /** readAuditTasks and its siblings: a listing that cannot be had is empty and noted. */
    method Take<T>(source: Source, read: Read<T>, empty: T) returns (items: T)
      modifies this`unknownReads
      ensures items == Taken(read, empty)
      ensures unknownReads == Noted(old(unknownReads), read.Got?, source)
    {
      if read.NotConfigured? {
        unknownReads := unknownReads + [source];
        items := empty;
      } else if read.Failed? {
        unknownReads := unknownReads + [source];
        items := empty;
      } else {
        items := read.items;
      }
    }

    /** The two task tables: the first good row of each id, under the same keys in both. */
    method IndexTasks() returns (byID: map<string, TaskRow>, byVMID: map<string, TaskRow>)
      modifies this`mismatches
      ensures mismatches == old(mismatches) + Gather(TaskVerdicts(inv.tasks), |inv.tasks|)
      ensures byVMID == byID
      ensures forall id :: id in byID <==> FirstRow(inv.tasks, id).Some?
      ensures forall id :: id in byID ==> byID[id] == FirstRow(inv.tasks, id).value
    {
      hide Gather, CanonicalRow, FirstRow, TaskVerdicts, AuditStatus, IsCanonicalId;
      byID, byVMID := map[], map[];
      var i := 0;
      GatherStep(TaskVerdicts(inv.tasks), 0);
      FirstRowStep(inv.tasks, 0);
      while i < |inv.tasks|
        invariant 0 <= i <= |inv.tasks|
        invariant mismatches == old(mismatches) + Gather(TaskVerdicts(inv.tasks), i)
        invariant byVMID == byID
        invariant forall id :: id in byID <==> FirstRow(inv.tasks[..i], id).Some?
        invariant forall id :: id in byID ==> byID[id] == FirstRow(inv.tasks[..i], id).value
      {
        var task := inv.tasks[i];
        GatherStep(TaskVerdicts(inv.tasks), i);
        FirstRowStep(inv.tasks, i);
        TaskVerdictsAt(inv.tasks, i);
        i := i + 1;
        if !CanonicalRow(task) {
          mismatches := mismatches + [Mismatch(Malformed, TheTaskRow, task.id,
                                               Text("task id, vm id, and status must be canonical"), false)];
          continue;
        }
        if task.id != task.vmid {
          mismatches := mismatches + [Mismatch(Mismatched, TheTaskVm, task.id, Text(task.vmid), false)];
          continue;
        }
        if task.id in byID {
          mismatches := mismatches + [Mismatch(Duplicate, TheTaskRow, task.id, NoDetail, false)];
          continue;
        }
        if task.vmid in byVMID {
          mismatches := mismatches + [Mismatch(Duplicate, TheTaskVm, task.vmid, Text(byVMID[task.vmid].id), false)];
          continue;
        }
        byID := byID[task.id := task];
        byVMID := byVMID[task.vmid := task];
      }
      assert inv.tasks[..i] == inv.tasks;
    }

    /** Owners are looked up in one table first and in the other to tell a mismatch from an orphan. */
    method ReconcileResources(source: Source, items: seq<Resource>, byID: map<string, TaskRow>,
                              byVMID: map<string, TaskRow>, useVMID: bool)
      modifies this`mismatches
      ensures var (listed, otherwise) := if useVMID then (byVMID.Keys, byID.Keys) else (byID.Keys, byVMID.Keys);
              mismatches == old(mismatches) + Gather(ResourceVerdicts(source, items, listed, otherwise), |items|)
    {
      ghost var (listed, otherwise) := if useVMID then (byVMID.Keys, byID.Keys) else (byID.Keys, byVMID.Keys);
      ghost var verdicts := ResourceVerdicts(source, items, listed, otherwise);
      var seen: set<string> := {};
      var i := 0;
      GatherStep(verdicts, 0);
      NoneSeen(items);
      hide Gather, OwnerVerdict, ResourceVerdicts, Listed, Seen, Owners;
      while i < |items|
        invariant 0 <= i <= |items|
        invariant mismatches == old(mismatches) + Gather(verdicts, i)
        invariant Seen(seen, items, i)
      {
        GatherStep(verdicts, i);
        SeenVerdict(source, seen, items, i, listed, otherwise);
        SeenMore(seen, items, i);
        seen := ReconcileResource(source, items[i], seen, byID, byVMID, useVMID);
        i := i + 1;
      }
    }

    /** The body of that loop. */
    method ReconcileResource(source: Source, item: Resource, seen: set<string>, byID: map<string, TaskRow>,
                             byVMID: map<string, TaskRow>, useVMID: bool)
      returns (seen': set<string>)
      requires "" !in seen
      modifies this`mismatches
      ensures seen' == if item.owner == "" then seen else seen + {item.owner}
      ensures var (listed, otherwise) := if useVMID then (byVMID.Keys, byID.Keys) else (byID.Keys, byVMID.Keys);
              mismatches == old(mismatches) + Listed(OwnerVerdict(source, item, item.owner in seen, listed, otherwise))
    {
      seen' := seen;
      if item.owner == "" {
        mismatches := mismatches + [Mismatch(Malformed, Item(source), "", Text(item.name), false)];
        return;
      }
      if item.owner in seen {
        mismatches := mismatches + [Mismatch(Duplicate, Item(source), item.owner, Text(item.name), false)];
        return;
      }
      seen' := seen + {item.owner};
      if useVMID {
        if item.owner in byVMID {
          return;
        }
        if item.owner in byID {
          mismatches := mismatches + [Mismatch(Mismatched, Item(source), item.owner, Text(item.name), false)];
          return;
        }
      } else if item.owner in byID {
        return;
      } else if item.owner in byVMID {
        mismatches := mismatches + [Mismatch(Mismatched, Item(source), item.owner, Text(item.name), false)];
        return;
      }
      mismatches := mismatches + [Mismatch(Orphan, Item(source), item.owner, Text(item.name), false)];
    }

    method ReconcileProcesses(items: seq<Process>, byID: map<string, TaskRow>, byVMID: map<string, TaskRow>)
      modifies this`mismatches
      ensures mismatches == old(mismatches) + Gather(ProcessVerdicts(items, byVMID.Keys, byID.Keys), |items|)
    {
      ghost var verdicts := ProcessVerdicts(items, byVMID.Keys, byID.Keys);
      var seen: set<string> := {};
      var i := 0;
      GatherStep(verdicts, 0);
      NoProcessSeen(items);
      hide Gather, ProcessVerdict, ProcessVerdicts, SeenOwners, Listed;
      while i < |items|
        invariant 0 <= i <= |items|
        invariant mismatches == old(mismatches) + Gather(verdicts, i)
        invariant SeenOwners(seen, items, i)
      {
        GatherStep(verdicts, i);
        SeenOwnersMore(seen, items, i);
        ProcessVerdictsAt(items, i, byVMID.Keys, byID.Keys);
        seen := ReconcileProcess(items, i, seen, byID, byVMID);
        i := i + 1;
      }
    }

    /** The body of that loop. */
    method ReconcileProcess(items: seq<Process>, i: nat, seen: set<string>, byID: map<string, TaskRow>,
                            byVMID: map<string, TaskRow>)
      returns (seen': set<string>)
      requires i < |items| && SeenOwners(seen, items, i)
      modifies this`mismatches
      ensures seen' == if GoodProcess(items[i]) then seen + {items[i].owner} else seen
      ensures mismatches == old(mismatches) + Listed(ProcessVerdict(items, i, byVMID.Keys, byID.Keys))
    {
      hide SeenProcess;
      seen' := seen;
      var process := items[i];
      if process.owner == "" || process.pid <= 0 {
        mismatches := mismatches + [Mismatch(Malformed, Item(Processes), process.owner, Pid(process.pid),
                                             process.running)];
        return;
      }
      if process.owner in seen {
        mismatches := mismatches + [Mismatch(Duplicate, Item(Processes), process.owner, Pid(process.pid),
                                             process.running)];
        assert seen + {process.owner} == seen;
        return;
      }
      seen' := seen + {process.owner};
      if process.owner in byVMID {
        return;
      }
      var kind := Orphan;
      if process.owner in byID {
        kind := Mismatched;
      }
      mismatches := mismatches + [Mismatch(kind, Item(Processes), process.owner, Pid(process.pid), process.running)];
    }

    /** The allocations come from a map, in whatever order it is visited. */
    method ReconcileAllocations(byID: map<string, TaskRow>, byVMID: map<string, TaskRow>)
      returns (ghost order: seq<string>)
      modifies this`mismatches
      ensures Visits(order, inv.ipAllocations.Keys)
      ensures mismatches == old(mismatches) +
                Gather(LeaseVerdicts(inv.ipAllocations, order, byID.Keys, byVMID.Keys), |order|)
    {
      hide Gather, LeaseVerdicts, Holders, LeaseVerdictOf;
      var byIP: map<string, string> := map[];
      var rest := inv.ipAllocations.Keys;
      order := [];
      NoLeases(inv.ipAllocations, byID.Keys, byVMID.Keys);
      while rest != {}
        invariant rest <= inv.ipAllocations.Keys
        invariant Visits(order, inv.ipAllocations.Keys - rest)
        invariant mismatches == old(mismatches) +
                    Gather(LeaseVerdicts(inv.ipAllocations, order, byID.Keys, byVMID.Keys), |order|)
        invariant Holders(byIP, inv.ipAllocations, order)
        decreases rest
      {
        var taskID :| taskID in rest;
        LeaseStep(inv.ipAllocations, order, taskID, byID.Keys, byVMID.Keys);
        byIP := ReconcileAllocation(taskID, inv.ipAllocations[taskID], byIP, byID, byVMID, order);
        order := order + [taskID];
        rest := rest - {taskID};
      }
    }

    /** The body of that loop. */
    method ReconcileAllocation(taskID: string, ip: string, byIP: map<string, string>, byID: map<string, TaskRow>,
                               byVMID: map<string, TaskRow>, ghost order: seq<string>)
      returns (byIP': map<string, string>)
      requires taskID in inv.ipAllocations && inv.ipAllocations[taskID] == ip
      requires forall k :: k in order ==> k in inv.ipAllocations
      requires Holders(byIP, inv.ipAllocations, order)
      modifies this`mismatches
      ensures Holders(byIP', inv.ipAllocations, order + [taskID])
      ensures mismatches == old(mismatches) +
                Listed(LeaseVerdictOf(inv.ipAllocations, order, taskID, byID.Keys, byVMID.Keys))
    {
      HoldersStep(byIP, inv.ipAllocations, order, taskID);
      byIP' := byIP;
      if !IsCanonicalId(taskID) || !CanonicalIPv4(ip) {
        mismatches := mismatches + [Mismatch(Malformed, Item(IpAllocations), taskID, Text(ip), false)];
        return;
      }
      if ip in byIP {
        mismatches := mismatches + [Mismatch(Duplicate, Item(IpAllocations), taskID, Shared(byIP[ip], ip), false)];
        return;
      }
      byIP' := byIP[ip := taskID];
      if taskID in byID {
        return;
      }
      var kind := Orphan;
      if taskID in byVMID {
        kind := Mismatched;
      }
      mismatches := mismatches + [Mismatch(kind, Item(IpAllocations), taskID, Text(ip), false)];
    }

    method RequireOne(task: TaskRow, source: Source, count: nat)
      modifies this`mismatches
      ensures mismatches == old(mismatches) + Demand(task, One, source, count, unknownReads)
    {
      if source in unknownReads {
        return;
      }
      if count != 1 {
        mismatches := mismatches + [Mismatch(Missing, Item(source), task.id, Text("expected exactly one"), false)];
      }
    }

    method RequireNo(task: TaskRow, source: Source, count: nat)
      modifies this`mismatches
      ensures mismatches == old(mismatches) + Demand(task, Zero, source, count, unknownReads)
    {
      if source in unknownReads {
        return;
      }
      if count != 0 {
        mismatches := mismatches + [Mismatch(Mismatched, Item(source), task.id,
                                             Text("cleanup_pending requires absence"), false)];
      }
    }

    ghost predicate Counted(dirs: map<string, nat>, roots: map<string, nat>, works: map<string, nat>,
                            taps: map<string, nat>, procs: map<string, nat>)
      reads this`inv
    {
      Counts(dirs, Owners(inv.vmDirectories)) && Counts(roots, Owners(inv.rootfsDatasets)) &&
      Counts(works, Owners(inv.workspaceDatasets)) && Counts(taps, Owners(inv.taps)) &&
      Counts(procs, ProcessOwners(inv.processes))
    }

    method RequireAbsence(task: TaskRow, dirs: map<string, nat>, roots: map<string, nat>, works: map<string, nat>,
                          taps: map<string, nat>, procs: map<string, nat>)
      requires Counted(dirs, roots, works, taps, procs)
      modifies this`mismatches
      ensures mismatches == old(mismatches) + AbsenceDemands(inv, task, unknownReads)
    {
      hide Demand, At, Count;
      RequireNo(task, VmDirectories, At(dirs, task.vmid));
      RequireNo(task, RootfsDatasets, At(roots, task.vmid));
      RequireNo(task, WorkspaceDatasets, At(works, task.id));
      RequireNo(task, Processes, At(procs, task.vmid));
      RequireNo(task, Taps, At(taps, task.vmid));
    }

    method RequirePresence(task: TaskRow, dirs: map<string, nat>, roots: map<string, nat>, works: map<string, nat>,
                           taps: map<string, nat>, procs: map<string, nat>)
      requires Counted(dirs, roots, works, taps, procs)
      modifies this`mismatches
      ensures mismatches == old(mismatches) + PresenceDemands(inv, task, unknownReads)
    {
      hide Demand, At, Count;
      RequireOne(task, VmDirectories, At(dirs, task.vmid));
      RequireOne(task, RootfsDatasets, At(roots, task.vmid));
      RequireOne(task, WorkspaceDatasets, At(works, task.id));
      RequireOne(task, IpAllocations, if task.id in inv.ipAllocations then 1 else 0);
    }

    method RequireActivity(task: TaskRow, need: Need, taps: map<string, nat>, procs: map<string, nat>)
      requires Counts(taps, Owners(inv.taps)) && Counts(procs, ProcessOwners(inv.processes))
      modifies this`mismatches
      ensures mismatches == old(mismatches) + ActivityDemands(inv, task, need, unknownReads)
    {
      hide Demand, At, Count;
      match need {
        case One =>
          RequireOne(task, Processes, At(procs, task.vmid));
          RequireOne(task, Taps, At(taps, task.vmid));
        case Zero =>
          RequireNo(task, Processes, At(procs, task.vmid));
          RequireNo(task, Taps, At(taps, task.vmid));
      }
    }

    /** The body of the loop over the tasks, on the counted owners. */
    method RequireFor(task: TaskRow, dirs: map<string, nat>, roots: map<string, nat>, works: map<string, nat>,
                      taps: map<string, nat>, procs: map<string, nat>)
      requires Counted(dirs, roots, works, taps, procs)
      modifies this`mismatches
      ensures mismatches == old(mismatches) + Demands(inv, task, unknownReads)
    {
      hide AbsenceDemands, PresenceDemands, ActivityDemands;
      if task.status == "cleanup_pending" {
        RequireAbsence(task, dirs, roots, works, taps, procs);
        return;
      }
      RequirePresence(task, dirs, roots, works, taps, procs);
      if task.status == "running" || task.status == "starting" {
        RequireActivity(task, One, taps, procs);
      } else if task.status == "stopped" {
        RequireActivity(task, Zero, taps, procs);
      }
    }

    method ReconcileTaskExpectations(tasks: map<string, TaskRow>) returns (ghost order: seq<string>)
      modifies this`mismatches
      ensures Visits(order, tasks.Keys)
      ensures mismatches == old(mismatches) + AllDemands(inv, tasks, order, unknownReads)
    {
      var dirs := CountOwners(Owners(inv.vmDirectories));
      var roots := CountOwners(Owners(inv.rootfsDatasets));
      var works := CountOwners(Owners(inv.workspaceDatasets));
      var taps := CountOwners(Owners(inv.taps));
      var procs := CountOwners(ProcessOwners(inv.processes));
      assert Counted(dirs, roots, works, taps, procs);
      hide Counted, Demands, AllDemands, Counts;
      order := RequireAll(tasks, dirs, roots, works, taps, procs);
    }

    method RequireAll(tasks: map<string, TaskRow>, dirs: map<string, nat>, roots: map<string, nat>,
                      works: map<string, nat>, taps: map<string, nat>, procs: map<string, nat>)
      returns (ghost order: seq<string>)
      requires Counted(dirs, roots, works, taps, procs)
      modifies this`mismatches
      ensures Visits(order, tasks.Keys)
      ensures mismatches == old(mismatches) + AllDemands(inv, tasks, order, unknownReads)
    {
      hide Counted, Demands, AllDemands;
      AllDemandsStep(inv, tasks, [], unknownReads);
      var rest := tasks.Keys;
      order := [];
      while rest != {}
        invariant rest <= tasks.Keys
        invariant Visits(order, tasks.Keys - rest)
        invariant mismatches == old(mismatches) + AllDemands(inv, tasks, order, unknownReads)
        invariant Counted(dirs, roots, works, taps, procs)
        decreases rest
      {
        var id :| id in rest;
        assert forall k :: k in order ==> k in tasks;
        AllDemandsStep(inv, tasks, order, unknownReads);
        order := order + [id];
        rest := rest - {id};
        RequireFor(tasks[id], dirs, roots, works, taps, procs);
      }
    }

    /** reconcileOrphanAudit, but for the final sort of the mismatches. */
    method Reconcile() returns (ghost leases: seq<string>, ghost tasks: seq<string>)
      modifies this`mismatches
      ensures Visits(leases, inv.ipAllocations.Keys) && Visits(tasks, TaskIds(inv.tasks))
      ensures mismatches == old(mismatches) + Found(inv, unknownReads, leases, tasks)
    {
      hide Gather, AllDemands, TaskVerdicts, LeaseVerdicts, FoundOwned;
      var byID, byVMID := IndexTasks();
      assert byID.Keys == TaskIds(inv.tasks);
      assert byID == FirstRows(inv.tasks);
      hide TaskIds, FirstRows, FirstRow;
      ReconcileOwned(byID, byVMID);
      leases := ReconcileAllocations(byID, byVMID);
      tasks := ReconcileTaskExpectations(byID);
    }

    method ReconcileOwned(byID: map<string, TaskRow>, byVMID: map<string, TaskRow>)
      requires byVMID == byID
      modifies this`mismatches
      ensures mismatches == old(mismatches) + FoundOwned(inv, byID.Keys)
    {
      hide Gather, ResourceVerdicts, ProcessVerdicts;
      ReconcileResources(VmDirectories, inv.vmDirectories, byID, byVMID, true);
      ReconcileProcesses(inv.processes, byID, byVMID);
      ReconcileResources(RootfsDatasets, inv.rootfsDatasets, byID, byVMID, true);
      ReconcileResources(WorkspaceDatasets, inv.workspaceDatasets, byID, byVMID, false);
      ReconcileResources(Taps, inv.taps, byID, byVMID, true);
    }

    /** runOrphanAudit succeeds exactly when the document can be written, every listing was
        read, and the inventory is clean. */
    method Run(readers: Readers, encodes: bool)
      returns (err: bool, ghost leaseOrder: seq<string>, ghost taskOrder: seq<string>)
      requires mismatches == [] && unknownReads == []
      modifies this
      ensures !err <==> encodes && AllRead(readers) && Clean(inv)
      ensures inv == Inventory(Taken(readers.tasks, []), Taken(readers.vmDirectories, []),
                               Taken(readers.processes, []), Taken(readers.rootfsDatasets, []),
                               Taken(readers.workspaceDatasets, []), Taken(readers.taps, []),
                               Taken(readers.ipAllocations, map[]))
      ensures forall source :: source in unknownReads <==> Unread(readers, source)
      ensures !readers.tasks.Got? ==> mismatches == []
      ensures readers.tasks.Got? ==>
                Visits(leaseOrder, inv.ipAllocations.Keys) && Visits(taskOrder, TaskIds(inv.tasks)) &&
                mismatches == Found(inv, unknownReads, leaseOrder, taskOrder)
    {
      hide Clean, Found, Visits, TaskIds;
      ReadAll(readers);
      assert Tasks in unknownReads <==> Unread(readers, Tasks);
      leaseOrder, taskOrder := [], [];
      if Tasks !in unknownReads {
        leaseOrder, taskOrder := Reconcile();
        if AllRead(readers) { CleanExact(inv, leaseOrder, taskOrder); }
      }
      err := !encodes || |mismatches| != 0 || |unknownReads| != 0;
    }

    /** The seven readers, one after the other. */
    method ReadAll(readers: Readers)
      requires unknownReads == []
      modifies this`inv, this`unknownReads
      ensures inv == Inventory(Taken(readers.tasks, []), Taken(readers.vmDirectories, []),
                               Taken(readers.processes, []), Taken(readers.rootfsDatasets, []),
                               Taken(readers.workspaceDatasets, []), Taken(readers.taps, []),
                               Taken(readers.ipAllocations, map[]))
      ensures forall source :: source in unknownReads <==> Unread(readers, source)
      ensures unknownReads == [] <==> AllRead(readers)
    {
      hide Taken, Noted, Unread, AllRead;
      var tasks := Take(Tasks, readers.tasks, []);
      var dirs := Take(VmDirectories, readers.vmDirectories, []);
      var procs := Take(Processes, readers.processes, []);
      var roots := Take(RootfsDatasets, readers.rootfsDatasets, []);
      var works := Take(WorkspaceDatasets, readers.workspaceDatasets, []);
      var taps := Take(Taps, readers.taps, []);
      var leases := Take(IpAllocations, readers.ipAllocations, map[]);
      inv := Inventory(tasks, dirs, procs, roots, works, taps, leases);
      assert unknownReads == Gaps(readers);
      GapsExact(readers);
    }
  }

  function Taken<T>(read: Read<T>, empty: T): T {
    if read.Got? then read.items else empty
  }

  /** The listings that could not be had. */
  predicate Unread(r: Readers, source: Source) {
    match source
    case Tasks => !r.tasks.Got?
    case VmDirectories => !r.vmDirectories.Got?
    case Processes => !r.processes.Got?
    case RootfsDatasets => !r.rootfsDatasets.Got?
    case WorkspaceDatasets => !r.workspaceDatasets.Got?
    case Taps => !r.taps.Got?
    case IpAllocations => !r.ipAllocations.Got?
  }

  /** A reader's source is noted if its listing could not be had. */
  function Noted(before: seq<Source>, got: bool, source: Source): (r: seq<Source>)
    ensures forall x :: x in r <==> x in before || (!got && x == source)
    ensures r == [] <==> before == [] && got
  {
    if got then before else before + [source]
  }

  /** The listings that could not be had, in reading order. */
  function Gaps(r: Readers): seq<Source> {
    var first := Noted(Noted(Noted([], r.tasks.Got?, Tasks), r.vmDirectories.Got?, VmDirectories),
                       r.processes.Got?, Processes);
    var datasets := Noted(Noted(first, r.rootfsDatasets.Got?, RootfsDatasets),
                          r.workspaceDatasets.Got?, WorkspaceDatasets);
    Noted(Noted(datasets, r.taps.Got?, Taps), r.ipAllocations.Got?, IpAllocations)
  }

  lemma GapsExact(r: Readers)
    ensures forall source :: source in Gaps(r) <==> Unread(r, source)
    ensures Gaps(r) == [] <==> AllRead(r)
  {
    hide Noted;
  }

  predicate AllRead(r: Readers) {
    r.tasks.Got? && r.vmDirectories.Got? && r.processes.Got? && r.rootfsDatasets.Got? &&
    r.workspaceDatasets.Got? && r.taps.Got? && r.ipAllocations.Got?
  }

  function At(counts: map<string, nat>, id: string): nat {
    if id in counts then counts[id] else 0
  }

  ghost predicate Counts(counts: map<string, nat>, owners: seq<string>) {
    forall id :: At(counts, id) == Count(owners, id)
  }

  method CountOwners(owners: seq<string>) returns (counts: map<string, nat>)
    ensures Counts(counts, owners)
  {
    counts := map[];
    var i := 0;
    while i < |owners|
      invariant 0 <= i <= |owners|
      invariant Counts(counts, owners[..i])
    {
      assert owners[..i + 1] == owners[..i] + [owners[i]];
      ghost var before := counts;
      counts := counts[owners[i] := At(counts, owners[i]) + 1];
      forall id ensures At(counts, id) == Count(owners[..i + 1], id) {
        assert At(before, id) == Count(owners[..i], id);
      }
      i := i + 1;
    }
    assert owners[..i] == owners;
  }

  lemma NoLeases(leases: map<string, string>, listed: set<string>, otherwise: set<string>)
    ensures Gather(LeaseVerdicts(leases, [], listed, otherwise), 0) == []
    ensures Holders(map[], leases, [])
  {
  }

  /** byIP records who holds each address among the keys visited so far. */
  ghost predicate Holders(byIP: map<string, string>, leases: map<string, string>, order: seq<string>)
    requires forall k :: k in order ==> k in leases
  {
    forall ip :: Holder(leases, order, ip) == if ip in byIP then Some(byIP[ip]) else None
  }

  lemma HoldersStep(byIP: map<string, string>, leases: map<string, string>, order: seq<string>, id: string)
    requires (forall k :: k in order ==> k in leases) && id in leases && Holders(byIP, leases, order)
    ensures Holders(if GoodLease(leases, id) && leases[id] !in byIP then byIP[leases[id] := id] else byIP,
                    leases, order + [id])
  {
  }

  lemma LeaseStep(leases: map<string, string>, order: seq<string>, id: string, listed: set<string>,
                  otherwise: set<string>)
    requires (forall k :: k in order ==> k in leases) && id in leases
    ensures Gather(LeaseVerdicts(leases, order + [id], listed, otherwise), |order + [id]|) ==
            Gather(LeaseVerdicts(leases, order, listed, otherwise), |order|) +
            Listed(LeaseVerdictOf(leases, order, id, listed, otherwise))
  {
    hide LeaseVerdictOf;
    var longer := LeaseVerdicts(leases, order + [id], listed, otherwise);
    var shorter := LeaseVerdicts(leases, order, listed, otherwise);
    forall i: nat | i < |order| ensures longer(i) == shorter(i) {
      assert (order + [id])[..i] == order[..i];
    }
    SameGather(longer, shorter, |order|);
    assert (order + [id])[..|order|] == order;
  }

  lemma {:induction false} SameGather(f: nat -> Option<Mismatch>, g: nat -> Option<Mismatch>, n: nat)
    requires forall i: nat :: i < n ==> f(i) == g(i)
    ensures Gather(f, n) == Gather(g, n)
  {
    if n == 0 {
    } else {
      SameGather(f, g, n - 1);
    }
  }

  function TaskIds(tasks: seq<TaskRow>): set<string> {
    set t | t in tasks && GoodRow(t) :: t.id
  }

  function FirstRows(tasks: seq<TaskRow>): map<string, TaskRow> {
    map id | id in TaskIds(tasks) :: var r := FirstRow(tasks, id); if r.Some? then r.value else TaskRow("", "", "")
  }

  /** Everything the reconciliation reports, for the two orders in which maps were visited. */
  function Found(inv: Inventory, unknown: seq<Source>, leases: seq<string>, tasks: seq<string>): seq<Mismatch>
    requires (forall k :: k in leases ==> k in inv.ipAllocations) &&
               (forall k :: k in tasks ==> k in TaskIds(inv.tasks))
  {
    var ids := TaskIds(inv.tasks);
    Gather(TaskVerdicts(inv.tasks), |inv.tasks|) + FoundOwned(inv, ids) +
    Gather(LeaseVerdicts(inv.ipAllocations, leases, ids, ids), |leases|) +
    AllDemands(inv, FirstRows(inv.tasks), tasks, unknown)
  }

  function FoundOwned(inv: Inventory, ids: set<string>): seq<Mismatch> {
    Gather(ResourceVerdicts(VmDirectories, inv.vmDirectories, ids, ids), |inv.vmDirectories|) +
    Gather(ProcessVerdicts(inv.processes, ids, ids), |inv.processes|) +
    Gather(ResourceVerdicts(RootfsDatasets, inv.rootfsDatasets, ids, ids), |inv.rootfsDatasets|) +
    Gather(ResourceVerdicts(WorkspaceDatasets, inv.workspaceDatasets, ids, ids), |inv.workspaceDatasets|) +
    Gather(ResourceVerdicts(Taps, inv.taps, ids, ids), |inv.taps|)
  }

  // ---- the inventory in plain words -----------------------------------------------------------------

  /** Every thing belongs to exactly one listed task, and no task has two of a kind. */
  ghost predicate OneOwnerEach(owners: seq<string>, ids: seq<string>) {
    && (forall o :: o in owners ==> o != "" && o in ids)
    && (forall o :: Count(owners, o) <= 1)
  }

  function Ids(tasks: seq<TaskRow>): (ids: seq<string>)
    ensures |ids| == |tasks| && forall i :: 0 <= i < |ids| ==> ids[i] == tasks[i].id
  {
    seq(|tasks|, i requires 0 <= i < |tasks| => tasks[i].id)
  }

  /** What one task of each status has. */
  predicate Accounted(inv: Inventory, t: TaskRow) {
    var dirs := Count(Owners(inv.vmDirectories), t.id);
    var roots := Count(Owners(inv.rootfsDatasets), t.id);
    var works := Count(Owners(inv.workspaceDatasets), t.id);
    var procs := Count(ProcessOwners(inv.processes), t.id);
    var taps := Count(Owners(inv.taps), t.id);
    if t.status == "cleanup_pending" then dirs == roots == works == procs == taps == 0
    else
      && dirs == roots == works == 1 && t.id in inv.ipAllocations
      && (t.status == "running" || t.status == "starting" ==> procs == taps == 1)
      && (t.status == "stopped" ==> procs == taps == 0)
  }

  /** Every thing on the host belongs to a listed task; processes have real ids. */
  ghost predicate OwnedOnce(inv: Inventory) {
    var ids := Ids(inv.tasks);
    && OneOwnerEach(Owners(inv.vmDirectories), ids)
    && OneOwnerEach(ProcessOwners(inv.processes), ids) && (forall p :: p in inv.processes ==> p.pid > 0)
    && OneOwnerEach(Owners(inv.rootfsDatasets), ids)
    && OneOwnerEach(Owners(inv.workspaceDatasets), ids)
    && OneOwnerEach(Owners(inv.taps), ids)
  }

  ghost predicate Clean(inv: Inventory) {
    var ids := Ids(inv.tasks);
    && (forall t :: t in inv.tasks ==> CanonicalRow(t) && t.id == t.vmid)
    && (forall id :: Count(ids, id) <= 1)
    && OwnedOnce(inv)
    && (forall id :: id in inv.ipAllocations ==> GoodLease(inv.ipAllocations, id) && id in ids)
    && Injective(inv.ipAllocations)
    && (forall t :: t in inv.tasks ==> Accounted(inv, t))
  }

  lemma {:induction false} NoDupCounts(s: seq<string>)
    requires NoDup(s)
    ensures forall x :: Count(s, x) <= 1
  {
    if s == [] {
    } else {
      var n := |s| - 1;
      NoDupCounts(s[..n]);
      assert s == s[..n] + [s[n]];
      forall x ensures Count(s, x) <= 1 {
        assert Count(s[..n], x) <= 1;
        assert Count(s, x) == Count(s[..n], x) + Count([s[n]], x);
        assert x == s[n] ==> x !in s[..n];
      }
    }
  }

  lemma CountNoDup(s: seq<string>)
    ensures (forall x :: Count(s, x) <= 1) <==> NoDup(s)
  {
    if NoDup(s) {
      NoDupCounts(s);
    } else {
      var i, j :| 0 <= i < j < |s| && s[i] == s[j];
      assert s == s[..j] + s[j..];
      assert s[..j][i] in s[..j] && s[j..][0] in s[j..];
      assert Count(s, s[i]) == Count(s[..j], s[i]) + Count(s[j..], s[i]);
    }
  }

  lemma NoDupPrefixes(s: seq<string>)
    ensures NoDup(s) <==> forall j :: 0 <= j < |s| ==> s[j] !in s[..j]
  {
  }

  lemma OwnersClean(owners: seq<string>, listed: seq<string>)
    ensures (forall i :: 0 <= i < |owners| ==> owners[i] != "" && owners[i] in listed && owners[i] !in owners[..i]) <==>
            OneOwnerEach(owners, listed)
  {
    CountNoDup(owners);
    NoDupPrefixes(owners);
    forall i | 0 <= i < |owners| ensures owners[i] in owners {}
  }

  /** The verdicts, when both tables have the same keys. */
  lemma ResourceVerdictsAre(source: Source, items: seq<Resource>, ids: set<string>)
    ensures var v := ResourceVerdicts(source, items, ids, ids);
            var owners := Owners(items);
            forall i: nat | i < |items| ::
              && (v(i).None? <==> owners[i] != "" && owners[i] in ids && owners[i] !in owners[..i])
              && (v(i).Some? ==>
                  v(i).value.what == Item(source) && !v(i).value.kind.Mismatched? &&
                  !v(i).value.kind.Missing?)
              && (v(i).Some? ==> v(i).value.owner == owners[i])
              && (v(i).Some? ==> (v(i).value.kind == Orphan <==>
                                    owners[i] != "" && owners[i] !in ids && owners[i] !in owners[..i]))
  {
  }

  lemma ResourcesClean(source: Source, items: seq<Resource>, ids: set<string>, listed: seq<string>)
    requires forall o :: o in ids <==> o in listed
    ensures Gather(ResourceVerdicts(source, items, ids, ids), |items|) == [] <==> OneOwnerEach(Owners(items), listed)
  {
    GatherExact(ResourceVerdicts(source, items, ids, ids), |items|);
    OwnersClean(Owners(items), listed);
    ResourceVerdictsAre(source, items, ids);
    hide *;
  }

  lemma ProcessVerdictsAre(items: seq<Process>, ids: set<string>)
    ensures var v := ProcessVerdicts(items, ids, ids);
            forall i: nat | i < |items| ::
              && (v(i).None? <==>
                  GoodProcess(items[i]) && items[i].owner in ids &&
                  !SeenProcess(items, i, items[i].owner))
              && (v(i).Some? ==>
                  v(i).value.what == Item(Processes) && !v(i).value.kind.Mismatched? &&
                  !v(i).value.kind.Missing?)
              && (v(i).Some? ==> v(i).value.owner == items[i].owner)
              && (v(i).Some? ==> (v(i).value.kind == Orphan <==>
                                    GoodProcess(items[i]) && items[i].owner !in ids &&
                                      !SeenProcess(items, i, items[i].owner)))
  {
  }

  lemma ProcessesClean(items: seq<Process>, ids: set<string>, listed: seq<string>)
    requires forall o :: o in ids <==> o in listed
    ensures Gather(ProcessVerdicts(items, ids, ids), |items|) == [] <==>
            OneOwnerEach(ProcessOwners(items), listed) && forall p :: p in items ==> p.pid > 0
  {
    GatherExact(ProcessVerdicts(items, ids, ids), |items|);
    OwnersClean(ProcessOwners(items), listed);
    ProcessVerdictsAre(items, ids);
    hide Gather, OneOwnerEach, ProcessVerdicts, SeenProcess;
    if forall p :: p in items ==> p.pid > 0 {
      SeenAreOwners(items);
    }
  }

  lemma SeenAreOwners(items: seq<Process>)
    requires forall p :: p in items ==> p.pid > 0
    ensures forall i: nat | i < |items| && items[i].owner != "" ::
              SeenProcess(items, i, items[i].owner) <==> items[i].owner in ProcessOwners(items)[..i]
  {
  }

  /** No earlier key holds the same address. */
  lemma HolderFree(leases: map<string, string>, order: seq<string>)
    requires Visits(order, leases.Keys) && forall k :: k in leases ==> GoodLease(leases, k)
    ensures Injective(leases) <==>
            forall i :: 0 <= i < |order| ==> order[i] in leases && Holder(leases, order[..i], leases[order[i]]).None?
  {
    if Injective(leases) {
      forall i | 0 <= i < |order| ensures order[i] in leases && Holder(leases, order[..i], leases[order[i]]).None? {
        assert order[i] in order && order[i] !in order[..i];
      }
    } else {
      var k, k' :| k in leases && k' in leases && leases[k] == leases[k'] && k != k';
      assert k in order && k' in order;
      var i :| 0 <= i < |order| && order[i] == k;
      var j :| 0 <= j < |order| && order[j] == k';
      assert i < j ==> k in order[..j];
      assert j < i ==> k' in order[..i];
      HolderNone(leases, order[..j], leases[k']);
      HolderNone(leases, order[..i], leases[k]);
    }
  }

  lemma LeasesClean(leases: map<string, string>, order: seq<string>, ids: set<string>, listed: seq<string>)
    requires Visits(order, leases.Keys) && forall o :: o in ids <==> o in listed
    ensures Gather(LeaseVerdicts(leases, order, ids, ids), |order|) == [] <==>
            (forall id :: id in leases ==> GoodLease(leases, id) && id in listed) && Injective(leases)
  {
    var v := LeaseVerdicts(leases, order, ids, ids);
    GatherExact(v, |order|);
    forall i: nat | i < |order|
      ensures order[i] in leases
      ensures v(i).None? <==>
                GoodLease(leases, order[i]) && order[i] in listed &&
                Holder(leases, order[..i], leases[order[i]]).None?
    {
      assert order[i] in order;
      assert v(i) == LeaseVerdict(leases, order, i, ids, ids);
    }
    hide Gather, LeaseVerdicts, GoodLease, Injective, Holder;
    if (forall id :: id in leases ==> GoodLease(leases, id) && id in listed) {
      HolderFree(leases, order);
    } else {
      var id :| id in leases && !(GoodLease(leases, id) && id in listed);
      assert id in order;
      var i :| 0 <= i < |order| && order[i] == id;
      assert !v(i).None?;
    }
  }

  lemma FirstRowsDistinct(tasks: seq<TaskRow>)
    requires forall t :: t in tasks ==> GoodRow(t)
    ensures NoDup(Ids(tasks)) <==> forall i :: 0 <= i < |tasks| ==> FirstRow(tasks[..i], tasks[i].id).None?
  {
  }

  lemma TaskVerdictsAre(tasks: seq<TaskRow>)
    ensures forall i: nat | i < |tasks| ::
              TaskVerdicts(tasks)(i).None? <==> GoodRow(tasks[i]) && FirstRow(tasks[..i], tasks[i].id).None?
  {
  }

  lemma TasksClean(tasks: seq<TaskRow>)
    ensures Gather(TaskVerdicts(tasks), |tasks|) == [] <==>
            (forall t :: t in tasks ==> GoodRow(t)) && (forall id :: Count(Ids(tasks), id) <= 1)
  {
    GatherExact(TaskVerdicts(tasks), |tasks|);
    CountNoDup(Ids(tasks));
    TaskVerdictsAre(tasks);
    hide Gather, TaskVerdicts, GoodRow, FirstRow, NoDup, Count;
    if forall t :: t in tasks ==> GoodRow(t) {
      FirstRowsDistinct(tasks);
    }
  }

  /** Good rows are listed under their ids. */
  lemma IdsAre(tasks: seq<TaskRow>)
    requires forall t :: t in tasks ==> GoodRow(t)
    ensures forall id :: id in TaskIds(tasks) <==> id in Ids(tasks)
  {
  }

  lemma ActivityExact(inv: Inventory, t: TaskRow, need: Need)
    ensures ActivityDemands(inv, t, need, []) == [] <==>
            Count(ProcessOwners(inv.processes), t.vmid) == Count(Owners(inv.taps), t.vmid) == if need.One? then 1 else 0
  {
  }

  lemma AbsenceExact(inv: Inventory, t: TaskRow)
    ensures AbsenceDemands(inv, t, []) == [] <==>
            && Count(Owners(inv.vmDirectories), t.vmid) == Count(Owners(inv.rootfsDatasets), t.vmid) == 0
            && Count(Owners(inv.workspaceDatasets), t.id) == 0 && ActivityDemands(inv, t, Zero, []) == []
  {
  }

  lemma PresenceExact(inv: Inventory, t: TaskRow)
    ensures PresenceDemands(inv, t, []) == [] <==>
            && Count(Owners(inv.vmDirectories), t.vmid) == Count(Owners(inv.rootfsDatasets), t.vmid) == 1
            && Count(Owners(inv.workspaceDatasets), t.id) == 1 && t.id in inv.ipAllocations
  {
  }

  lemma DemandsExact(inv: Inventory, t: TaskRow)
    requires GoodRow(t)
    ensures Demands(inv, t, []) == [] <==> Accounted(inv, t)
  {
    ActivityExact(inv, t, One);
    ActivityExact(inv, t, Zero);
    AbsenceExact(inv, t);
    PresenceExact(inv, t);
    hide ActivityDemands, AbsenceDemands, PresenceDemands, Count;
  }

  lemma {:induction false} AllDemandsExact(inv: Inventory, rows: map<string, TaskRow>, order: seq<string>)
    requires forall k :: k in order ==> k in rows && GoodRow(rows[k])
    ensures AllDemands(inv, rows, order, []) == [] <==> forall k :: k in order ==> Accounted(inv, rows[k])
  {
    hide Demands, Accounted, GoodRow;
    if order == [] {
    } else {
      var n := |order| - 1;
      AllDemandsExact(inv, rows, order[..n]);
      DemandsExact(inv, rows[order[n]]);
      assert order == order[..n] + [order[n]];
    }
  }

  lemma OwnedClean(inv: Inventory)
    requires forall t :: t in inv.tasks ==> GoodRow(t)
    ensures FoundOwned(inv, TaskIds(inv.tasks)) == [] <==> OwnedOnce(inv)
  {
    var ids, listed := TaskIds(inv.tasks), Ids(inv.tasks);
    IdsAre(inv.tasks);
    hide TaskIds, GoodRow, Gather, OneOwnerEach;
    ResourcesClean(VmDirectories, inv.vmDirectories, ids, listed);
    ProcessesClean(inv.processes, ids, listed);
    ResourcesClean(RootfsDatasets, inv.rootfsDatasets, ids, listed);
    ResourcesClean(WorkspaceDatasets, inv.workspaceDatasets, ids, listed);
    ResourcesClean(Taps, inv.taps, ids, listed);
  }

  /** The loops find nothing exactly when the inventory is clean, whatever the visiting orders. */
  lemma CleanExact(inv: Inventory, leases: seq<string>, tasks: seq<string>)
    requires Visits(leases, inv.ipAllocations.Keys) && Visits(tasks, TaskIds(inv.tasks))
    ensures Found(inv, [], leases, tasks) == [] <==> Clean(inv)
  {
    hide Gather, OwnedOnce, AllDemands, Accounted, FirstRows, TaskIds, GoodLease, Injective, FoundOwned, CanonicalRow;
    TasksClean(inv.tasks);
    if (forall t :: t in inv.tasks ==> GoodRow(t)) && forall id :: Count(Ids(inv.tasks), id) <= 1 {
      OwnedClean(inv);
      IdsAre(inv.tasks);
      LeasesClean(inv.ipAllocations, leases, TaskIds(inv.tasks), Ids(inv.tasks));
      RowsAre(inv.tasks, tasks);
      AllDemandsExact(inv, FirstRows(inv.tasks), tasks);
      assert (forall k :: k in tasks ==> Accounted(inv, FirstRows(inv.tasks)[k])) <==>
             (forall t :: t in inv.tasks ==> Accounted(inv, t));
    }
  }

  /** Without duplicates the task table holds every row. */
  lemma RowsAre(tasks: seq<TaskRow>, order: seq<string>)
    requires (forall t :: t in tasks ==> GoodRow(t)) && (forall id :: Count(Ids(tasks), id) <= 1)
    requires Visits(order, TaskIds(tasks))
    ensures forall k :: k in order ==> k in FirstRows(tasks) && FirstRows(tasks)[k] in tasks
    ensures forall t :: t in tasks ==> t.id in order && FirstRows(tasks)[t.id] == t
  {
    CountNoDup(Ids(tasks));
    forall t | t in tasks ensures t.id in order && FirstRows(tasks)[t.id] == t {
      assert t.id in TaskIds(tasks);
      var r := FirstRow(tasks, t.id);
      var i :| 0 <= i < |tasks| && tasks[i] == t;
      var j :| 0 <= j < |tasks| && tasks[j] == r.value;
      assert Ids(tasks)[i] == Ids(tasks)[j];
    }
  }

  // ---- what exactly is reported -------------------------------------------------------------------------

  /** What is wrong with a task row, if anything, and what is reported. */
  predicate WrongTask(tasks: seq<TaskRow>, i: nat, m: Mismatch)
    requires i < |tasks|
  {
    var t := tasks[i];
    && m.owner == t.id && !m.running
    && match m.kind
       case Malformed =>
         && !CanonicalRow(t) && m.what == TheTaskRow
         && m.detail == Text("task id, vm id, and status must be canonical")
       case Mismatched => CanonicalRow(t) && t.id != t.vmid && m.what == TheTaskVm && m.detail == Text(t.vmid)
       case Duplicate =>
         && GoodRow(t) && (exists j :: 0 <= j < i && GoodRow(tasks[j]) && tasks[j].id == t.id)
         && m.what == TheTaskRow && m.detail == NoDetail
       case _ => false
  }

  lemma TaskReports(tasks: seq<TaskRow>, m: Mismatch)
    ensures m in Gather(TaskVerdicts(tasks), |tasks|) <==> exists i: nat :: i < |tasks| && WrongTask(tasks, i, m)
  {
    forall i: nat | i < |tasks| ensures TaskVerdicts(tasks)(i) == Some(m) <==> WrongTask(tasks, i, m) {
      OneTaskVerdict(tasks, i, m);
    }
    hide Gather, TaskVerdicts, WrongTask;
    GatherExact(TaskVerdicts(tasks), |tasks|);
  }

  lemma OneTaskVerdict(tasks: seq<TaskRow>, i: nat, m: Mismatch)
    requires i < |tasks|
    ensures TaskVerdicts(tasks)(i) == Some(m) <==> WrongTask(tasks, i, m)
  {
    hide CanonicalRow, FirstRow;
    TaskVerdictsAt(tasks, i);
    hide TaskVerdicts;
    EarlierRow(tasks, i);
    hide GoodRow;
  }

  lemma EarlierRow(tasks: seq<TaskRow>, i: nat)
    requires i < |tasks|
    ensures FirstRow(tasks[..i], tasks[i].id).Some? <==>
            exists j :: 0 <= j < i && GoodRow(tasks[j]) && tasks[j].id == tasks[i].id
  {
    hide CanonicalRow, FirstRow;
    if exists j :: 0 <= j < i && GoodRow(tasks[j]) && tasks[j].id == tasks[i].id {
      var j :| 0 <= j < i && GoodRow(tasks[j]) && tasks[j].id == tasks[i].id;
      assert tasks[j] in tasks[..i];
    }
  }

  /** What is wrong with a thing on the host, if anything, when these are the listed tasks. */
  predicate WrongResource(source: Source, items: seq<Resource>, ids: set<string>, i: nat, m: Mismatch)
    requires i < |items|
  {
    var o := items[i].owner;
    && m.what == Item(source) && m.owner == o && m.detail == Text(items[i].name) && !m.running
    && match m.kind
       case Malformed => o == ""
       case Duplicate => o != "" && exists j :: 0 <= j < i && items[j].owner == o
       case Orphan => o != "" && o !in ids && forall j :: 0 <= j < i ==> items[j].owner != o
       case _ => false
  }

  lemma ResourceReports(source: Source, items: seq<Resource>, ids: set<string>, m: Mismatch)
    ensures m in Gather(ResourceVerdicts(source, items, ids, ids), |items|) <==>
            exists i: nat :: i < |items| && WrongResource(source, items, ids, i, m)
  {
    forall i: nat | i < |items|
      ensures ResourceVerdicts(source, items, ids, ids)(i) == Some(m) <==> WrongResource(source, items, ids, i, m)
    {
      OneResourceVerdict(source, items, ids, i, m);
    }
    hide Gather, ResourceVerdicts, WrongResource;
    GatherExact(ResourceVerdicts(source, items, ids, ids), |items|);
  }

  lemma OneResourceVerdict(source: Source, items: seq<Resource>, ids: set<string>, i: nat, m: Mismatch)
    requires i < |items|
    ensures ResourceVerdicts(source, items, ids, ids)(i) == Some(m) <==> WrongResource(source, items, ids, i, m)
  {
    ResourceVerdictsAt(source, items, i, ids, ids);
    hide ResourceVerdicts;
    if items[i].owner in Owners(items[..i]) {
      var j :| 0 <= j < i && Owners(items[..i])[j] == items[i].owner;
      assert items[j].owner == items[i].owner;
    } else {
      assert forall j :: 0 <= j < i ==> Owners(items[..i])[j] == items[j].owner;
    }
  }

  /** The same for processes, of which only those with an owner and a real id are compared. */
  predicate WrongProcess(items: seq<Process>, ids: set<string>, i: nat, m: Mismatch)
    requires i < |items|
  {
    var p := items[i];
    var again := exists j :: 0 <= j < i && items[j].owner == p.owner && items[j].pid > 0;
    && m.what == Item(Processes) && m.owner == p.owner && m.detail == Pid(p.pid) && m.running == p.running
    && match m.kind
       case Malformed => p.owner == "" || p.pid <= 0
       case Duplicate => p.owner != "" && p.pid > 0 && again
       case Orphan => p.owner != "" && p.pid > 0 && p.owner !in ids && !again
       case _ => false
  }

  lemma ProcessReports(items: seq<Process>, ids: set<string>, m: Mismatch)
    ensures m in Gather(ProcessVerdicts(items, ids, ids), |items|) <==>
            exists i: nat :: i < |items| && WrongProcess(items, ids, i, m)
  {
    forall i: nat | i < |items|
      ensures ProcessVerdicts(items, ids, ids)(i) == Some(m) <==> WrongProcess(items, ids, i, m)
    {
      OneProcessVerdict(items, ids, i, m);
    }
    hide Gather, ProcessVerdicts, WrongProcess;
    GatherExact(ProcessVerdicts(items, ids, ids), |items|);
  }

  lemma OneProcessVerdict(items: seq<Process>, ids: set<string>, i: nat, m: Mismatch)
    requires i < |items|
    ensures ProcessVerdicts(items, ids, ids)(i) == Some(m) <==> WrongProcess(items, ids, i, m)
  {
    ProcessVerdictsAt(items, i, ids, ids);
    hide ProcessVerdicts;
    SeenIsAgain(items, i);
    hide SeenProcess;
  }

  lemma SeenIsAgain(items: seq<Process>, i: nat)
    requires i < |items|
    ensures items[i].owner != "" ==>
              (SeenProcess(items, i, items[i].owner) <==>
                 exists j :: 0 <= j < i && items[j].owner == items[i].owner && items[j].pid > 0)
  {
  }

  /** ... and for allocations, in the order in which they are visited; a duplicate names an earlier
      holder of its address. */
  ghost predicate WrongLease(leases: map<string, string>, order: seq<string>, ids: set<string>, i: nat, m: Mismatch)
    requires i < |order| && forall k :: k in order ==> k in leases
  {
    var id := order[i];
    && m.what == Item(IpAllocations) && m.owner == id && !m.running
    && match m.kind
       case Malformed => !GoodLease(leases, id) && m.detail == Text(leases[id])
       case Duplicate => GoodLease(leases, id) && m.detail.Shared? && m.detail.ip == leases[id] &&
                         FirstHolder(leases, order, i, m.detail.other)
       case Orphan => GoodLease(leases, id) && id !in ids && m.detail == Text(leases[id]) &&
                      !(exists j :: 0 <= j < i && GoodLease(leases, order[j]) && leases[order[j]] == leases[id])
       case _ => false
  }

  /** The first of the keys before the i-th to hold its address. */
  ghost predicate FirstHolder(leases: map<string, string>, order: seq<string>, i: nat, holder: string)
    requires i < |order| && forall k :: k in order ==> k in leases
  {
    exists j :: FirstAt(leases, order, i, leases[order[i]], j) && order[j] == holder
  }

  predicate FirstAt(leases: map<string, string>, order: seq<string>, n: nat, ip: string, j: int)
    requires n <= |order| && forall k :: k in order ==> k in leases
  {
    0 <= j < n && Holds(leases, order, j, ip) && forall k :: 0 <= k < j ==> !Holds(leases, order, k, ip)
  }

  predicate Holds(leases: map<string, string>, order: seq<string>, j: nat, ip: string)
    requires j < |order| && forall k :: k in order ==> k in leases
  {
    GoodLease(leases, order[j]) && leases[order[j]] == ip
  }

  lemma LeaseReports(leases: map<string, string>, order: seq<string>, ids: set<string>, m: Mismatch)
    requires forall k :: k in order ==> k in leases
    ensures m in Gather(LeaseVerdicts(leases, order, ids, ids), |order|) <==>
            exists i: nat :: i < |order| && WrongLease(leases, order, ids, i, m)
  {
    forall i: nat | i < |order| ensures LeaseVerdicts(leases, order, ids, ids)(i) == Some(m) <==>
                                        WrongLease(leases, order, ids, i, m)
    {
      OneLeaseVerdict(leases, order, ids, i, m);
    }
    hide Gather, LeaseVerdicts, WrongLease;
    GatherExact(LeaseVerdicts(leases, order, ids, ids), |order|);
  }

  lemma OneLeaseVerdict(leases: map<string, string>, order: seq<string>, ids: set<string>, i: nat, m: Mismatch)
    requires i < |order| && forall k :: k in order ==> k in leases
    ensures LeaseVerdicts(leases, order, ids, ids)(i) == Some(m) <==> WrongLease(leases, order, ids, i, m)
  {
    assert order[i] in order;
    assert LeaseVerdicts(leases, order, ids, ids)(i) == LeaseVerdictOf(leases, order[..i], order[i], ids, ids);
    hide LeaseVerdicts, GoodLease, Holder, FirstHolder;
    EarlierHolder(leases, order, i);
  }

  lemma EarlierHolder(leases: map<string, string>, order: seq<string>, i: nat)
    requires i < |order| && forall k :: k in order ==> k in leases
    ensures var before := Holder(leases, order[..i], leases[order[i]]);
            && (before.None? <==>
                  !exists j :: 0 <= j < i && GoodLease(leases, order[j]) && leases[order[j]] == leases[order[i]])
            && (before.Some? ==> FirstHolder(leases, order, i, before.value))
            && forall holder :: FirstHolder(leases, order, i, holder) ==> before == Some(holder)
  {
    HolderIs(leases, order, i, leases[order[i]]);
    hide GoodLease, Holder;
    forall holder | FirstHolder(leases, order, i, holder)
      ensures Holder(leases, order[..i], leases[order[i]]) == Some(holder)
    {
      var j :| FirstAt(leases, order, i, leases[order[i]], j) && order[j] == holder;
    }
  }

  lemma {:induction false} HolderIs(leases: map<string, string>, order: seq<string>, n: nat, ip: string)
    requires n <= |order| && forall k :: k in order ==> k in leases
    ensures var before := Holder(leases, order[..n], ip);
            if before.None? then forall j :: 0 <= j < n ==> !Holds(leases, order, j, ip)
            else exists j :: FirstAt(leases, order, n, ip, j) && order[j] == before.value
  {
    hide GoodLease;
    if n > 0 {
      HolderIs(leases, order, n - 1, ip);
      var s := order[..n];
      assert s[..n - 1] == order[..n - 1] && s[n - 1] == order[n - 1];
      var before := Holder(leases, order[..n - 1], ip);
      if before.Some? {
        var j :| FirstAt(leases, order, n - 1, ip, j) && order[j] == before.value;
        assert FirstAt(leases, order, n, ip, j);
      } else if Holds(leases, order, n - 1, ip) {
        assert FirstAt(leases, order, n, ip, n - 1);
      }
    }
  }

  /** What a task of each status needs of each kind of thing. */
  function Needed(status: string, source: Source): Option<Need> {
    match source
    case Tasks => None
    case IpAllocations => if status == "cleanup_pending" then None else Some(One)
    case VmDirectories => if status == "cleanup_pending" then Some(Zero) else Some(One)
    case RootfsDatasets => if status == "cleanup_pending" then Some(Zero) else Some(One)
    case WorkspaceDatasets => if status == "cleanup_pending" then Some(Zero) else Some(One)
    case Processes => NeededWhileUp(status)
    case Taps => NeededWhileUp(status)
  }

  function NeededWhileUp(status: string): Option<Need> {
    if status == "running" || status == "starting" then Some(One)
    else if status == "stopped" || status == "cleanup_pending" then Some(Zero)
    else None
  }

  /** How many things of one kind a task has. */
  function Holding(inv: Inventory, id: string, source: Source): nat {
    match source
    case Tasks => 0
    case VmDirectories => Count(Owners(inv.vmDirectories), id)
    case Processes => Count(ProcessOwners(inv.processes), id)
    case RootfsDatasets => Count(Owners(inv.rootfsDatasets), id)
    case WorkspaceDatasets => Count(Owners(inv.workspaceDatasets), id)
    case Taps => Count(Owners(inv.taps), id)
    case IpAllocations => LeaseCount(inv.ipAllocations, id)
  }

  /** A need that is not met is reported as missing, and an excess as mismatched, unless the listing
      could not be read. */
  predicate Unmet(inv: Inventory, t: TaskRow, m: Mismatch, unknown: seq<Source>) {
    m.what.Item? &&
    var source := m.what.source;
    var need := Needed(t.status, source);
    need.Some? && Complaint(t, need.value, source, Holding(inv, t.id, source), unknown, m)
  }

  predicate Complaint(t: TaskRow, need: Need, source: Source, count: nat, unknown: seq<Source>, m: Mismatch) {
    && source !in unknown && m.what == Item(source) && m.owner == t.id && !m.running
    && match need
       case One => count != 1 && m.kind == Missing && m.detail == Text("expected exactly one")
       case Zero => count != 0 && m.kind == Mismatched && m.detail == Text("cleanup_pending requires absence")
  }

  lemma DemandIs(t: TaskRow, need: Need, source: Source, count: nat, unknown: seq<Source>, m: Mismatch)
    ensures m in Demand(t, need, source, count, unknown) <==> Complaint(t, need, source, count, unknown, m)
    ensures Complaint(t, need, source, count, unknown, m) ==> m.what == Item(source)
  {
  }

  lemma ActivityIs(inv: Inventory, t: TaskRow, need: Need, unknown: seq<Source>, m: Mismatch)
    requires t.id == t.vmid
    ensures m in ActivityDemands(inv, t, need, unknown) <==>
            && m.what.Item? && m.what.source in {Processes, Taps}
            && Complaint(t, need, m.what.source, Holding(inv, t.id, m.what.source), unknown, m)
  {
    DemandIs(t, need, Processes, Holding(inv, t.id, Processes), unknown, m);
    DemandIs(t, need, Taps, Holding(inv, t.id, Taps), unknown, m);
    hide Demand, Complaint, Count, Owners, ProcessOwners;
  }

  lemma PresenceIs(inv: Inventory, t: TaskRow, unknown: seq<Source>, m: Mismatch)
    requires t.id == t.vmid
    ensures m in PresenceDemands(inv, t, unknown) <==>
            && m.what.Item? && m.what.source in {VmDirectories, RootfsDatasets, WorkspaceDatasets, IpAllocations}
            && Complaint(t, One, m.what.source, Holding(inv, t.id, m.what.source), unknown, m)
  {
    DemandIs(t, One, VmDirectories, Holding(inv, t.id, VmDirectories), unknown, m);
    DemandIs(t, One, RootfsDatasets, Holding(inv, t.id, RootfsDatasets), unknown, m);
    DemandIs(t, One, WorkspaceDatasets, Holding(inv, t.id, WorkspaceDatasets), unknown, m);
    DemandIs(t, One, IpAllocations, Holding(inv, t.id, IpAllocations), unknown, m);
    hide Demand, Complaint, Count, Owners, LeaseCount;
  }

  lemma AbsenceIs(inv: Inventory, t: TaskRow, unknown: seq<Source>, m: Mismatch)
    requires t.id == t.vmid
    ensures m in AbsenceDemands(inv, t, unknown) <==>
            && m.what.Item? && m.what.source !in {Tasks, IpAllocations}
            && Complaint(t, Zero, m.what.source, Holding(inv, t.id, m.what.source), unknown, m)
  {
    DemandIs(t, Zero, VmDirectories, Holding(inv, t.id, VmDirectories), unknown, m);
    DemandIs(t, Zero, RootfsDatasets, Holding(inv, t.id, RootfsDatasets), unknown, m);
    DemandIs(t, Zero, WorkspaceDatasets, Holding(inv, t.id, WorkspaceDatasets), unknown, m);
    ActivityIs(inv, t, Zero, unknown, m);
    hide Demand, Complaint, Count, Owners, ActivityDemands;
  }

  lemma DemandsAre(inv: Inventory, t: TaskRow, unknown: seq<Source>, m: Mismatch)
    requires t.id == t.vmid
    ensures m in Demands(inv, t, unknown) <==> Unmet(inv, t, m, unknown)
  {
    hide Complaint, Holding, AbsenceDemands, PresenceDemands, ActivityDemands;
    if t.status == "cleanup_pending" {
      AbsenceIs(inv, t, unknown, m);
    } else {
      LiveDemandsAre(inv, t, unknown, m);
    }
  }

  lemma LiveDemandsAre(inv: Inventory, t: TaskRow, unknown: seq<Source>, m: Mismatch)
    requires t.id == t.vmid && t.status != "cleanup_pending"
    ensures m in Demands(inv, t, unknown) <==> Unmet(inv, t, m, unknown)
  {
    hide Complaint, Holding, AbsenceDemands, PresenceDemands, ActivityDemands;
    PresenceIs(inv, t, unknown, m);
    if t.status == "running" || t.status == "starting" {
      ActivityIs(inv, t, One, unknown, m);
    } else if t.status == "stopped" {
      ActivityIs(inv, t, Zero, unknown, m);
    }
  }

  /** Over all tasks, for any listings that could not be read, exactly the unmet needs are reported;
      in particular nothing is said about a listing that could not be read. */
  lemma {:induction false} ExpectationsExact(inv: Inventory, rows: map<string, TaskRow>, order: seq<string>,
                                             unknown: seq<Source>, m: Mismatch)
    requires forall k :: k in order ==> k in rows && rows[k].id == rows[k].vmid
    ensures m in AllDemands(inv, rows, order, unknown) <==> exists k :: k in order && Unmet(inv, rows[k], m, unknown)
  {
    hide Demands, Unmet;
    if order == [] {
    } else {
      var n := |order| - 1;
      ExpectationsExact(inv, rows, order[..n], unknown, m);
      assert order[n] in order;
      DemandsAre(inv, rows[order[n]], unknown, m);
      assert AllDemands(inv, rows, order, unknown) ==
             AllDemands(inv, rows, order[..n], unknown) + Demands(inv, rows[order[n]], unknown);
      hide AllDemands;
      assert forall k :: k in order <==> k in order[..n] || k == order[n];
    }
  }

  // ---- orphans ------------------------------------------------------------------------------------------

  ghost predicate Reports(found: seq<Mismatch>, kind: Kind, owner: string) {
    exists m :: m in found && m.kind == kind && m.owner == owner
  }

  ghost predicate Says(v: Option<Mismatch>, kind: Kind, owner: string) {
    v.Some? && v.value.kind == kind && v.value.owner == owner
  }

  lemma ReportsExact(verdict: nat -> Option<Mismatch>, n: nat, kind: Kind, owner: string)
    ensures Reports(Gather(verdict, n), kind, owner) <==> exists i: nat :: i < n && Says(verdict(i), kind, owner)
  {
  }

  /** Nothing is reported that is about something else, nor as belonging to the wrong table. */
  ghost predicate Plain(found: seq<Mismatch>, source: Source) {
    forall m :: m in found ==> m.what == Item(source) && !m.kind.Mismatched? && !m.kind.Missing?
  }

  lemma PlainIf(verdict: nat -> Option<Mismatch>, n: nat, source: Source)
    requires forall i: nat | i < n && verdict(i).Some? ::
               var m := verdict(i).value; m.what == Item(source) && !m.kind.Mismatched? && !m.kind.Missing?
    ensures Plain(Gather(verdict, n), source)
  {
  }

  /** Both task tables have the same keys, so an owner is never reported as belonging to the
      wrong table: the owners reported as orphans are exactly the unlisted ones. */
  lemma ResourceOrphans(source: Source, items: seq<Resource>, ids: set<string>, o: string)
    ensures Plain(Gather(ResourceVerdicts(source, items, ids, ids), |items|), source)
    ensures Reports(Gather(ResourceVerdicts(source, items, ids, ids), |items|), Orphan, o) <==>
            o != "" && o in Owners(items) && o !in ids
  {
    var v := ResourceVerdicts(source, items, ids, ids);
    ResourceVerdictsAre(source, items, ids);
    hide Gather, ResourceVerdicts, Reports, Plain;
    PlainIf(v, |items|, source);
    ReportsExact(v, |items|, Orphan, o);
    if o != "" && o in Owners(items) && o !in ids {
      assert Says(v(FirstIndex(Owners(items), o)), Orphan, o);
    } else {
      forall i: nat | i < |items| ensures !Says(v(i), Orphan, o) {
        assert Owners(items)[i] in Owners(items);
      }
    }
  }

  function FirstIndex(s: seq<string>, x: string): (i: nat)
    requires x in s
    ensures i < |s| && s[i] == x && x !in s[..i]
  {
    if s[0] == x then 0
    else
      var k := FirstIndex(s[1..], x);
      assert s[..k + 1] == [s[0]] + s[1..][..k];
      k + 1
  }

  lemma ProcessOrphans(items: seq<Process>, ids: set<string>, o: string)
    ensures Plain(Gather(ProcessVerdicts(items, ids, ids), |items|), Processes)
    ensures Reports(Gather(ProcessVerdicts(items, ids, ids), |items|), Orphan, o) <==>
            SeenProcess(items, |items|, o) && o !in ids
  {
    var v := ProcessVerdicts(items, ids, ids);
    ProcessVerdictsAre(items, ids);
    hide Gather, ProcessVerdicts, Reports, Plain;
    PlainIf(v, |items|, Processes);
    ReportsExact(v, |items|, Orphan, o);
    if SeenProcess(items, |items|, o) && o !in ids {
      var i := FirstSeen(items, |items|, o);
      assert Says(v(i), Orphan, o);
    } else {
      forall i: nat | i < |items| ensures !Says(v(i), Orphan, o) {
        assert items[i].owner == o && GoodProcess(items[i]) ==> SeenProcess(items, |items|, o);
      }
    }
  }

  lemma {:induction false} FirstSeen(items: seq<Process>, n: nat, o: string) returns (i: nat)
    requires n <= |items| && SeenProcess(items, n, o)
    ensures i < n && items[i].owner == o && GoodProcess(items[i]) && !SeenProcess(items, i, o)
  {
    if SeenProcess(items, n - 1, o) {
      i := FirstSeen(items, n - 1, o);
    } else {
      i := n - 1;
    }
  }

  /** An allocation reported as an orphan is well formed and belongs to no listed task. */
  lemma LeaseOrphans(leases: map<string, string>, order: seq<string>, ids: set<string>, o: string)
    requires Visits(order, leases.Keys)
    ensures Reports(Gather(LeaseVerdicts(leases, order, ids, ids), |order|), Orphan, o) ==>
              o in leases && GoodLease(leases, o) && o !in ids
  {
    var v := LeaseVerdicts(leases, order, ids, ids);
    LeaseVerdictsAre(leases, order, ids);
    hide Gather, LeaseVerdicts, Injective, GoodLease, Holder, Reports;
    ReportsExact(v, |order|, Orphan, o);
  }

  /** A well-formed allocation to an unlisted task is reported, as an orphan or for its address. */
  lemma UnlistedLeases(leases: map<string, string>, order: seq<string>, ids: set<string>, o: string)
    requires Visits(order, leases.Keys)
    requires o in leases && GoodLease(leases, o) && o !in ids
    ensures var found := Gather(LeaseVerdicts(leases, order, ids, ids), |order|);
            Reports(found, Orphan, o) || Reports(found, Duplicate, o)
  {
    var v := LeaseVerdicts(leases, order, ids, ids);
    LeaseVerdictsAre(leases, order, ids);
    hide Gather, LeaseVerdicts, Injective, GoodLease, Holder, Reports;
    ReportsExact(v, |order|, Orphan, o);
    ReportsExact(v, |order|, Duplicate, o);
    assert o in order;
    var i: nat :| i < |order| && order[i] == o;
    assert Says(v(i), Orphan, o) || Says(v(i), Duplicate, o);
  }

  /** No allocation is reported as belonging to the wrong table, and none as a duplicate where
      no two tasks share an address. */
  lemma LeasesPlain(leases: map<string, string>, order: seq<string>, ids: set<string>, o: string)
    requires Visits(order, leases.Keys)
    ensures Plain(Gather(LeaseVerdicts(leases, order, ids, ids), |order|), IpAllocations)
    ensures Injective(leases) ==> !Reports(Gather(LeaseVerdicts(leases, order, ids, ids), |order|), Duplicate, o)
  {
    LeaseVerdictsAre(leases, order, ids);
    hide Gather, LeaseVerdicts, Injective, GoodLease, Holder, Reports, Plain;
    PlainIf(LeaseVerdicts(leases, order, ids, ids), |order|, IpAllocations);
    ReportsExact(LeaseVerdicts(leases, order, ids, ids), |order|, Duplicate, o);
  }

  lemma LeaseVerdictsAre(leases: map<string, string>, order: seq<string>, ids: set<string>)
    requires Visits(order, leases.Keys)
    ensures var v := LeaseVerdicts(leases, order, ids, ids);
            forall i: nat | i < |order| ::
              && order[i] in leases
              && (v(i).None? <==>
                  GoodLease(leases, order[i]) && Holder(leases, order[..i], leases[order[i]]).None? &&
                  order[i] in ids)
              && (v(i).Some? ==>
                    && v(i).value.owner == order[i] && v(i).value.what == Item(IpAllocations)
                    && !v(i).value.kind.Mismatched? && !v(i).value.kind.Missing?
                    && (v(i).value.kind == Malformed <==> !GoodLease(leases, order[i]))
                    && (v(i).value.kind == Orphan ==> order[i] !in ids)
                    && (Injective(leases) ==> v(i).value.kind != Duplicate))
  {
  }

  // ---- order does not matter ------------------------------------------------------------------------------

  ghost predicate Shuffled(inv: Inventory, inv': Inventory) {
    && multiset(inv.tasks) == multiset(inv'.tasks)
    && multiset(inv.vmDirectories) == multiset(inv'.vmDirectories)
    && multiset(inv.processes) == multiset(inv'.processes)
    && multiset(inv.rootfsDatasets) == multiset(inv'.rootfsDatasets)
    && multiset(inv.workspaceDatasets) == multiset(inv'.workspaceDatasets)
    && multiset(inv.taps) == multiset(inv'.taps)
    && inv.ipAllocations == inv'.ipAllocations
  }

  function Mapped<T>(s: seq<T>, f: T -> string): (r: seq<string>)
    ensures |r| == |s| && forall i :: 0 <= i < |r| ==> r[i] == f(s[i])
  {
    seq(|s|, i requires 0 <= i < |s| => f(s[i]))
  }

  lemma TakeOut<T>(s: seq<T>, k: nat, f: T -> string)
    requires k < |s|
    ensures var rest := s[..k] + s[k + 1..];
            && multiset(s) - multiset{s[k]} == multiset(rest)
            && multiset(Mapped(s, f)) == multiset(Mapped(rest, f)) + multiset{f(s[k])}
  {
    var m := Mapped(s, f);
    assert s == s[..k] + [s[k]] + s[k + 1..];
    assert m == m[..k] + [m[k]] + m[k + 1..];
    assert Mapped(s[..k] + s[k + 1..], f) == m[..k] + m[k + 1..];
  }

  lemma {:induction false} ShuffleMaps<T>(a: seq<T>, b: seq<T>, f: T -> string)
    requires multiset(a) == multiset(b)
    ensures multiset(Mapped(a, f)) == multiset(Mapped(b, f))
    decreases |a|
  {
    if a == [] {
      assert |multiset(b)| == |b|;
    } else {
      var n := |a| - 1;
      assert a[n] in multiset(a);
      var k :| 0 <= k < |b| && b[k] == a[n];
      TakeOut(a, n, f);
      TakeOut(b, k, f);
      assert a[..n] + a[n + 1..] == a[..n];
      assert multiset(a[..n]) == multiset(a) - multiset{a[n]} == multiset(b) - multiset{b[k]};
      hide Mapped;
      ShuffleMaps(a[..n], b[..k] + b[k + 1..], f);
    }
  }

  lemma ShuffleMembers<T>(a: seq<T>, b: seq<T>)
    requires multiset(a) == multiset(b)
    ensures forall x :: x in a <==> x in b
  {
    forall x ensures x in a <==> x in b {
      assert x in a <==> x in multiset(a);
      assert x in b <==> x in multiset(b);
    }
  }

  lemma ShuffleOwners(a: seq<Resource>, b: seq<Resource>)
    requires multiset(a) == multiset(b)
    ensures multiset(Owners(a)) == multiset(Owners(b))
  {
    var f := (r: Resource) => r.owner;
    ShuffleMaps(a, b, f);
    assert Owners(a) == Mapped(a, f) && Owners(b) == Mapped(b, f);
  }

  lemma ShuffleIds(inv: Inventory, inv': Inventory)
    requires Shuffled(inv, inv')
    ensures multiset(Ids(inv.tasks)) == multiset(Ids(inv'.tasks))
    ensures multiset(ProcessOwners(inv.processes)) == multiset(ProcessOwners(inv'.processes))
  {
    var f, g := (t: TaskRow) => t.id, (p: Process) => p.owner;
    ShuffleMaps(inv.tasks, inv'.tasks, f);
    ShuffleMaps(inv.processes, inv'.processes, g);
    assert Ids(inv.tasks) == Mapped(inv.tasks, f) && Ids(inv'.tasks) == Mapped(inv'.tasks, f);
    assert ProcessOwners(inv.processes) == Mapped(inv.processes, g);
    assert ProcessOwners(inv'.processes) == Mapped(inv'.processes, g);
  }

  lemma ShuffleOwnedEach(a: seq<string>, b: seq<string>, ids: seq<string>, ids': seq<string>)
    requires multiset(a) == multiset(b) && multiset(ids) == multiset(ids')
    ensures OneOwnerEach(a, ids) <==> OneOwnerEach(b, ids')
  {
    ShuffleMembers(a, b);
    ShuffleMembers(ids, ids');
    assert forall o :: Count(a, o) == Count(b, o);
  }

  lemma ShuffleAccounted(inv: Inventory, inv': Inventory)
    requires Shuffled(inv, inv')
    ensures forall t :: Accounted(inv, t) == Accounted(inv', t)
  {
    ShuffleIds(inv, inv');
    ShuffleOwners(inv.vmDirectories, inv'.vmDirectories);
    ShuffleOwners(inv.rootfsDatasets, inv'.rootfsDatasets);
    ShuffleOwners(inv.workspaceDatasets, inv'.workspaceDatasets);
    ShuffleOwners(inv.taps, inv'.taps);
    hide Owners, ProcessOwners;
  }

  lemma ShuffleOwnedOnce(inv: Inventory, inv': Inventory)
    requires Shuffled(inv, inv')
    ensures OwnedOnce(inv) <==> OwnedOnce(inv')
  {
    hide OneOwnerEach, Owners, ProcessOwners, Ids;
    var ids, ids' := Ids(inv.tasks), Ids(inv'.tasks);
    ShuffleIds(inv, inv');
    ShuffleOwners(inv.vmDirectories, inv'.vmDirectories);
    ShuffleOwners(inv.rootfsDatasets, inv'.rootfsDatasets);
    ShuffleOwners(inv.workspaceDatasets, inv'.workspaceDatasets);
    ShuffleOwners(inv.taps, inv'.taps);
    ShuffleMembers(inv.processes, inv'.processes);
    ShuffleOwnedEach(Owners(inv.vmDirectories), Owners(inv'.vmDirectories), ids, ids');
    ShuffleOwnedEach(ProcessOwners(inv.processes), ProcessOwners(inv'.processes), ids, ids');
    ShuffleOwnedEach(Owners(inv.rootfsDatasets), Owners(inv'.rootfsDatasets), ids, ids');
    ShuffleOwnedEach(Owners(inv.workspaceDatasets), Owners(inv'.workspaceDatasets), ids, ids');
    ShuffleOwnedEach(Owners(inv.taps), Owners(inv'.taps), ids, ids');
  }

  /** The verdict does not depend on the order of any listing. */
  lemma CleanOrderFree(inv: Inventory, inv': Inventory)
    requires Shuffled(inv, inv')
    ensures Clean(inv) <==> Clean(inv')
  {
    hide OwnedOnce, Accounted, GoodLease, CanonicalRow, Injective, Ids;
    ShuffleIds(inv, inv');
    ShuffleAccounted(inv, inv');
    ShuffleOwnedOnce(inv, inv');
    ShuffleMembers(inv.tasks, inv'.tasks);
    ShuffleMembers(Ids(inv.tasks), Ids(inv'.tasks));
    assert forall o :: Count(Ids(inv.tasks), o) == Count(Ids(inv'.tasks), o);
    hide Count;
  }
}
