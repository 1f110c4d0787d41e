/**
 The IP pool: persist-then-commit allocation and release, and reload after a restart.
 The pure functions say what one operation does to memory and to the state file for each
 outcome of the save; the class does the same work in place, file steps included.
 */
module IpPool {
  import opened Common
  import opened IPv4
  import opened AllocationDoc

  type Id = string

  /** How a save ended: complete, failed with the old file in place, or failed after the rename. */
  datatype Persist = Stored | NotStored | StoredUnsure

  /** Memory (leased, available) and the map recorded in the state file. */
  datatype Pool = Pool(leased: map<Id, string>, available: seq<string>, disk: map<Id, string>)

  function Saved(disk: map<Id, string>, proposed: map<Id, string>, o: Persist): map<Id, string> {
    if o.NotStored? then disk else proposed
  }

  function Allocate(p: Pool, vm: Id, o: Persist): (Pool, Result<string>) {
    if vm in p.leased then (p, Ok(p.leased[vm]))
    else if p.available == [] then (p, Err)
    else
      var ip := p.available[0];
      var proposed := p.leased[vm := ip];
      if o.Stored? then (Pool(proposed, p.available[1..], proposed), Ok(ip))
      else (p.(disk := Saved(p.disk, proposed, o)), Err)
  }

  function Release(p: Pool, vm: Id, o: Persist): (Pool, Result<()>) {
    if vm !in p.leased then (p, Ok(()))
    else
      var proposed := p.leased - {vm};
      if o.Stored? then (Pool(proposed, p.available + [p.leased[vm]], proposed), Ok(()))
      else (p.(disk := Saved(p.disk, proposed, o)), Err)
  }

  function Without(s: seq<string>, gone: set<string>): seq<string> {
    if s == [] then [] else (if s[0] in gone then [] else [s[0]]) + Without(s[1..], gone)
  }

  /** A restarted daemon builds a new pool and loads the state file. */
  function Reload(p: Pool, usable: seq<string>): Pool {
    Pool(p.disk, Without(usable, p.disk.Values), p.disk)
  }

  // ---- invariant over every run ---------------------------------------------------------

  /** The usable addresses are the disjoint union of the leased ones and the available
      list, nothing twice. */
  ghost predicate Partition(leased: map<Id, string>, available: seq<string>, usable: seq<string>) {
    && NoDup(available)
    && Injective(leased)
    && (forall id :: id in leased ==> leased[id] in usable && leased[id] !in available)
    && (forall a :: a in available ==> a in usable)
    && (forall u :: u in usable ==> u in available || u in leased.Values)
  }

  ghost predicate Inv(p: Pool, usable: seq<string>) {
    && Partition(p.leased, p.available, usable)
    && Injective(p.disk)
    && forall id :: id in p.disk ==> p.disk[id] in usable
  }

  lemma AllocateKeepsInv(p: Pool, usable: seq<string>, vm: Id, o: Persist)
    requires Inv(p, usable)
    ensures Inv(Allocate(p, vm, o).0, usable)
  {
    var p' := Allocate(p, vm, o).0;
    if vm !in p.leased && p.available != [] {
      var ip := p.available[0];
      var proposed := p.leased[vm := ip];
      assert ip in p.available;
      assert Injective(proposed);
      if o.Stored? {
        assert proposed[vm] == ip && ip in proposed.Values;
        forall u | u in usable ensures u in p'.available || u in p'.leased.Values {
          if u in p.leased.Values {
            var id :| id in p.leased && p.leased[id] == u;
            assert proposed[id] == u;
          }
        }
      }
    }
  }

  lemma ReleaseKeepsInv(p: Pool, usable: seq<string>, vm: Id, o: Persist)
    requires Inv(p, usable)
    ensures Inv(Release(p, vm, o).0, usable)
  {
    var p' := Release(p, vm, o).0;
    if vm in p.leased && o.Stored? {
      var ip := p.leased[vm];
      forall u | u in usable ensures u in p'.available || u in p'.leased.Values {
        if u in p.leased.Values && u != ip {
          var id :| id in p.leased && p.leased[id] == u;
          assert p'.leased[id] == u;
        }
      }
      forall a | a in p'.available ensures a in usable {
        assert a in p.available || a == ip;
      }
    }
  }

  lemma {:induction false} WithoutExact(s: seq<string>, gone: set<string>)
    ensures forall x :: x in Without(s, gone) <==> x in s && x !in gone
    ensures NoDup(s) ==> NoDup(Without(s, gone))
  {
    if s == [] {
    } else {
      WithoutExact(s[1..], gone);
    }
  }

  lemma ReloadKeepsInv(p: Pool, usable: seq<string>)
    requires NoDup(usable) && Inv(p, usable)
    ensures Inv(Reload(p, usable), usable)
  {
    WithoutExact(usable, p.disk.Values);
    var p' := Reload(p, usable);
    forall id | id in p'.leased ensures p'.leased[id] !in p'.available {
      assert p.disk[id] in p.disk.Values;
    }
  }

  datatype Op = AllocateOp(vm: Id, o: Persist) | ReleaseOp(vm: Id, o: Persist) | ReloadOp

  function Apply(p: Pool, usable: seq<string>, op: Op): Pool {
    match op
    case AllocateOp(vm, o) => Allocate(p, vm, o).0
    case ReleaseOp(vm, o) => Release(p, vm, o).0
    case ReloadOp => Reload(p, usable)
  }

  function Exec(p: Pool, usable: seq<string>, ops: seq<Op>): Pool
    decreases |ops|
  {
    if ops == [] then p else Exec(Apply(p, usable, ops[0]), usable, ops[1..])
  }

  function Fresh(usable: seq<string>): Pool {
    Pool(map[], usable, map[])
  }

  /** Every run of allocations, releases, save failures and restarts keeps the partition. */
  lemma {:induction false} RunKeepsInv(p: Pool, usable: seq<string>, ops: seq<Op>)
    requires NoDup(usable) && Inv(p, usable)
    ensures Inv(Exec(p, usable, ops), usable)
    decreases |ops|
  {
    if ops == [] {
    } else {
      match ops[0] {
        case AllocateOp(vm, o) => AllocateKeepsInv(p, usable, vm, o);
        case ReleaseOp(vm, o) => ReleaseKeepsInv(p, usable, vm, o);
        case ReloadOp => ReloadKeepsInv(p, usable);
      }
      RunKeepsInv(Apply(p, usable, ops[0]), usable, ops[1..]);
    }
  }

  /** In particular, for the addresses the pool really generates. */
  lemma GeneratedPoolKeepsPartition(net: Net, gateway: string, ops: seq<Op>)
    requires net.Valid()
    ensures var usable := UsableList(net, gateway);
            var p := Exec(Fresh(usable), usable, ops);
            && Partition(p.leased, p.available, usable)
            && forall id :: id in p.leased ==> InPool(net, gateway, p.leased[id])
  {
    var usable := UsableList(net, gateway);
    UsableTextExact(net, gateway);
    RunKeepsInv(Fresh(usable), usable, ops);
  }

  /** Allocation is idempotent per VM, and stays so across every later operation on other
      VMs, every failed save and every restart, until the VM itself is released. */
  lemma {:induction false} AllocationSticks(p: Pool, usable: seq<string>, vm: Id, ip: string, ops: seq<Op>)
    requires vm in p.leased && p.leased[vm] == ip && vm in p.disk && p.disk[vm] == ip
    requires forall i :: 0 <= i < |ops| ==> !(ops[i].ReleaseOp? && ops[i].vm == vm)
    ensures forall o :: Allocate(Exec(p, usable, ops), vm, o) == (Exec(p, usable, ops), Ok(ip))
    decreases |ops|
  {
    if ops == [] {
    } else {
      var p' := Apply(p, usable, ops[0]);
      assert !(ops[0].ReleaseOp? && ops[0].vm == vm);
      assert vm in p'.leased && p'.leased[vm] == ip && vm in p'.disk && p'.disk[vm] == ip;
      AllocationSticks(p', usable, vm, ip, ops[1..]);
    }
  }

  /** In particular a new address that has been handed out stays with its VM, over every later
      run in which the VM is not released, restarts and failed saves included. */
  lemma AllocatedForGood(p: Pool, usable: seq<string>, vm: Id, o: Persist, ops: seq<Op>)
    requires Allocate(p, vm, o).1.Ok? && vm !in p.leased
    requires forall i :: 0 <= i < |ops| ==> !(ops[i].ReleaseOp? && ops[i].vm == vm)
    ensures var (p', r) := Allocate(p, vm, o);
            forall again :: Allocate(Exec(p', usable, ops), vm, again).1 == r
  {
    var (p', r) := Allocate(p, vm, o);
    AllocationSticks(p', usable, vm, r.value, ops);
  }

  /** After a restart the first address that is free in pool order is the next one handed out. */
  lemma FirstAfterReload(p: Pool, usable: seq<string>, vm: Id, i: nat)
    requires vm !in p.disk && i < |usable| && usable[i] !in p.disk.Values
    requires forall j :: 0 <= j < i ==> usable[j] in p.disk.Values
    ensures Allocate(Reload(p, usable), vm, Stored).1 == Ok(usable[i])
  {
    FirstWithout(usable, p.disk.Values, i);
  }

  lemma {:induction false} FirstWithout(s: seq<string>, gone: set<string>, i: nat)
    requires i < |s| && s[i] !in gone && forall j :: 0 <= j < i ==> s[j] in gone
    ensures Without(s, gone) != [] && Without(s, gone)[0] == s[i]
  {
    if i > 0 {
      FirstWithout(s[1..], gone, i - 1);
    }
  }

  // ---- what the audit reads ---------------------------------------------------------------

  /** For every /24 pool with a canonical gateway, every document the pool can write with
      canonical ids is accepted by the audit's strict reader as the recorded map, and a fresh
      pool that loads it has that map and exactly the remaining addresses. */
  lemma WrittenStateIsAuditable(subnet: Addr, gateway: string, pool: AuditPool, ops: seq<Op>, doc: Doc)
    requires AuditPoolOf(subnet, 24, gateway) == Some(pool)
    requires forall i :: 0 <= i < |ops| && ops[i].AllocateOp? ==> IsCanonicalId(ops[i].vm)
    ensures var usable := UsableList(pool.net, gateway);
            var p := Exec(Fresh(usable), usable, ops);
            Renders(doc, p.disk) ==>
              && (exists items :: IsDoc(doc, items) && Good(items, pool) && MapOf(items) == p.disk)
              && Unmarshal(doc) == Ok(p.disk)
              && Partition(p.disk, Without(usable, p.disk.Values), usable)
  {
    var usable := UsableList(pool.net, gateway);
    var p := Exec(Fresh(usable), usable, ops);
    UsableTextExact(pool.net, gateway);
    forall k ensures UsableInAudit(k, pool) <==> k in usable {
      SameUsableSet(subnet, 24, gateway, k);
    }
    hide UsableList, AuditPoolOf, UsableInAudit;
    RunKeepsInv(Fresh(usable), usable, ops);
    RunKeepsIds(Fresh(usable), usable, ops);
    ReloadKeepsInv(p, usable);
    hide Exec, IsDoc, Unmarshal;
    if Renders(doc, p.disk) {
      UnmarshalRendered(doc, p.disk);
      var items :| IsDoc(doc, items) && DistinctKeys(items) && MapOf(items) == p.disk;
      RenderedIsGood(doc, p.disk, pool, items);
    }
  }

  lemma {:induction false} RunKeepsIds(p: Pool, usable: seq<string>, ops: seq<Op>)
    requires forall i :: 0 <= i < |ops| && ops[i].AllocateOp? ==> IsCanonicalId(ops[i].vm)
    requires forall k :: k in p.leased || k in p.disk ==> IsCanonicalId(k)
    ensures var p' := Exec(p, usable, ops); forall k :: k in p'.leased || k in p'.disk ==> IsCanonicalId(k)
    decreases |ops|
  {
    if ops == [] {
    } else {
      var p' := Apply(p, usable, ops[0]);
      assert forall k :: k in p'.leased || k in p'.disk ==>
               k in p.leased || k in p.disk || (ops[0].AllocateOp? && k == ops[0].vm);
      RunKeepsIds(p', usable, ops[1..]);
    }
  }

  // ---- the mutable pool ---------------------------------------------------------------------

  /** Success of each file operation of one save; `complete` is false for a short write. */
  datatype SaveSteps = SaveSteps(mkdir: bool, create: bool, write: bool, complete: bool, sync: bool, close: bool,
                                 rename: bool, openDir: bool, syncDir: bool, removeTemp: bool)
  {
    predicate Renamed() { mkdir && create && write && complete && sync && close && rename }

    function Outcome(): Persist {
      if !Renamed() then NotStored else if openDir && syncDir then Stored else StoredUnsure
    }
  }

  lemma {:induction false} WithoutTwice(s: seq<string>, gone: set<string>, x: string)
    ensures Without(Without(s, gone), {x}) == Without(s, gone + {x})
  {
    if s == [] {
    } else {
      WithoutTwice(s[1..], gone, x);
      var v := Without(s[1..], gone);
      assert ([s[0]] + v)[1..] == v && [] + v == v;
    }
  }

  lemma {:induction false} WithoutAbsent(s: seq<string>, x: string)
    requires x !in s
    ensures Without(s, {x}) == s
  {
    if s == [] {
    } else {
      WithoutAbsent(s[1..], x);
    }
  }

  /** Splicing out the one occurrence of an address is the same as filtering it out. */
  lemma {:induction false} DropAt(s: seq<string>, x: string, i: nat)
    requires NoDup(s) && i < |s| && s[i] == x
    ensures Without(s, {x}) == s[..i] + s[i + 1..]
  {
    if i == 0 {
      WithoutAbsent(s[1..], x);
      assert s[..0] + s[1..] == s[1..];
    } else {
      DropAt(s[1..], x, i - 1);
      assert s[..i] == [s[0]] + s[1..][..i - 1];
      assert s[i + 1..] == s[1..][i..];
    }
  }

  class IPPool {
    const net: Net
    const gateway: string
    var leased: map<Id, string>
    var available: seq<string>
    var file: Option<Doc>
    var tempFiles: nat
    ghost var disk: map<Id, string>

    /** The file holds `disk`; a missing file stands for the empty map. */
    ghost predicate Valid()
      reads this
    {
      if file.Some? then Renders(file.value, disk) else disk == map[]
    }

    ghost function View(): Pool
      reads this
    {
      Pool(leased, available, disk)
    }

    constructor (net: Net, gateway: string, file: Option<Doc>, ghost disk: map<Id, string>)
      requires net.Valid()
      requires if file.Some? then Renders(file.value, disk) else disk == map[]
      ensures Valid() && this.net == net && this.gateway == gateway && this.file == file && this.disk == disk
      ensures leased == map[] && available == UsableList(net, gateway)
    {
      this.net, this.gateway, this.file, this.disk := net, gateway, file, disk;
      leased, tempFiles := map[], 0;
      new;
      available := GenerateAvailable(net, gateway);
    }

    /** Save a proposed map through a temporary file; only a completed rename changes the file. */
    method PersistLocked(proposed: map<Id, string>, st: SaveSteps) returns (ok: bool)
      requires Valid()
      modifies `file, `disk, `tempFiles
      ensures Valid()
      ensures ok <==> st.Outcome().Stored?
      ensures disk == Saved(old(disk), proposed, st.Outcome())
      ensures st.Outcome().NotStored? ==> file == old(file)
      ensures tempFiles == old(tempFiles) + if st.mkdir && st.create && !st.Renamed() && !st.removeTemp then 1 else 0
    {
      var data := Marshal(proposed);
      if !st.mkdir || !st.create {
        return false;
      }
      tempFiles := tempFiles + 1;
      if !st.write || !st.complete || !st.sync || !st.close || !st.rename {
        tempFiles := if st.removeTemp then tempFiles - 1 else tempFiles;
        return false;
      }
      file, disk, tempFiles := Some(data), proposed, tempFiles - 1;
      if !st.openDir || !st.syncDir {
        return false;
      }
      return true;
    }

    method AllocateIP(vm: Id, st: SaveSteps) returns (r: Result<string>)
      requires Valid()
      modifies this
      ensures Valid()
      ensures (View(), r) == Allocate(old(View()), vm, st.Outcome())
      ensures disk == old(disk) || (vm !in old(leased) && old(available) != [] &&
                                    disk == old(leased)[vm := old(available)[0]])
      ensures vm in old(leased) ==> r == Ok(old(leased)[vm])
      ensures vm !in old(leased) ==> (r.Ok? <==> old(available) != [] && st.Outcome().Stored?)
      ensures vm !in old(leased) && r.Ok? ==>
                && r.value == old(available)[0] && available == old(available)[1..]
                && leased == disk == old(leased)[vm := r.value]
      ensures vm in old(leased) || r.Err? ==> leased == old(leased) && available == old(available)
    {
      if vm in leased {
        return Ok(leased[vm]);
      }
      if |available| == 0 {
        return Err;
      }
      var ip := available[0];
      var allocations := leased[vm := ip];
      var ok := PersistLocked(allocations, st);
      if !ok {
        return Err;
      }
      leased := allocations;
      available := available[1..];
      return Ok(ip);
    }

    method ReleaseIP(vm: Id, st: SaveSteps) returns (r: Result<()>)
      requires Valid()
      modifies this
      ensures Valid()
      ensures (View(), r) == Release(old(View()), vm, st.Outcome())
      ensures disk == old(disk) || disk == old(leased) - {vm}
      ensures r.Err? <==> vm in old(leased) && !st.Outcome().Stored?
      ensures vm in old(leased) && r.Ok? ==>
                leased == disk == old(leased) - {vm} && available == old(available) + [old(leased)[vm]]
      ensures vm !in old(leased) || r.Err? ==> leased == old(leased) && available == old(available)
    {
      if vm !in leased {
        return Ok(());
      }
      var ip := leased[vm];
      var allocations := leased - {vm};
      var ok := PersistLocked(allocations, st);
      if !ok {
        return Err;
      }
      leased := allocations;
      available := available + [ip];
      return Ok(());
    }

    /** Take an address out of the available list, if it is there. */
    method RemoveAvailable(ip: string, ghost all: seq<string>, ghost gone: set<string>)
      requires NoDup(all) && available == Without(all, gone)
      modifies `available
      ensures available == Without(all, gone + {ip})
    {
      var i := 0;
      while i < |available|
        invariant 0 <= i <= |available|
        invariant available == old(available)
        invariant ip !in available[..i]
      {
        if available[i] == ip {
          WithoutExact(all, gone);
          DropAt(available, ip, i);
          WithoutTwice(all, gone, ip);
          available := available[..i] + available[i + 1..];
          return;
        }
        i := i + 1;
      }
      WithoutAbsent(available, ip);
      WithoutTwice(all, gone, ip);
    }

    /** Take over every recorded allocation, in whatever order the map yields them. */
    method Restore(state: map<Id, string>)
      requires NoDup(available)
      modifies `leased, `available
      ensures leased == old(leased) + state && available == Without(old(available), state.Values)
    {
      WithoutNothing(available);
      hide Without;
      var rest := state.Keys;
      ghost var all := available;
      assert Loaded(state, rest) == map[] && Loaded(state, rest).Values == {};
      while rest != {}
        invariant rest <= state.Keys
        invariant leased == old(leased) + Loaded(state, rest)
        invariant available == Without(all, Loaded(state, rest).Values)
        decreases rest
      {
        var k :| k in rest;
        LoadedGrows(state, rest, k);
        leased := leased[k := state[k]];
        RemoveAvailable(state[k], all, Loaded(state, rest).Values);
        rest := rest - {k};
      }
      assert Loaded(state, rest) == state;
    }

    /** Restore the recorded allocations. On the newly built pool this is exactly Reload. */
    method LoadState(readable: bool) returns (ok: bool)
      requires Valid() && NoDup(available)
      modifies `leased, `available
      ensures Valid()
      ensures ok <==> file.None? || readable
      ensures !ok ==> leased == old(leased) && available == old(available)
      ensures ok ==> leased == old(leased) + disk && available == Without(old(available), disk.Values)
    {
      if file.None? {
        WithoutNothing(available);
        assert disk.Values == {};
        return true;
      }
      if !readable {
        return false;
      }
      UnmarshalRendered(file.value, disk);
      hide Without;
      Restore(Unmarshal(file.value).value);
      return true;
    }
  }

  /** The part of a recorded map that has been taken over already. */
  function Loaded(state: map<Id, string>, rest: set<Id>): map<Id, string> {
    map k | k in state && k !in rest :: state[k]
  }

  lemma LoadedGrows(state: map<Id, string>, rest: set<Id>, k: Id)
    requires k in rest && rest <= state.Keys
    ensures Loaded(state, rest - {k}) == Loaded(state, rest)[k := state[k]]
    ensures Loaded(state, rest - {k}).Values == Loaded(state, rest).Values + {state[k]}
  {
    var m, m' := Loaded(state, rest), Loaded(state, rest - {k});
    assert m' == m[k := state[k]];
    forall v | v in m.Values ensures v in m'.Values {
      var j :| j in m && m[j] == v;
      assert m'[j] == v;
    }
    assert m'[k] == state[k];
  }

  lemma {:induction false} WithoutNothing(s: seq<string>)
    ensures Without(s, {}) == s
  {
    if s == [] {
    } else {
      WithoutNothing(s[1..]);
    }
  }

  /** Build a pool over an existing state file, as a starting daemon does. */
  method OpenPool(net: Net, gateway: string, file: Option<Doc>, ghost disk: map<Id, string>, readable: bool)
    returns (pool: IPPool, ok: bool)
    requires net.Valid()
    requires if file.Some? then Renders(file.value, disk) else disk == map[]
    ensures fresh(pool) && pool.Valid() && (ok <==> file.None? || readable)
    ensures ok ==> pool.View() == Reload(Pool(map[], [], disk), UsableList(net, gateway))
  {
    pool := new IPPool(net, gateway, file, disk);
    UsableTextExact(net, gateway);
    ok := pool.LoadState(readable);
  }
}
