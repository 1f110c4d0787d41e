/**
 The image registry: a table of images in the database and one ZFS dataset per image, changed
 by three operations that can fail at every step. Functions say what each operation does for
 every pattern of outcomes; the class performs the same steps in place. A daemon that dies
 between two steps leaves what a failure of the later step without effect leaves.
 */
module ImageRegistry {
  import opened Common

  /** The rootfs file in a dataset, its @base snapshot, and whether VM disks are cloned from it. */
  datatype Dataset = Dataset(file: Option<string>, base: Option<string>, cloned: bool)

  datatype Row = Row(dataset: string, kernel: string, size: nat)

  datatype Store = Store(rows: map<string, Row>, datasets: map<string, Dataset>)

  datatype Answer = Done | Failed

  // ---- names --------------------------------------------------------------------------------

  predicate SafeChar(c: char) {
    'a' <= c <= 'z' || 'A' <= c <= 'Z' || '0' <= c <= '9' || c == '-' || c == '_' || c == '.'
  }

  function Sanitize(name: string): (d: string)
    ensures |d| == |name| && forall i :: 0 <= i < |d| ==> SafeChar(d[i])
  {
    seq(|name|, i requires 0 <= i < |name| => if SafeChar(name[i]) then name[i] else '-')
  }

  function DatasetFor(name: string): string {
    if name == "default" then "rootfs" else Sanitize(name)
  }

  /** Two names can want the same dataset, and one can want the default's. */
  lemma NamesCollide()
    ensures DatasetFor("a/b") == DatasetFor("a-b") && DatasetFor("rootfs") == DatasetFor("default")
  {
  }

  // ---- ZFS ------------------------------------------------------------------------------------

  /** What a failed or incomplete destroy leaves of a dataset. */
  datatype Wreck = Wreck(base: bool, cloned: bool)

  function Remains(d: Dataset, w: Wreck): Dataset {
    var base := if w.base then d.base else None;
    d.(base := base, cloned := d.cloned && base.Some? && w.cloned)
  }

  /** `destroy -R` and the two existence queries around it; `left`: something is still there. */
  datatype Destroying = Destroying(queried: bool, left: Option<Wreck>, ran: bool, verified: bool)

  function DestroyRecursive(ds: map<string, Dataset>, d: string, o: Destroying): (map<string, Dataset>, bool) {
    if !o.queried then (ds, false)
    else if d !in ds then (ds, true)
    else
      var after := if o.left.Some? then ds[d := Remains(ds[d], o.left.value)] else ds - {d};
      (after, o.ran && o.verified && d !in after)
  }

  /** The steps of an import. `created`: a failed create made the dataset all the same;
      `partial`: the file after a failed copy; `taken`: a failed snapshot was taken all the
      same; `left`: what a failed clean-up leaves. */
  datatype Importing = Importing(create: bool, created: bool, mountpoint: bool, copy: bool, partial: Option<string>,
                                 snapshot: bool, taken: bool, left: Option<Wreck>)

  /** The clean-up is `destroy -r`, which refuses a dataset whose snapshots have clones. */
  function CleanUp(ds: map<string, Dataset>, d: string, left: Option<Wreck>): map<string, Dataset>
    requires d in ds
  {
    if ds[d].cloned then ds
    else if left.Some? then ds[d := Remains(ds[d], left.value)]
    else ds - {d}
  }

  function ImportRootfs(ds: map<string, Dataset>, d: string, src: string, o: Importing): (map<string, Dataset>, bool) {
    var made := if d in ds then ds else ds[d := Dataset(None, None, false)];
    if !o.create then (if o.created then made else ds, false)
    else if !o.mountpoint then (CleanUp(made, d, o.left), false)
    else if !o.copy then (CleanUp(made[d := made[d].(file := o.partial)], d, o.left), false)
    else
      var copied := made[d := made[d].(file := Some(src))];
      var snapped := copied[d := copied[d].(base := Some(src))];
      if copied[d].base.Some? then (CleanUp(copied, d, o.left), false)  // @base exists
      else if !o.snapshot then (CleanUp(if o.taken then snapped else copied, d, o.left), false)
      else (snapped, true)
  }

  // ---- the three operations --------------------------------------------------------------------

  /** A row write; `applied`: a failed write took effect. */
  datatype Write = Write(ok: bool, applied: bool)

  /** Orderly destruction of an image's tasks, and whether any disk clone is left afterwards. */
  datatype TasksGone = TasksGone(ok: bool, cloned: bool)

  datatype Plan = Plan(tasks: TasksGone, destroy: Destroying, delete: Write, zfs: Importing, insert: Write,
                       undo: Destroying, query: bool, resize: bool)

  const FINE_ZFS := Importing(true, false, true, true, None, true, false, None)
  const FINE_DESTROY := Destroying(true, None, true, true)

  predicate FaultFree(p: Plan) {
    p.tasks.ok && p.destroy == FINE_DESTROY && p.delete.ok && p.zfs == FINE_ZFS && p.insert.ok &&
      p.undo == FINE_DESTROY && p.query
  }

  /** An import: what the caller asks for, and what the two file checks find. */
  datatype Request = Request(name: string, src: string, size: Option<nat>, kernel: string, kernelThere: bool)

  predicate Valid(r: Request) {
    r.name != "" && r.size.Some? && (r.kernel != "" ==> r.kernelThere)
  }

  predicate Collides(rows: map<string, Row>, name: string) {
    exists other | other in rows :: other != name && rows[other].dataset == DatasetFor(name)
  }

  function AfterTasks(ds: map<string, Dataset>, d: string, t: TasksGone): map<string, Dataset> {
    if d in ds then ds[d := ds[d].(cloned := ds[d].cloned && t.cloned)] else ds
  }

  /** Tasks, dataset and row of a registered image, in this order. */
  function Unregister(s: Store, name: string, p: Plan): (Store, bool)
    requires name in s.rows
  {
    var d := s.rows[name].dataset;
    var s1 := s.(datasets := AfterTasks(s.datasets, d, p.tasks));
    if !p.tasks.ok then (s1, false)
    else
      var (ds, ok) := DestroyRecursive(s1.datasets, d, p.destroy);
      var s2 := s1.(datasets := ds);
      if !ok then (s2, false)
      else (if p.delete.ok || p.delete.applied then s2.(rows := s2.rows - {name}) else s2, p.delete.ok)
  }

  /** The table has unique names and unique datasets. */
  predicate Insertable(rows: map<string, Row>, name: string, dataset: string) {
    name !in rows && forall n | n in rows :: rows[n].dataset != dataset
  }

  function Register(s: Store, r: Request, p: Plan): (Store, Answer)
    requires r.size.Some?
  {
    var d := DatasetFor(r.name);
    var (ds, ok) := ImportRootfs(s.datasets, d, r.src, p.zfs);
    if !ok then (s.(datasets := ds), Failed)
    else if !p.insert.ok || !Insertable(s.rows, r.name, d) then
      (s.(datasets := DestroyRecursive(ds, d, p.undo).0), Failed)
    else (Store(s.rows[r.name := Row(d, r.kernel, r.size.value)], ds), Done)
  }

  function Imported(s: Store, r: Request, p: Plan): (Store, Answer) {
    if !Valid(r) || Collides(s.rows, r.name) then (s, Failed)
    else if r.name in s.rows then
      var (s1, ok) := Unregister(s, r.name, p);
      if ok then Register(s1, r, p) else (s1, Failed)
    else Register(s, r, p)
  }

  function Removed(s: Store, name: string, p: Plan): (Store, Answer) {
    if name == "default" || name !in s.rows then (s, Failed)
    else
      var (s1, ok) := Unregister(s, name, p);
      (s1, if ok then Done else Failed)
  }

  predicate HasBase(ds: map<string, Dataset>, d: string) {
    d in ds && ds[d].base.Some?
  }

  /** A failing snapshot query reads as "no snapshot". */
  function Heal(s: Store, src: string, size: Option<nat>, p: Plan): (Store, Answer)
    requires "default" in s.rows
  {
    var row := s.rows["default"];
    if HasBase(s.datasets, row.dataset) && p.query then (s, Done)
    else
      var (ds, ok) := ImportRootfs(s.datasets, row.dataset, src, p.zfs);
      var rows := if ok && size.Some? && p.resize then s.rows["default" := row.(size := size.value)] else s.rows;
      (Store(rows, ds), if ok then Done else Failed)
  }

  function Ensured(s: Store, src: string, size: Option<nat>, p: Plan): (Store, Answer) {
    if "default" in s.rows then Heal(s, src, size, p)
    else if !p.insert.ok || !Insertable(s.rows, "default", "rootfs") then (s, Failed)
    else Heal(s.(rows := s.rows["default" := Row("rootfs", "", if size.Some? then size.value else 0)]), src, size, p)
  }

  /** Everything that can happen to the two stores; a VM disk is cloned only from the snapshot
      of a registered image. */
  datatype Op =
    | DoImport(request: Request, plan: Plan)
    | DoRemove(name: string, plan: Plan)
    | DoEnsure(src: string, size: Option<nat>, plan: Plan)
    | DoClone(name: string)

  function NameOf(op: Op): string {
    match op
    case DoImport(r, _) => r.name
    case DoRemove(n, _) => n
    case DoEnsure(_, _, _) => "default"
    case DoClone(n) => n
  }

  function Clone(s: Store, name: string): Store {
    if name in s.rows && HasBase(s.datasets, s.rows[name].dataset)
    then var d := s.rows[name].dataset; s.(datasets := s.datasets[d := s.datasets[d].(cloned := true)])
    else s
  }

  function Apply(s: Store, op: Op): Store {
    match op
    case DoImport(r, p) => Imported(s, r, p).0
    case DoRemove(n, p) => Removed(s, n, p).0
    case DoEnsure(src, size, p) => Ensured(s, src, size, p).0
    case DoClone(n) => Clone(s, n)
  }

  function Exec(s: Store, ops: seq<Op>): Store
    decreases |ops|
  {
    if ops == [] then s else Exec(Apply(s, ops[0]), ops[1..])
  }

  // ---- every run ------------------------------------------------------------------------------------

  /** Rows name their own dataset, no two rows share one, and clones hang only on the snapshot
      of a registered image. */
  ghost predicate Coherent(s: Store) {
    && (forall n :: n in s.rows ==> s.rows[n].dataset == DatasetFor(n))
    && (forall n, m :: n in s.rows && m in s.rows && s.rows[n].dataset == s.rows[m].dataset ==> n == m)
    && (forall d :: d in s.datasets && s.datasets[d].cloned ==> s.datasets[d].base.Some? && Registered(s, d))
  }

  ghost predicate Registered(s: Store, d: string) {
    exists n :: n in s.rows && s.rows[n].dataset == d
  }

  /** The state of one dataset: absent or what it holds. */
  function At(ds: map<string, Dataset>, d: string): Option<Dataset> {
    if d in ds then Some(ds[d]) else None
  }

  lemma ZfsFrame(ds: map<string, Dataset>, d: string, src: string, i: Importing, o: Destroying, t: TasksGone,
                 other: string)
    requires other != d
    ensures At(ImportRootfs(ds, d, src, i).0, other) == At(ds, other)
    ensures At(DestroyRecursive(ds, d, o).0, other) == At(ds, other)
    ensures At(AfterTasks(ds, d, t), other) == At(ds, other)
  {
  }

  /** On one dataset: an import leaves no clone where there was none, and success is a fresh
      snapshot of the source. */
  lemma ImportEffect(ds: map<string, Dataset>, d: string, src: string, o: Importing)
    ensures var (ds', ok) := ImportRootfs(ds, d, src, o);
            && (ok ==> d in ds' && ds'[d].base == Some(src) && ds'[d].file == Some(src))
            && (d in ds' && ds'[d].cloned ==> d in ds && ds[d].cloned)
            && (d in ds && ds[d].cloned && ds[d].base.Some? ==> d in ds' && ds'[d].base == ds[d].base && !ok)
            && (ok ==> !HasBase(ds, d))
            && (o == FINE_ZFS ==> (ok <==> !HasBase(ds, d)))
            && (o == FINE_ZFS && !ok && !(d in ds && ds[d].cloned) ==> d !in ds')
  {
  }

  lemma DestroyEffect(ds: map<string, Dataset>, d: string, o: Destroying)
    ensures var (ds', ok) := DestroyRecursive(ds, d, o);
            && (ok ==> d !in ds')
            && (d in ds' && ds'[d].cloned ==> d in ds && ds[d].cloned && (ds[d].base.Some? ==> ds'[d].base.Some?))
            && (o == FINE_DESTROY ==> ok)
  {
  }

  /** A change of one image and its dataset alone. */
  ghost predicate OnlyChanges(s: Store, s': Store, name: string) {
    && (forall n :: n != name ==> (n in s'.rows <==> n in s.rows) && (n in s.rows ==> s'.rows[n] == s.rows[n]))
    && (forall d :: d != DatasetFor(name) ==> At(s'.datasets, d) == At(s.datasets, d))
  }

  /** It keeps the registry coherent if the image has its own dataset, and clones only while
      registered. */
  lemma ChangeKeeps(s: Store, s': Store, name: string)
    requires Coherent(s) && OnlyChanges(s, s', name)
    requires name in s.rows || !Collides(s.rows, name)
    requires name in s'.rows ==> s'.rows[name].dataset == DatasetFor(name)
    requires var d := DatasetFor(name);
             d in s'.datasets && s'.datasets[d].cloned ==> s'.datasets[d].base.Some? && name in s'.rows
    ensures Coherent(s')
  {
    hide DatasetFor;
    var d := DatasetFor(name);
    RowsStayApart(s, s', name);
    forall e | e in s'.datasets && s'.datasets[e].cloned ensures s'.datasets[e].base.Some? && Registered(s', e) {
      if e != d {
        assert At(s'.datasets, e) == At(s.datasets, e);
        var n :| n in s.rows && s.rows[n].dataset == e;
        assert n in s'.rows && s'.rows[n].dataset == e;
      } else {
        assert s'.rows[name].dataset == d;
      }
    }
  }

  lemma RowsStayApart(s: Store, s': Store, name: string)
    requires Coherent(s) && OnlyChanges(s, s', name)
    requires name in s.rows || !Collides(s.rows, name)
    requires name in s'.rows ==> s'.rows[name].dataset == DatasetFor(name)
    ensures forall n :: n in s'.rows ==> s'.rows[n].dataset == DatasetFor(n)
    ensures forall n, m :: n in s'.rows && m in s'.rows && s'.rows[n].dataset == s'.rows[m].dataset ==> n == m
  {
    hide DatasetFor, At;
    assert forall n :: n in s.rows && s.rows[n].dataset == DatasetFor(name) ==> n == name;
  }

  lemma UnregisterKeeps(s: Store, name: string, p: Plan)
    requires Coherent(s) && name in s.rows
    ensures var (s', ok) := Unregister(s, name, p);
            && Coherent(s') && OnlyChanges(s, s', name)
            && (ok ==> name !in s'.rows && DatasetFor(name) !in s'.datasets)
            && (name !in s'.rows ==> DatasetFor(name) !in s'.datasets)
            && (FaultFree(p) ==> ok)
  {
    hide DestroyRecursive, DatasetFor;
    var d := DatasetFor(name);
    var s' := Unregister(s, name, p).0;
    var mid := AfterTasks(s.datasets, d, p.tasks);
    DestroyEffect(mid, d, p.destroy);
    forall e | e != d ensures At(s'.datasets, e) == At(s.datasets, e) {
      ZfsFrame(s.datasets, d, "", p.zfs, p.destroy, p.tasks, e);
      ZfsFrame(mid, d, "", p.zfs, p.destroy, p.tasks, e);
    }
    ChangeKeeps(s, s', name);
  }

  lemma RegisterKeeps(s: Store, r: Request, p: Plan)
    requires Coherent(s) && r.size.Some? && r.name !in s.rows && !Collides(s.rows, r.name)
    ensures Coherent(Register(s, r, p).0) && OnlyChanges(s, Register(s, r, p).0, r.name)
  {
    hide DestroyRecursive, ImportRootfs, DatasetFor;
    var d := DatasetFor(r.name);
    var s' := Register(s, r, p).0;
    var mid := ImportRootfs(s.datasets, d, r.src, p.zfs).0;
    NoCloneThere(s, r.name);
    ImportEffect(s.datasets, d, r.src, p.zfs);
    DestroyEffect(mid, d, p.undo);
    forall e | e != d ensures At(s'.datasets, e) == At(s.datasets, e) {
      ZfsFrame(s.datasets, d, r.src, p.zfs, p.undo, p.tasks, e);
      ZfsFrame(mid, d, r.src, p.zfs, p.undo, p.tasks, e);
    }
    ChangeKeeps(s, s', r.name);
  }

  /** Nothing is cloned from the dataset of a free name. */
  lemma NoCloneThere(s: Store, name: string)
    requires Coherent(s) && name !in s.rows && !Collides(s.rows, name)
    ensures var d := DatasetFor(name); d in s.datasets ==> !s.datasets[d].cloned
  {
    assert !Registered(s, DatasetFor(name));
  }

  /** What an operation on one name does to every other image that is registered, even one
      whose name maps to the same dataset: nothing. */
  ghost predicate SparesOthers(s: Store, s': Store, name: string) {
    forall n :: n in s.rows && n != name ==>
      && n in s'.rows && s'.rows[n] == s.rows[n]
      && At(s'.datasets, s.rows[n].dataset) == At(s.datasets, s.rows[n].dataset)
  }

  /** A name that no other image collides with stays so while only its own image changes. */
  lemma StaysFree(s: Store, s': Store, name: string)
    requires OnlyChanges(s, s', name) && !Collides(s.rows, name)
    ensures !Collides(s'.rows, name)
  {
    hide At, DatasetFor;
  }

  lemma ImportChanges(s: Store, r: Request, p: Plan)
    requires Coherent(s)
    ensures Coherent(Imported(s, r, p).0) && OnlyChanges(s, Imported(s, r, p).0, r.name)
  {
    hide Unregister, Register, DatasetFor, Coherent, Collides, At;
    if Valid(r) && !Collides(s.rows, r.name) {
      var s1 := s;
      if r.name in s.rows {
        UnregisterKeeps(s, r.name, p);
        s1 := Unregister(s, r.name, p).0;
      }
      if r.name !in s1.rows {
        StaysFree(s, s1, r.name);
        RegisterKeeps(s1, r, p);
      }
    }
  }

  lemma ImportKeeps(s: Store, r: Request, p: Plan)
    requires Coherent(s)
    ensures Coherent(Imported(s, r, p).0) && SparesOthers(s, Imported(s, r, p).0, r.name)
  {
    ImportChanges(s, r, p);
    if Valid(r) && !Collides(s.rows, r.name) {
      hide Imported;
      ChangeSpares(s, Imported(s, r, p).0, r.name);
    }
  }

  lemma HealKeeps(s: Store, src: string, size: Option<nat>, p: Plan)
    requires Coherent(s) && "default" in s.rows
    ensures Coherent(Heal(s, src, size, p).0) && SparesOthers(s, Heal(s, src, size, p).0, "default")
  {
    var s' := Heal(s, src, size, p).0;
    var d := DatasetFor("default");
    hide ImportRootfs, DatasetFor;
    ImportEffect(s.datasets, d, src, p.zfs);
    forall e | e != d ensures At(s'.datasets, e) == At(s.datasets, e) {
      ZfsFrame(s.datasets, d, src, p.zfs, p.undo, p.tasks, e);
    }
    ChangeKeeps(s, s', "default");
    ChangeSpares(s, s', "default");
  }

  lemma ChangeSpares(s: Store, s': Store, name: string)
    requires Coherent(s) && OnlyChanges(s, s', name) && (name in s.rows || !Collides(s.rows, name))
    ensures SparesOthers(s, s', name)
  {
    hide DatasetFor;
    assert forall n :: n in s.rows && n != name ==> s.rows[n].dataset != DatasetFor(name);
  }

  lemma RemoveKeeps(s: Store, name: string, p: Plan)
    requires Coherent(s)
    ensures Coherent(Removed(s, name, p).0) && SparesOthers(s, Removed(s, name, p).0, name)
  {
    hide Unregister, DatasetFor;
    if name != "default" && name in s.rows {
      UnregisterKeeps(s, name, p);
      ChangeSpares(s, Unregister(s, name, p).0, name);
    }
  }

  lemma EnsureKeeps(s: Store, src: string, size: Option<nat>, p: Plan)
    requires Coherent(s)
    ensures Coherent(Ensured(s, src, size, p).0) && SparesOthers(s, Ensured(s, src, size, p).0, "default")
  {
    hide Heal, Coherent, DatasetFor, Insertable;
    if "default" in s.rows {
      HealKeeps(s, src, size, p);
    } else if p.insert.ok && Insertable(s.rows, "default", "rootfs") {
      var s1 := s.(rows := s.rows["default" := Row("rootfs", "", if size.Some? then size.value else 0)]);
      SeedKeeps(s, s1);
      HealKeeps(s1, src, size, p);
    }
  }

  lemma ApplyKeeps(s: Store, op: Op)
    requires Coherent(s)
    ensures Coherent(Apply(s, op)) && SparesOthers(s, Apply(s, op), NameOf(op))
  {
    hide Imported, Removed, Ensured, Clone, Coherent, SparesOthers;
    match op
    case DoImport(r, p) => ImportKeeps(s, r, p);
    case DoRemove(n, p) => RemoveKeeps(s, n, p);
    case DoEnsure(src, size, p) => EnsureKeeps(s, src, size, p);
    case DoClone(n) => CloneKeeps(s, n);
  }

  lemma SeedKeeps(s: Store, s1: Store)
    requires Coherent(s) && Insertable(s.rows, "default", "rootfs")
    requires s1.datasets == s.datasets && s1.rows.Keys == s.rows.Keys + {"default"}
    requires (forall n :: n in s.rows ==> s1.rows[n] == s.rows[n]) && s1.rows["default"].dataset == "rootfs"
    ensures Coherent(s1) && SparesOthers(s, s1, "default")
  {
  }

  lemma CloneKeeps(s: Store, name: string)
    requires Coherent(s)
    ensures Coherent(Clone(s, name)) && SparesOthers(s, Clone(s, name), name)
  {
  }

  /** Over every run, with whatever failures, rows map to datasets one to one. */
  lemma {:induction false} RunKeepsCoherent(s: Store, ops: seq<Op>)
    requires Coherent(s)
    ensures Coherent(Exec(s, ops))
    decreases |ops|
  {
    if ops == [] {
    } else {
      ApplyKeeps(s, ops[0]);
      RunKeepsCoherent(Apply(s, ops[0]), ops[1..]);
    }
  }

  /** Over every run that has no operation on this image, its row, its dataset and its snapshot
      stay exactly as they are, although other names may map to the same dataset. */
  lemma {:induction false} RunSparesImage(s: Store, ops: seq<Op>, name: string)
    requires Coherent(s) && name in s.rows
    requires forall i :: 0 <= i < |ops| ==> NameOf(ops[i]) != name
    ensures var s' := Exec(s, ops);
            && name in s'.rows && s'.rows[name] == s.rows[name]
            && At(s'.datasets, DatasetFor(name)) == At(s.datasets, DatasetFor(name))
    decreases |ops|
  {
    if ops == [] {
    } else {
      assert NameOf(ops[0]) != name;
      ApplyKeeps(s, ops[0]);
      hide Apply, DatasetFor;
      RunSparesImage(Apply(s, ops[0]), ops[1..], name);
    }
  }

  // ---- healing ------------------------------------------------------------------------------------------

  /** The image is registered and its snapshot holds this source. */
  predicate Serves(s: Store, r: Request) {
    && r.name in s.rows && r.size.Some?
    && s.rows[r.name] == Row(DatasetFor(r.name), r.kernel, r.size.value)
    && DatasetFor(r.name) in s.datasets && s.datasets[DatasetFor(r.name)].base == Some(r.src)
  }

  /** An import that reports success has registered the image with a snapshot of its source. */
  lemma ImportDone(s: Store, r: Request, p: Plan)
    requires Imported(s, r, p).1 == Done
    ensures Serves(Imported(s, r, p).0, r)
  {
  }

  /** A fault-free import of a valid, free name succeeds, unless an unregistered dataset with a
      snapshot is in the way; then it fails and takes that dataset with it. */
  lemma FaultFreeImport(s: Store, r: Request, p: Plan)
    requires Coherent(s) && FaultFree(p) && Valid(r) && !Collides(s.rows, r.name)
    ensures var (s', a) := Imported(s, r, p);
            && (a == Failed <==> r.name !in s.rows && HasBase(s.datasets, DatasetFor(r.name)))
            && (a == Failed ==> DatasetFor(r.name) !in s'.datasets && s'.rows == s.rows)
  {
  }

  /** After any run with any failures, two fault-free imports of a valid, free name are enough. */
  lemma TwoImportsHeal(ops: seq<Op>, r: Request, p: Plan, q: Plan)
    requires FaultFree(p) && FaultFree(q) && Valid(r)
    requires !Collides(Exec(Store(map[], map[]), ops).rows, r.name)
    ensures var s := Exec(Store(map[], map[]), ops);
            var (s1, a1) := Imported(s, r, p);
            var (s2, a2) := Imported(s1, r, q);
            && a2 == Done && Serves(s2, r)
            && (a1 == Done ==> Serves(s1, r))
            && (a1 == Failed <==> r.name !in s.rows && HasBase(s.datasets, DatasetFor(r.name)))
  {
    var s := Exec(Store(map[], map[]), ops);
    RunKeepsCoherent(Store(map[], map[]), ops);
    FaultFreeImport(s, r, p);
    var (s1, a1) := Imported(s, r, p);
    ImportKeeps(s, r, p);
    ImportChanges(s, r, p);
    if a1 == Done { ImportDone(s, r, p); }
    hide Imported, Exec, Coherent;
    StaysFree(s, s1, r.name);
    FaultFreeImport(s1, r, q);
    ImportDone(s1, r, q);
  }

  /** Two can be needed: when the row of a first import cannot be written and its clean-up
      fails, the next import meets the snapshot left behind. */
  lemma TwoImportsNeeded(r: Request, p: Plan, q: Plan)
    requires Valid(r) && FaultFree(p) && FaultFree(q)
    ensures var bad := p.(insert := Write(false, false), undo := Destroying(false, None, true, true));
            var s := Apply(Store(map[], map[]), DoImport(r, bad));
            && s.rows == map[] && HasBase(s.datasets, DatasetFor(r.name))
            && Imported(s, r, q) == (Store(map[], map[]), Failed)
  {
  }

  /** The outcomes with which an import that meets a snapshot takes the dataset away: it gets past
      the create, and its clean-up, if it runs, leaves no snapshot. */
  predicate TakesBase(o: Importing) {
    o.create && !(o.left.Some? && o.left.value.base)
  }

  /** An EnsureDefault that costs the default image its snapshot: the query fails, the import it
      starts takes the dataset away, and no disks are cloned from it. */
  predicate LosesDefault(s: Store, op: Op) {
    op.DoEnsure? && !op.plan.query && TakesBase(op.plan.zfs) && !("rootfs" in s.datasets && s.datasets["rootfs"].cloned)
  }

  /** The default image is registered and has this snapshot. */
  predicate DefaultHas(s: Store, base: string) {
    "default" in s.rows && "rootfs" in s.datasets && s.datasets["rootfs"].base == Some(base)
  }

  /** EnsureDefault on an existing snapshot, for every plan: it succeeds exactly if it sees the
      snapshot, and then changes nothing; the snapshot is lost exactly if it does not see it and
      the import it then starts takes the dataset away. */
  lemma EnsureDefaultOnBase(s: Store, base: string, src: string, size: Option<nat>, p: Plan)
    requires Coherent(s) && DefaultHas(s, base)
    ensures var (s', a) := Ensured(s, src, size, p);
            && (a == Done <==> p.query) && (p.query ==> s' == s) && s'.rows == s.rows
            && (HasBase(s'.datasets, "rootfs") <==> !LosesDefault(s, DoEnsure(src, size, p)))
            && (HasBase(s'.datasets, "rootfs") ==> DefaultHas(s', base))
  {
  }

  /** The same for any operation other than a new import of the default image. */
  lemma OperationOnDefault(s: Store, base: string, op: Op)
    requires Coherent(s) && DefaultHas(s, base) && !(op.DoImport? && op.request.name == "default")
    ensures DefaultHas(Apply(s, op), base) <==> !LosesDefault(s, op)
  {
    hide Imported, Removed, Ensured, Clone, SparesOthers;
    match op
    case DoEnsure(src, size, p) => EnsureDefaultOnBase(s, base, src, size, p);
    case DoRemove(n, p) => if n == "default" { DefaultIsKept(s, p); } else { SparedDefault(s, base, op); }
    case DoClone(n) => if n == "default" { CloneKeepsBase(s, base); } else { SparedDefault(s, base, op); }
    case DoImport(r, p) => SparedDefault(s, base, op);
  }

  lemma DefaultIsKept(s: Store, p: Plan)
    ensures Removed(s, "default", p).0 == s
  {
  }

  lemma CloneKeepsBase(s: Store, base: string)
    requires DefaultHas(s, base) && s.rows["default"].dataset == "rootfs"
    ensures DefaultHas(Clone(s, "default"), base)
  {
  }

  lemma SparedDefault(s: Store, base: string, op: Op)
    requires Coherent(s) && DefaultHas(s, base) && NameOf(op) != "default"
    ensures DefaultHas(Apply(s, op), base)
  {
    hide Apply;
    ApplyKeeps(s, op);
    assert s.rows["default"].dataset == "rootfs";
  }

  /** Over every run without a new import of it, the default image keeps its snapshot throughout
      exactly if no EnsureDefault loses it. */
  lemma {:induction false} DefaultSurvives(s: Store, base: string, ops: seq<Op>)
    requires Coherent(s) && DefaultHas(s, base)
    requires forall i :: 0 <= i < |ops| ==> !(ops[i].DoImport? && ops[i].request.name == "default")
    ensures (forall n :: 0 <= n <= |ops| ==> DefaultHas(Exec(s, ops[..n]), base)) <==>
            (forall i :: 0 <= i < |ops| ==> !LosesDefault(Exec(s, ops[..i]), ops[i]))
    decreases |ops|
  {
    hide Apply, DefaultHas, LosesDefault, Coherent;
    if ops == [] {
    } else {
      var s1 := Apply(s, ops[0]);
      OperationOnDefault(s, base, ops[0]);
      ApplyKeeps(s, ops[0]);
      forall n | 0 < n <= |ops| ensures Exec(s, ops[..n]) == Exec(s1, ops[1..][..n - 1]) {
        assert ops[..n][1..] == ops[1..][..n - 1];
      }
      assert Exec(s, ops[..0]) == s && Exec(s1, ops[1..][..0]) == s1;
      if DefaultHas(s1, base) {
        DefaultSurvives(s1, base, ops[1..]);
        FromSecondOn(s, s1, base, ops);
      } else {
        assert !DefaultHas(Exec(s, ops[..1]), base);
      }
    }
  }

  /** The states of a run, seen from its second on. */
  lemma FromSecondOn(s: Store, s1: Store, base: string, ops: seq<Op>)
    requires ops != [] && DefaultHas(s, base) && !LosesDefault(s, ops[0])
    requires Exec(s, ops[..0]) == s
    requires forall n :: 0 < n <= |ops| ==> Exec(s, ops[..n]) == Exec(s1, ops[1..][..n - 1])
    ensures (forall n :: 0 <= n <= |ops| ==> DefaultHas(Exec(s, ops[..n]), base)) <==>
            (forall n :: 0 <= n <= |ops[1..]| ==> DefaultHas(Exec(s1, ops[1..][..n]), base))
    ensures (forall i :: 0 <= i < |ops| ==> !LosesDefault(Exec(s, ops[..i]), ops[i])) <==>
            (forall i :: 0 <= i < |ops[1..]| ==> !LosesDefault(Exec(s1, ops[1..][..i]), ops[1..][i]))
  {
    hide Exec, DefaultHas, LosesDefault;
    if forall n :: 0 <= n <= |ops| ==> DefaultHas(Exec(s, ops[..n]), base) {
      forall n | 0 <= n <= |ops[1..]| ensures DefaultHas(Exec(s1, ops[1..][..n]), base) {
        assert DefaultHas(Exec(s, ops[..n + 1]), base);
      }
    }
    if forall i :: 0 <= i < |ops| ==> !LosesDefault(Exec(s, ops[..i]), ops[i]) {
      forall i | 0 <= i < |ops[1..]| ensures !LosesDefault(Exec(s1, ops[1..][..i]), ops[1..][i]) {
        assert !LosesDefault(Exec(s, ops[..i + 1]), ops[i + 1]);
      }
    }
  }

  // ---- exactly when each operation succeeds ---------------------------------------------------------------

  /** A registered image can be dropped: its tasks go, its dataset, if there is one, goes and is
      seen to be gone, and the row can be deleted. */
  predicate Droppable(ds: map<string, Dataset>, d: string, p: Plan) {
    p.tasks.ok && p.destroy.queried && p.delete.ok &&
    (d in ds ==> p.destroy.left.None? && p.destroy.ran && p.destroy.verified)
  }

  /** No step of an import fails. */
  predicate Smooth(o: Importing) {
    o.create && o.mountpoint && o.copy && o.snapshot
  }

  lemma SmoothImport(ds: map<string, Dataset>, d: string, src: string, o: Importing)
    ensures var (ds', ok) := ImportRootfs(ds, d, src, o);
            (ok <==> Smooth(o) && !HasBase(ds, d)) && (ok ==> d in ds' && ds'[d].file == ds'[d].base == Some(src))
  {
  }

  /** What dropping an image comes to, for every outcome of every step: tasks before dataset before
      row, each only if the one before succeeded. */
  lemma DropExact(s: Store, name: string, p: Plan)
    requires Coherent(s) && name in s.rows
    ensures var (s', ok) := Unregister(s, name, p);
            var d := DatasetFor(name);
            && (ok <==> Droppable(s.datasets, d, p))
            && (s'.rows == s.rows || (s'.rows == s.rows - {name} && d !in s'.datasets))
            && (!p.tasks.ok ==> s'.rows == s.rows && Holds(s'.datasets, d) == Holds(s.datasets, d))
            && (ok ==> s'.rows == s.rows - {name} && d !in s'.datasets)
  {
  }

  /** The rootfs file and the snapshot in a dataset. */
  function Holds(ds: map<string, Dataset>, d: string): Option<(Option<string>, Option<string>)> {
    if d in ds then Some((ds[d].file, ds[d].base)) else None
  }

  /** Remove succeeds exactly on a registered image other than the default that can be dropped. */
  lemma RemoveExact(s: Store, name: string, p: Plan)
    requires Coherent(s)
    ensures var (s', a) := Removed(s, name, p);
            var d := DatasetFor(name);
            && (a == Done <==> name != "default" && name in s.rows && Droppable(s.datasets, d, p))
            && (a == Done ==> s'.rows == s.rows - {name} && d !in s'.datasets)
            && (name == "default" || name !in s.rows ==> s' == s)
            && (!p.tasks.ok ==> s'.rows == s.rows && Holds(s'.datasets, d) == Holds(s.datasets, d))
            && (s'.rows == s.rows || (s'.rows == s.rows - {name} && d !in s'.datasets))
  {
    hide Unregister, Coherent, DatasetFor, Droppable;
    if name in s.rows { DropExact(s, name, p); }
  }

  /** An import of a valid name without collision gets as far as the new row. */
  predicate Importable(s: Store, r: Request, p: Plan) {
    var d := DatasetFor(r.name);
    && Valid(r) && !Collides(s.rows, r.name)
    && (if r.name in s.rows then Droppable(s.datasets, d, p) else !HasBase(s.datasets, d))
    && Smooth(p.zfs)
  }

  /** Import succeeds exactly if the name is valid and collides with no other image, the image it
      replaces can be dropped, no snapshot is in the way, and no step fails. It never leaves a row
      without its snapshot, and a row that cannot be written costs the dataset, if that can be
      destroyed. */
  lemma ImportExact(s: Store, r: Request, p: Plan)
    requires Coherent(s)
    ensures var (s', a) := Imported(s, r, p);
            && (a == Done <==> Importable(s, r, p) && p.insert.ok)
            && (a == Failed ==> s'.rows == s.rows || s'.rows == s.rows - {r.name})
            && (!Valid(r) || Collides(s.rows, r.name) ==> s' == s)
            && (r.name in s.rows && !p.tasks.ok ==>
                  s'.rows == s.rows &&
                  Holds(s'.datasets, DatasetFor(r.name)) == Holds(s.datasets, DatasetFor(r.name)))
            && (Importable(s, r, p) && !p.insert.ok && p.undo == FINE_DESTROY ==>
                  r.name !in s'.rows && DatasetFor(r.name) !in s'.datasets)
  {
    hide Unregister, Register, DatasetFor, Droppable, Collides;
    if Valid(r) && !Collides(s.rows, r.name) {
      if r.name in s.rows {
        DropExact(s, r.name, p);
        ImportChanges(s, r, p);
        UnregisterKeeps(s, r.name, p);
        var s1 := Unregister(s, r.name, p).0;
        hide Coherent;
        if r.name !in s1.rows {
          StaysFree(s, s1, r.name);
          RegisterExact(s1, r, p);
        }
      } else {
        RegisterExact(s, r, p);
      }
    }
  }

  lemma RegisterExact(s: Store, r: Request, p: Plan)
    requires r.size.Some? && r.name !in s.rows && !Collides(s.rows, r.name)
    ensures var (s', a) := Register(s, r, p);
            var d := DatasetFor(r.name);
            && (a == Done <==> Smooth(p.zfs) && !HasBase(s.datasets, d) && p.insert.ok)
            && (a == Failed ==> s'.rows == s.rows)
            && (Smooth(p.zfs) && !HasBase(s.datasets, d) && !p.insert.ok && p.undo == FINE_DESTROY ==>
                  d !in s'.datasets)
  {
    SmoothImport(s.datasets, DatasetFor(r.name), r.src, p.zfs);
    hide ImportRootfs, DatasetFor;
  }

  /** EnsureDefault succeeds exactly if the row is there or can be made, and either the snapshot is
      seen or there is none and the import goes through. Then the default image has a snapshot: the
      old one if it was seen, and otherwise one of the source, with the row's size brought up to
      date where that can be read and written. */
  lemma EnsureExact(s: Store, src: string, size: Option<nat>, p: Plan)
    requires Coherent(s)
    ensures var (s', a) := Ensured(s, src, size, p);
            var had := HasBase(s.datasets, "rootfs");
            var row := "default" in s.rows || (p.insert.ok && !Collides(s.rows, "default"));
            && (a == Done <==> row && (if had then p.query else Smooth(p.zfs)))
            && (row <==> "default" in s'.rows) && (!row ==> s' == s)
            && (a == Done && had ==> s'.datasets == s.datasets)
            && (a == Done && !had ==> Holds(s'.datasets, "rootfs") == Some((Some(src), Some(src))))
            && (a == Done && !had && size.Some? && p.resize ==> s'.rows["default"].size == size.value)
            && (row && "default" !in s.rows ==>
                  s'.rows == s.rows["default" := Row("rootfs", "", if size.Some? then size.value else 0)])
            && ("default" in s.rows ==>
                  s'.rows == s.rows ||
                  (size.Some? && s'.rows == s.rows["default" := s.rows["default"].(size := size.value)]))
  {
    SmoothImport(s.datasets, "rootfs", src, p.zfs);
    hide ImportRootfs;
  }

  /** Fault-free, EnsureDefault ends with a registered default and a snapshot, exactly unless a
      different image owns the dataset. */
  lemma FaultFreeEnsure(s: Store, src: string, size: Option<nat>, p: Plan)
    requires Coherent(s) && FaultFree(p)
    ensures var (s', a) := Ensured(s, src, size, p);
            && (a == Done <==> !Collides(s.rows, "default"))
            && (a == Done ==> "default" in s'.rows && HasBase(s'.datasets, "rootfs"))
            && (a == Failed ==> s' == s)
  {
    ImportEffect(s.datasets, "rootfs", src, p.zfs);
    hide ImportRootfs;
  }

  // ---- in place -----------------------------------------------------------------------------------------

  class ImageRegistry {
    var rows: map<string, Row>
    var datasets: map<string, Dataset>

    function View(): Store
      reads this
    {
      Store(rows, datasets)
    }

    constructor ()
      ensures View() == Store(map[], map[]) && Coherent(View())
    {
      rows, datasets := map[], map[];
    }

    /** zfs destroy -R between two existence queries. */
    method DestroyDatasetRecursive(d: string, o: Destroying) returns (err: bool)
      modifies this`datasets
      ensures (datasets, !err) == DestroyRecursive(old(datasets), d, o)
      ensures !err <==> o.queried && (d in old(datasets) ==> o.left.None? && o.ran && o.verified)
      ensures !err ==> d !in datasets
      ensures d in datasets && datasets[d].cloned ==> d in old(datasets) && old(datasets)[d].cloned
      ensures forall e :: e != d ==> At(datasets, e) == At(old(datasets), e)
    {
      if !o.queried { return true; }
      if d !in datasets { return false; }
      datasets := if o.left.Some? then datasets[d := Remains(datasets[d], o.left.value)] else datasets - {d};
      if !o.ran { return true; }
      if !o.verified { return true; }
      err := d in datasets;
    }

    /** zfs destroy -r, as the deferred clean-up of a failed import. */
    method DestroyUncloned(d: string, left: Option<Wreck>)
      requires d in datasets
      modifies this`datasets
      ensures datasets == CleanUp(old(datasets), d, left)
    {
      if datasets[d].cloned { return; }
      datasets := if left.Some? then datasets[d := Remains(datasets[d], left.value)] else datasets - {d};
    }

    /** create -p, mountpoint, copy, snapshot; everything after the create is cleaned up on failure. */
    method ImportImageRootfs(d: string, src: string, o: Importing) returns (err: bool)
      modifies this`datasets
      ensures (datasets, !err) == ImportRootfs(old(datasets), d, src, o)
      ensures !err <==> Smooth(o) && !HasBase(old(datasets), d)
      ensures !err ==> d in datasets && datasets[d].file == Some(src) && datasets[d].base == Some(src) &&
                       !HasBase(old(datasets), d)
      ensures err && o.create && !(d in old(datasets) && old(datasets)[d].cloned) && o.left.None? ==> d !in datasets
      ensures d in old(datasets) && old(datasets)[d].cloned && old(datasets)[d].base.Some? ==>
                d in datasets && datasets[d].base == old(datasets)[d].base
      ensures forall e :: e != d ==> At(datasets, e) == At(old(datasets), e)
    {
      SmoothImport(datasets, d, src, o);
      if d !in datasets && (o.create || o.created) {
        datasets := datasets[d := Dataset(None, None, false)];
      }
      if !o.create { return true; }
      err := true;
      if o.mountpoint {
        datasets := datasets[d := datasets[d].(file := if o.copy then Some(src) else o.partial)];
        if o.copy && datasets[d].base.None? {
          if o.snapshot || o.taken {
            datasets := datasets[d := datasets[d].(base := Some(src))];
          }
          err := !o.snapshot;
        }
      }
      if err { DestroyUncloned(d, o.left); }
    }

    /** The task manager destroys the image's tasks; their disk clones go with them. */
    method DestroyTasksByImage(d: string, t: TasksGone) returns (err: bool)
      modifies this`datasets
      ensures datasets == AfterTasks(old(datasets), d, t) && err == !t.ok
    {
      if d in datasets {
        datasets := datasets[d := datasets[d].(cloned := datasets[d].cloned && t.cloned)];
      }
      err := !t.ok;
    }

    method DeleteImage(name: string, w: Write) returns (err: bool)
      requires name in rows
      modifies this`rows
      ensures rows == if w.ok || w.applied then old(rows) - {name} else old(rows)
      ensures err == !w.ok
    {
      if w.ok || w.applied {
        rows := rows - {name};
      }
      err := !w.ok;
    }

    method CreateImage(name: string, row: Row, w: Write) returns (err: bool)
      modifies this`rows
      ensures err <==> !w.ok || !Insertable(old(rows), name, row.dataset)
      ensures rows == if err then old(rows) else old(rows)[name := row]
    {
      err := !w.ok || !Insertable(rows, name, row.dataset);
      if !err {
        rows := rows[name := row];
      }
    }

    /** Tasks, dataset and row of a registered image. */
    method Drop(name: string, p: Plan) returns (err: bool)
      requires name in rows
      modifies this
      ensures (View(), !err) == Unregister(old(View()), name, p)
    {
      var d := rows[name].dataset;
      err := DestroyTasksByImage(d, p.tasks);
      if err { return; }
      err := DestroyDatasetRecursive(d, p.destroy);
      if err { return; }
      err := DeleteImage(name, p.delete);
    }

    method Import(r: Request, p: Plan) returns (err: bool)
      requires Coherent(View())
      modifies this
      ensures View() == Imported(old(View()), r, p).0 && (err <==> Imported(old(View()), r, p).1 == Failed)
      ensures Coherent(View()) && SparesOthers(old(View()), View(), r.name)
      ensures !err ==> Serves(View(), r)
      ensures !err <==> old(Importable(View(), r, p)) && p.insert.ok
      ensures err ==> rows == old(rows) || rows == old(rows) - {r.name}
    {
      hide Droppable, Unregister, ImportRootfs, DestroyRecursive, Coherent, SparesOthers, DatasetFor, Serves;
      ImportKeeps(View(), r, p);
      ImportExact(View(), r, p);
      if Imported(View(), r, p).1 == Done { ImportDone(View(), r, p); }
      if r.name == "" || r.size.None? || (r.kernel != "" && !r.kernelThere) { return true; }
      var dataset := DatasetFor(r.name);
      if Collides(rows, r.name) { return true; }
      if r.name in rows {
        err := Drop(r.name, p);
        if err { return; }
      }
      err := ImportImageRootfs(dataset, r.src, p.zfs);
      if err { return; }
      err := CreateImage(r.name, Row(dataset, r.kernel, r.size.value), p.insert);
      if err {
        var ignored := DestroyDatasetRecursive(dataset, p.undo);
      }
    }

    method Remove(name: string, p: Plan) returns (err: bool)
      requires Coherent(View())
      modifies this
      ensures View() == Removed(old(View()), name, p).0 && (err <==> Removed(old(View()), name, p).1 == Failed)
      ensures Coherent(View()) && SparesOthers(old(View()), View(), name)
      ensures !err <==> name != "default" && name in old(rows) && Droppable(old(datasets), DatasetFor(name), p)
      ensures !err ==> rows == old(rows) - {name} && DatasetFor(name) !in datasets
      ensures rows == old(rows) || (rows == old(rows) - {name} && DatasetFor(name) !in datasets)
      ensures !p.tasks.ok ==> rows == old(rows) &&
                              Holds(datasets, DatasetFor(name)) == Holds(old(datasets), DatasetFor(name))
    {
      hide Unregister, Coherent, SparesOthers, DatasetFor, Droppable;
      RemoveKeeps(View(), name, p);
      RemoveExact(View(), name, p);
      if name == "default" { return true; }
      if name !in rows { return true; }
      err := Drop(name, p);
    }

    method EnsureDefault(src: string, size: Option<nat>, p: Plan) returns (err: bool)
      requires Coherent(View())
      modifies this
      ensures View() == Ensured(old(View()), src, size, p).0 &&
                (err <==> Ensured(old(View()), src, size, p).1 == Failed)
      ensures Coherent(View()) && SparesOthers(old(View()), View(), "default")
      ensures !err <==> ("default" in old(rows) || (p.insert.ok && !Collides(old(rows), "default"))) &&
                        if HasBase(old(datasets), "rootfs") then p.query else Smooth(p.zfs)
      ensures !err ==> "default" in rows && HasBase(datasets, "rootfs")
      ensures !err && HasBase(old(datasets), "rootfs") ==> datasets == old(datasets)
      ensures !err && !HasBase(old(datasets), "rootfs") ==> Holds(datasets, "rootfs") == Some((Some(src), Some(src)))
    {
      hide ImportRootfs, Coherent, SparesOthers, Collides;
      EnsureKeeps(View(), src, size, p);
      EnsureExact(View(), src, size, p);
      if "default" !in rows {
        err := CreateImage("default", Row("rootfs", "", if size.Some? then size.value else 0), p.insert);
        if err { return; }
      }
      err := false;
      var row := rows["default"];
      if !(HasBase(datasets, row.dataset) && p.query) {
        err := ImportImageRootfs(row.dataset, src, p.zfs);
        if !err && size.Some? && p.resize {
          rows := rows["default" := row.(size := size.value)];
        }
      }
    }
  }
}
