/**
 Retention in the console archive: stale staging directories, entries that are too old, and
 then oldest first until the rest fits. Every removal can fail and leave part of a directory.
 */
module Prune {
  import opened Common
  import opened ConsoleArchive

  /** Something in the archive directory; `bytes` is what it holds. */
  datatype Item = Item(isDir: bool, modTime: int, bytes: nat)

  datatype Entry = Entry(name: string, modTime: int, bytes: nat)

  type Dir = map<string, Item>

  const STAGING_MAX_AGE := 3600

  /** Which names cannot be examined, which removals fail in each pass, and what then is left. */
  datatype Faults = Faults(unreadable: string -> bool, stuckStaging: string -> bool, stuckAge: string -> bool,
                           stuckBytes: string -> bool, left: string -> nat)

  ghost predicate NoFailure(f: Faults, d: Dir) {
    forall n :: n in d ==> !f.unreadable(n) && !f.stuckStaging(n) && !f.stuckAge(n) && !f.stuckBytes(n)
  }

  predicate IsEntry(d: Dir, name: string, f: Faults) {
    name in d && d[name].isDir && !f.unreadable(name) && ValidEntryName(name)
  }

  predicate IsStale(d: Dir, name: string, f: Faults, now: int) {
    name in d && d[name].isDir && !f.unreadable(name) && STAGING <= name && ValidEntryName(name[|STAGING|..]) &&
    now - d[name].modTime > STAGING_MAX_AGE
  }

  function EntryOf(d: Dir, name: string): Entry
    requires name in d
  {
    Entry(name, d[name].modTime, d[name].bytes)
  }

  function Bytes(s: seq<Entry>): nat {
    if s == [] then 0 else Bytes(s[..|s| - 1]) + s[|s| - 1].bytes
  }

  lemma {:induction false} BytesAppend(s: seq<Entry>, t: seq<Entry>)
    ensures Bytes(s + t) == Bytes(s) + Bytes(t)
  {
    if t == [] {
      assert s + t == s;
    } else {
      var n := |t| - 1;
      assert (s + t)[..|s + t| - 1] == s + t[..n];
      BytesAppend(s, t[..n]);
    }
  }

  ghost predicate DistinctNames(s: seq<Entry>) {
    forall i, j :: 0 <= i < j < |s| ==> s[i].name != s[j].name
  }

  ghost predicate Sorted(s: seq<Entry>) {
    forall i, j :: 0 <= i < j < |s| ==> Less(s[i].name, s[j].name)
  }

  // ---- sort ---------------------------------------------------------------------------------

  /** Put an entry in its place by name. */
  method Insert(e: Entry, s: seq<Entry>) returns (r: seq<Entry>)
    requires Sorted(s) && forall x :: x in s ==> x.name != e.name
    ensures Sorted(r) && multiset(r) == multiset(s) + multiset{e}
  {
    var i := 0;
    while i < |s| && Less(s[i].name, e.name)
      invariant 0 <= i <= |s|
      invariant forall j :: 0 <= j < i ==> Less(s[j].name, e.name)
    {
      i := i + 1;
    }
    r := s[..i] + [e] + s[i..];
    InsertedAt(e, s, i);
  }

  lemma InsertedAt(e: Entry, s: seq<Entry>, i: nat)
    requires i <= |s| && Sorted(s) && forall x :: x in s ==> x.name != e.name
    requires forall j :: 0 <= j < i ==> Less(s[j].name, e.name)
    requires i < |s| ==> !Less(s[i].name, e.name)
    ensures Sorted(s[..i] + [e] + s[i..]) && multiset(s[..i] + [e] + s[i..]) == multiset(s) + multiset{e}
  {
    hide Less, Sorted;
    assert s == s[..i] + s[i..];
    GreaterFrom(e, s, i);
    SortedJoin(s[..i], e, s[i..]);
  }

  lemma GreaterFrom(e: Entry, s: seq<Entry>, i: nat)
    requires i <= |s| && Sorted(s) && forall x :: x in s ==> x.name != e.name
    requires i < |s| ==> !Less(s[i].name, e.name)
    ensures forall j :: i <= j < |s| ==> Less(e.name, s[j].name)
  {
    hide Less;
    forall j | i <= j < |s| ensures Less(e.name, s[j].name) {
      assert s[i] in s;
      LessTotal(s[i].name, e.name);
      if j > i { LessTransitive(e.name, s[i].name, s[j].name); }
    }
  }

  lemma SortedJoin(a: seq<Entry>, e: Entry, b: seq<Entry>)
    requires Sorted(a + b)
    requires forall i :: 0 <= i < |a| ==> Less(a[i].name, e.name)
    requires forall i :: 0 <= i < |b| ==> Less(e.name, b[i].name)
    ensures Sorted(a + [e] + b)
  {
    hide Less;
    var r := a + [e] + b;
    forall i, j | 0 <= i < j < |r| ensures Less(r[i].name, r[j].name) {
      if i != |a| && j != |a| {
        assert Less((a + b)[if i < |a| then i else i - 1].name, (a + b)[if j < |a| then j else j - 1].name);
      }
    }
  }

  method SortByName(entries: seq<Entry>) returns (sorted: seq<Entry>)
    requires DistinctNames(entries)
    ensures Sorted(sorted) && multiset(sorted) == multiset(entries)
  {
    sorted := [];
    var i := 0;
    while i < |entries|
      invariant 0 <= i <= |entries|
      invariant Sorted(sorted) && multiset(sorted) == multiset(entries[..i])
    {
      assert entries[..i + 1] == entries[..i] + [entries[i]];
      forall x | x in sorted ensures x.name != entries[i].name {
        assert x in multiset(sorted);
        assert x in entries[..i];
      }
      sorted := Insert(entries[i], sorted);
      i := i + 1;
    }
    assert entries[..i] == entries;
  }

  // ---- what the passes keep --------------------------------------------------------------------

  predicate TooOld(e: Entry, now: int, maxAge: int) {
    maxAge > 0 && now - e.modTime > maxAge
  }

  /** The entries the age pass does not remove. */
  function Kept(s: seq<Entry>, now: int, maxAge: int, f: Faults): (r: seq<Entry>)
    ensures forall e :: e in r <==> e in s && !(TooOld(e, now, maxAge) && !f.stuckAge(e.name))
  {
    if s == [] then []
    else
      var n := |s| - 1;
      assert s == s[..n] + [s[n]];
      Kept(s[..n], now, maxAge, f) + if TooOld(s[n], now, maxAge) && !f.stuckAge(s[n].name) then [] else [s[n]]
  }

  lemma {:induction false} KeptSorted(s: seq<Entry>, now: int, maxAge: int, f: Faults)
    requires Sorted(s)
    ensures Sorted(Kept(s, now, maxAge, f))
  {
    if s == [] {
    } else {
      var n := |s| - 1;
      KeptSorted(s[..n], now, maxAge, f);
      forall e | e in Kept(s[..n], now, maxAge, f) ensures Less(e.name, s[n].name) {
        assert e in s[..n];
      }
    }
  }

  /** Of the entries the byte pass has tried so far, those whose removal failed. */
  function Stuck(s: seq<Entry>, f: Faults): seq<Entry> {
    if s == [] then []
    else
      var n := |s| - 1;
      Stuck(s[..n], f) + if f.stuckBytes(s[n].name) then [s[n]] else []
  }

  /** The kept entries that are still there after the byte pass has tried the first i. */
  function Remaining(kept: seq<Entry>, i: nat, f: Faults): seq<Entry>
    requires i <= |kept|
  {
    Stuck(kept[..i], f) + kept[i..]
  }

  lemma BytesOfOne(e: Entry)
    ensures Bytes([e]) == e.bytes
  {
  }

  lemma TakeOne(before: seq<Entry>, e: Entry, after: seq<Entry>)
    ensures Bytes(before + ([e] + after)) == Bytes(before + after) + e.bytes
    ensures (before + [e]) + after == before + ([e] + after)
  {
    BytesAppend(before, [e] + after);
    BytesAppend([e], after);
    BytesOfOne(e);
    BytesAppend(before, after);
    hide Bytes;
  }

  lemma RemainingStep(kept: seq<Entry>, i: nat, f: Faults)
    requires i < |kept|
    ensures Bytes(Remaining(kept, i + 1, f)) ==
            Bytes(Remaining(kept, i, f)) - if f.stuckBytes(kept[i].name) then 0 else kept[i].bytes
  {
    StuckStep(kept, i, f);
    TakeOne(Stuck(kept[..i], f), kept[i], kept[i + 1..]);
    hide Stuck, Bytes;
    assert kept[i..] == [kept[i]] + kept[i + 1..];
  }

  lemma StuckStep(kept: seq<Entry>, i: nat, f: Faults)
    requires i < |kept|
    ensures Stuck(kept[..i + 1], f) ==
            if f.stuckBytes(kept[i].name) then Stuck(kept[..i], f) + [kept[i]] else Stuck(kept[..i], f)
  {
    assert kept[..i + 1][..i] == kept[..i];
    assert Stuck(kept[..i], f) + [] == Stuck(kept[..i], f);
  }

  /** What a removal makes of an item. */
  function Trimmed(x: Item, left: nat): Item {
    x.(bytes := if left < x.bytes then left else x.bytes)
  }

  /** The directory after the entries in `tried` have been removed or, where stuck, trimmed. */
  ghost predicate Swept(before: Dir, after: Dir, tried: set<string>, stuck: string -> bool, left: string -> nat) {
    forall n :: if n in before && (n !in tried || stuck(n))
                then n in after && after[n] == (if n in tried then Trimmed(before[n], left(n)) else before[n])
                else n !in after
  }

  // ---- the pruner ------------------------------------------------------------------------------

  class Archiver {
    const maxTotalBytes: int
    const maxAge: int
    var dir: Dir

    constructor (maxTotalBytes: int, maxAge: int, dir: Dir)
      ensures this.maxTotalBytes == maxTotalBytes && this.maxAge == maxAge && this.dir == dir
    {
      this.maxTotalBytes, this.maxAge, this.dir := maxTotalBytes, maxAge, dir;
    }

    method RemoveAll(name: string, stuck: bool, left: nat) returns (err: bool)
      requires name in dir
      modifies this`dir
      ensures dir == if stuck then old(dir)[name := Trimmed(old(dir)[name], left)] else old(dir) - {name}
      ensures err == stuck
    {
      dir := if stuck then dir[name := Trimmed(dir[name], left)] else dir - {name};
      err := stuck;
    }

    /** One directory entry: a stale staging directory is removed, an archive entry is reported,
        and everything else is passed over. */
    method Visit(name: string, now: int, f: Faults) returns (entry: Option<Entry>, freed: Option<Entry>)
      requires name in dir
      modifies this`dir
      ensures entry == if IsEntry(old(dir), name, f) then Some(EntryOf(old(dir), name)) else None
      ensures freed == if IsStale(old(dir), name, f, now) && !f.stuckStaging(name) then Some(EntryOf(old(dir), name))
                       else None
      ensures dir == if !IsStale(old(dir), name, f, now) then old(dir)
                     else if f.stuckStaging(name) then old(dir)[name := Trimmed(old(dir)[name], f.left(name))]
                     else old(dir) - {name}
    {
      entry, freed := None, None;
      if !dir[name].isDir { return; }
      if f.unreadable(name) { return; }
      NeitherBoth(name);
      if STAGING <= name {
        if !ValidEntryName(name[|STAGING|..]) { return; }
        if now - dir[name].modTime > STAGING_MAX_AGE {
          var item := EntryOf(dir, name);
          var err := RemoveAll(name, f.stuckStaging(name), f.left(name));
          if !err { freed := Some(item); }
        }
        return;
      }
      if (name != "" && name[0] == '.') || !ValidEntryName(name) { return; }
      entry := Some(EntryOf(dir, name));
    }

    /** The walk over the directory. */
    method Collect(listing: seq<string>, now: int, f: Faults)
      returns (entries: seq<Entry>, removed: nat, removedBytes: nat, ghost gone: seq<Entry>)
      requires NoDup(listing) && forall n :: n in listing <==> n in dir
      modifies this`dir
      ensures AreEntries(entries, old(dir), f, old(dir).Keys)
      ensures Swept(old(dir), dir, Stales(old(dir), f, now), f.stuckStaging, f.left)
      ensures removed == |gone| && removedBytes == Bytes(gone) && AreFreed(gone, old(dir), f, now, old(dir).Keys)
    {
      hide AreEntries, AreFreed, Swept, Bytes, Stales, IsEntry, IsStale;
      entries, removed, removedBytes, gone := [], 0, 0, [];
      ghost var done: set<string> := {};
      Nothing(dir, f, now);
      var i := 0;
      while i < |listing|
        invariant 0 <= i <= |listing| && done <= old(dir).Keys
        invariant forall n :: n in done <==> n in listing[..i]
        invariant AreEntries(entries, old(dir), f, done)
        invariant Swept(old(dir), dir, done * Stales(old(dir), f, now), f.stuckStaging, f.left)
        invariant removed == |gone| && removedBytes == Bytes(gone) && AreFreed(gone, old(dir), f, now, done)
      {
        var name := listing[i];
        assert name !in done && name in old(dir);
        ghost var before := dir;
        SameItem(old(dir), dir, name, f, now, done);
        var entry, freed := Visit(name, now, f);
        EntriesStep(entries, old(dir), f, done, name);
        FreedStep(gone, old(dir), f, now, done, name);
        SweptStep(old(dir), before, dir, f, now, done, name);
        if entry.Some? {
          entries := entries + [entry.value];
        }
        if freed.Some? {
          removed := removed + 1;
          removedBytes := removedBytes + freed.value.bytes;
          BytesAppend(gone, [freed.value]);
          BytesOfOne(freed.value);
          gone := gone + [freed.value];
        }
        assert listing[..i + 1] == listing[..i] + [name];
        done := done + {name};
        i := i + 1;
      }
      assert listing[..i] == listing;
      assert done == old(dir).Keys;
      StalesThere(old(dir), f, now);
      assert done * Stales(old(dir), f, now) == Stales(old(dir), f, now);
    }

    /** The age pass, in name order: what is too old goes, unless its removal fails. */
    method AgePass(entries: seq<Entry>, now: int, f: Faults)
      returns (kept: seq<Entry>, removed: nat, removedBytes: nat, ghost gone: seq<Entry>)
      requires Sorted(entries) && forall e :: e in entries ==> e.name in dir
      modifies this`dir
      ensures AfterAge(old(dir), dir, entries, now, maxAge, f, kept, gone)
      ensures removed == |gone| && removedBytes == Bytes(gone)
    {
      hide Bytes, TooOld, AfterAge;
      kept, removed, removedBytes, gone := [], 0, 0, [];
      NoneTried(dir, now, maxAge, f);
      var i := 0;
      while i < |entries|
        invariant 0 <= i <= |entries|
        invariant AfterAge(old(dir), dir, entries[..i], now, maxAge, f, kept, gone)
        invariant removed == |gone| && removedBytes == Bytes(gone)
      {
        var e := entries[i];
        ghost var mid := dir;
        SortedDistinct(entries, i);
        OldIs(e, now, maxAge);
        AgeStep(old(dir), mid, entries[..i], e, now, maxAge, f, kept, gone);
        assert entries[..i + 1] == entries[..i] + [e];
        i := i + 1;
        if maxAge > 0 && now - e.modTime > maxAge {
          var err := RemoveAll(e.name, f.stuckAge(e.name), f.left(e.name));
          if !err {
            removed := removed + 1;
            removedBytes := removedBytes + e.bytes;
            BytesAppend(gone, [e]);
            BytesOfOne(e);
            gone := gone + [e];
            continue;
          }
        }
        kept := kept + [e];
      }
      assert entries[..i] == entries;
    }

    /** The byte pass: oldest first, until the rest fits or only the newest is left. `total` is
        at every moment the bytes of the kept entries not yet removed. */
    method BytePass(kept: seq<Entry>, f: Faults)
      returns (removed: nat, removedBytes: nat, total: nat, ghost cut: nat, ghost gone: seq<Entry>)
      requires Sorted(kept) && forall e :: e in kept ==> e.name in dir
      modifies this`dir
      ensures cut <= |kept| && (kept != [] ==> cut < |kept|)
      ensures AfterBytes(old(dir), dir, kept[..cut], f, gone)
      ensures total == Bytes(Remaining(kept, cut, f))
      ensures total <= maxTotalBytes || maxTotalBytes <= 0 || cut + 1 >= |kept|
      ensures cut > 0 ==> 0 < maxTotalBytes < Bytes(Remaining(kept, cut - 1, f))
      ensures removed == |gone| && removedBytes == Bytes(gone)
    {
      hide Bytes, Remaining, AfterBytes;
      total := Total(kept);
      removed, removedBytes, cut, gone := 0, 0, 0, [];
      NoneTried(dir, 0, maxAge, f);
      AllRemain(kept, f);
      var i := 0;
      while maxTotalBytes > 0 && total > maxTotalBytes && |kept| - i > 1
        invariant 0 <= i <= |kept| && (kept != [] ==> i < |kept|) && cut == i
        invariant AfterBytes(old(dir), dir, kept[..i], f, gone)
        invariant total == Bytes(Remaining(kept, i, f))
        invariant i > 0 ==> 0 < maxTotalBytes < Bytes(Remaining(kept, i - 1, f))
        invariant removed == |gone| && removedBytes == Bytes(gone)
        decreases |kept| - i
      {
        var e := kept[i];
        RemainingStep(kept, i, f);
        SortedDistinct(kept, i);
        ByteStep(old(dir), dir, kept[..i], e, f, gone);
        assert kept[..i + 1] == kept[..i] + [e];
        i, cut := i + 1, cut + 1;
        var err := RemoveAll(e.name, f.stuckBytes(e.name), f.left(e.name));
        if err { continue; }
        total := total - e.bytes;
        removed := removed + 1;
        removedBytes := removedBytes + e.bytes;
        BytesAppend(gone, [e]);
        BytesOfOne(e);
        gone := gone + [e];
      }
      assert kept[..cut] == kept[..i];
    }

    method Total(kept: seq<Entry>) returns (total: nat)
      ensures total == Bytes(kept)
    {
      total := 0;
      var i := 0;
      while i < |kept|
        invariant 0 <= i <= |kept| && total == Bytes(kept[..i])
      {
        assert kept[..i + 1][..i] == kept[..i];
        total := total + kept[i].bytes;
        i := i + 1;
      }
      assert kept[..i] == kept;
    }

    /** pruneLocked. `kept` are the entries the age pass leaves, oldest first, and `cut` how many
        of them the byte pass has tried. */
    method Prune(listing: ReadDir, now: int, f: Faults)
      returns (err: bool, removed: nat, removedBytes: nat, ghost kept: seq<Entry>, ghost cut: nat,
               ghost gone: seq<Entry>)
      requires listing.Listed? ==> NoDup(listing.names) && forall n :: n in listing.names <==> n in dir
      modifies this`dir
      ensures err <==> listing.Unreadable?
      ensures !listing.Listed? ==> dir == old(dir) && removed == 0
      ensures removed == |gone| && removedBytes == Bytes(gone)
      ensures cut <= |kept| && (kept != [] ==> cut < |kept|)
      ensures listing.Listed? ==> Pruned(old(dir), dir, now, maxAge, f, kept, cut, gone)
      ensures listing.Listed? ==>
                Bytes(Remaining(kept, cut, f)) <= maxTotalBytes || maxTotalBytes <= 0 || cut + 1 >= |kept|
      ensures cut > 0 ==> 0 < maxTotalBytes < Bytes(Remaining(kept, cut - 1, f))
    {
      err, removed, removedBytes, kept, cut, gone := false, 0, 0, [], 0, [];
      assert Bytes([]) == 0 by { NoneTried(dir, now, maxAge, f); }
      if listing.Missing? { return; }
      if listing.Unreadable? { err := true; return; }
      hide Bytes, Pruned, Remaining;
      removed, removedBytes, kept, cut, gone := PruneListed(listing.names, now, f);
    }

    method PruneListed(names: seq<string>, now: int, f: Faults)
      returns (removed: nat, removedBytes: nat, ghost kept: seq<Entry>, ghost cut: nat, ghost gone: seq<Entry>)
      requires NoDup(names) && forall n :: n in names <==> n in dir
      modifies this`dir
      ensures removed == |gone| && removedBytes == Bytes(gone)
      ensures cut <= |kept| && (kept != [] ==> cut < |kept|)
      ensures Pruned(old(dir), dir, now, maxAge, f, kept, cut, gone)
      ensures Bytes(Remaining(kept, cut, f)) <= maxTotalBytes || maxTotalBytes <= 0 || cut + 1 >= |kept|
      ensures cut > 0 ==> 0 < maxTotalBytes < Bytes(Remaining(kept, cut - 1, f))
    {
      hide Bytes, IsEntry, IsStale, Swept, AreEntries, AreFreed, AfterAge, AfterBytes, Remaining, Pruned, Lost,
        Within, TooOld, Sorted, DistinctNames;
      ghost var d0 := dir;
      var entries, n1, b1, g1 := Collect(names, now, f);
      ghost var d1 := dir;
      EntriesDistinct(d0, d1, f, now, entries);
      CollectedIs(d0, d1, f, now, g1);
      var sorted := SortByName(entries);
      SameEntries(d0, d1, f, now, entries, sorted);
      var left, n2, b2, g2 := AgePass(sorted, now, f);
      ghost var d2 := dir;
      KeptStays(d1, d2, sorted, now, maxAge, f, left, g2);
      var n3, b3, total, c, g3 := BytePass(left, f);
      TriedIs(d2, dir, left, c, f, g3);
      kept, cut, gone := left, c, g1 + g2 + g3;
      BytesAppend(g1, g2);
      BytesAppend(g1 + g2, g3);
      removed, removedBytes := n1 + n2 + n3, b1 + b2 + b3;
      PrunedIs(d0, d1, d2, dir, now, maxAge, f, sorted, kept, cut, g1, g2, g3);
    }
  }

  datatype ReadDir = Missing | Unreadable | Listed(names: seq<string>)

  /** What pruning has done: nothing to anything that is neither an archive entry nor a stale
      staging directory; `kept` are exactly the entries that are not too old (or whose removal
      failed), oldest first; those from `cut` on are untouched by the byte pass; and `gone` are
      exactly the directories that are gone, with their sizes. */
  ghost predicate Pruned(d: Dir, d': Dir, now: int, maxAge: int, f: Faults, kept: seq<Entry>, cut: nat,
                         gone: seq<Entry>)
    requires cut <= |kept|
  {
    && Untouched(d, d', f, now)
    && Sorted(kept)
    && (forall e :: e in kept <==>
        IsEntry(d, e.name, f) && e == EntryOf(d, e.name) && !(TooOld(e, now, maxAge) && !f.stuckAge(e.name)))
    && (forall i :: cut <= i < |kept| ==> kept[i].name in d')
    && (forall i :: 0 <= i < cut ==> (kept[i].name in d' <==> f.stuckBytes(kept[i].name)))
    && DistinctNames(gone)
    && (forall e :: e in gone ==> e.name in d && e == EntryOf(d, e.name) && e.name !in d')
    && (forall n :: n in d && n !in d' ==> EntryOf(d, n) in gone)
    && (forall n :: n in d && IsEntry(d, n, f) && EntryOf(d, n) !in kept ==> n !in d')
    && (forall n :: n in d && IsStale(d, n, f, now) && !f.stuckStaging(n) ==> n !in d')
  }

  ghost predicate Untouched(d: Dir, d': Dir, f: Faults, now: int) {
    && (forall n :: n in d' ==> n in d)
    && (forall n :: n in d && !IsEntry(d, n, f) && !IsStale(d, n, f, now) ==> n in d' && d'[n] == d[n])
  }

  function Names(s: seq<Entry>): set<string> {
    set e | e in s :: e.name
  }

  function OldNames(s: seq<Entry>, now: int, maxAge: int): set<string> {
    set e | e in s && TooOld(e, now, maxAge) :: e.name
  }

  /** The directory and the two lists when the age pass has gone through s. */
  ghost predicate AfterAge(d: Dir, d': Dir, s: seq<Entry>, now: int, maxAge: int, f: Faults, kept: seq<Entry>,
                           gone: seq<Entry>) {
    && kept == Kept(s, now, maxAge, f)
    && Swept(d, d', OldNames(s, now, maxAge), f.stuckAge, f.left)
    && GoneByAge(s, now, maxAge, f, gone)
  }

  ghost predicate GoneByAge(s: seq<Entry>, now: int, maxAge: int, f: Faults, gone: seq<Entry>) {
    DistinctNames(gone) && forall e :: e in gone <==> e in s && TooOld(e, now, maxAge) && !f.stuckAge(e.name)
  }

  /** ... and when the byte pass has tried s. */
  ghost predicate AfterBytes(d: Dir, d': Dir, s: seq<Entry>, f: Faults, gone: seq<Entry>) {
    && Swept(d, d', Names(s), f.stuckBytes, f.left)
    && DistinctNames(gone)
    && forall e :: e in gone <==> e in s && !f.stuckBytes(e.name)
  }

  lemma NoneTried(d: Dir, now: int, maxAge: int, f: Faults)
    ensures AfterAge(d, d, [], now, maxAge, f, [], []) && AfterBytes(d, d, [], f, []) && Bytes([]) == 0
  {
  }

  lemma AllRemain(kept: seq<Entry>, f: Faults)
    ensures Remaining(kept, 0, f) == kept && kept[..0] == []
  {
  }

  lemma SweptMore(d: Dir, mid: Dir, tried: set<string>, name: string, stuck: string -> bool, left: string -> nat)
    requires Swept(d, mid, tried, stuck, left) && name in d && name !in tried
    ensures name in mid && mid[name] == d[name]
    ensures Swept(d, if stuck(name) then mid[name := Trimmed(mid[name], left(name))] else mid - {name},
                  tried + {name}, stuck, left)
  {
    hide Trimmed;
  }

  lemma AgeStep(d: Dir, mid: Dir, s: seq<Entry>, e: Entry, now: int, maxAge: int, f: Faults, kept: seq<Entry>,
                gone: seq<Entry>)
    requires AfterAge(d, mid, s, now, maxAge, f, kept, gone)
    requires e.name in d && forall x :: x in s ==> x.name != e.name
    ensures e.name in mid
    ensures AfterAge(d, if !TooOld(e, now, maxAge) then mid
                        else if f.stuckAge(e.name) then mid[e.name := Trimmed(mid[e.name], f.left(e.name))]
                        else mid - {e.name},
                     s + [e], now, maxAge, f,
                     if TooOld(e, now, maxAge) && !f.stuckAge(e.name) then kept else kept + [e],
                     if TooOld(e, now, maxAge) && !f.stuckAge(e.name) then gone + [e] else gone)
  {
    hide Swept, TooOld, Kept, Trimmed, GoneByAge;
    assert e.name !in OldNames(s, now, maxAge);
    hide OldNames;
    SweptMore(d, mid, OldNames(s, now, maxAge), e.name, f.stuckAge, f.left);
    OneMore(s, e, now, maxAge, f);
    OneMoreGone(s, e, now, maxAge, f, gone);
    assert Kept(s, now, maxAge, f) + [] == Kept(s, now, maxAge, f);
    assert OldNames(s, now, maxAge) + {} == OldNames(s, now, maxAge);
  }

  lemma OneMoreGone(s: seq<Entry>, e: Entry, now: int, maxAge: int, f: Faults, gone: seq<Entry>)
    requires GoneByAge(s, now, maxAge, f, gone) && forall x :: x in s ==> x.name != e.name
    ensures GoneByAge(s + [e], now, maxAge, f,
                      if TooOld(e, now, maxAge) && !f.stuckAge(e.name) then gone + [e] else gone)
  {
    hide TooOld;
  }

  lemma OneMore(s: seq<Entry>, e: Entry, now: int, maxAge: int, f: Faults)
    ensures Kept(s + [e], now, maxAge, f) ==
            Kept(s, now, maxAge, f) + if TooOld(e, now, maxAge) && !f.stuckAge(e.name) then [] else [e]
    ensures OldNames(s + [e], now, maxAge) == OldNames(s, now, maxAge) + if TooOld(e, now, maxAge) then {e.name} else {}
  {
    assert (s + [e])[..|s|] == s;
    hide TooOld;
  }

  lemma ByteStep(d: Dir, mid: Dir, s: seq<Entry>, e: Entry, f: Faults, gone: seq<Entry>)
    requires AfterBytes(d, mid, s, f, gone)
    requires e.name in d && forall x :: x in s ==> x.name != e.name
    ensures e.name in mid
    ensures AfterBytes(d, if f.stuckBytes(e.name) then mid[e.name := Trimmed(mid[e.name], f.left(e.name))]
                       else mid - {e.name},
                       s + [e], f, if f.stuckBytes(e.name) then gone else gone + [e])
  {
    SweptMore(d, mid, Names(s), e.name, f.stuckBytes, f.left);
    assert Names(s + [e]) == Names(s) + {e.name};
    hide Swept;
  }

  lemma OldIs(e: Entry, now: int, maxAge: int)
    ensures TooOld(e, now, maxAge) <==> maxAge > 0 && now - e.modTime > maxAge
  {
  }

  lemma SortedDistinct(s: seq<Entry>, i: nat)
    requires Sorted(s) && i < |s|
    ensures forall x :: x in s[..i] ==> x.name != s[i].name
  {
    forall x | x in s[..i] ensures x.name != s[i].name {
      LessTotal(x.name, s[i].name);
    }
  }

  /** No name is an entry and a stale staging directory at once. */
  lemma Apart(d: Dir, name: string, f: Faults, now: int)
    ensures !(IsEntry(d, name, f) && IsStale(d, name, f, now))
  {
  }

  lemma EntriesDistinct(d0: Dir, d1: Dir, f: Faults, now: int, entries: seq<Entry>)
    requires AreEntries(entries, d0, f, d0.Keys) && Swept(d0, d1, Stales(d0, f, now), f.stuckStaging, f.left)
    ensures DistinctNames(entries)
    ensures forall e :: e in entries <==> IsEntry(d0, e.name, f) && e == EntryOf(d0, e.name)
    ensures forall e :: e in entries ==> e.name in d1 && d1[e.name] == d0[e.name]
  {
    forall e | e in entries ensures e.name in d1 && d1[e.name] == d0[e.name] {
      Apart(d0, e.name, f, now);
    }
  }

  lemma SameEntries(d0: Dir, d1: Dir, f: Faults, now: int, entries: seq<Entry>, sorted: seq<Entry>)
    requires multiset(sorted) == multiset(entries)
    ensures forall e :: e in sorted <==> e in entries
  {
    forall e ensures e in sorted <==> e in entries {
      assert e in sorted <==> e in multiset(sorted);
      assert e in entries <==> e in multiset(entries);
    }
  }

  /** Exactly the directories of these entries are gone. */
  ghost predicate Lost(d: Dir, d': Dir, gone: seq<Entry>) {
    forall n :: n in d' <==> n in d && forall e :: e in gone ==> e.name != n
  }

  /** Nothing changes but under these names. */
  ghost predicate Within(d: Dir, d': Dir, names: set<string>) {
    forall n :: n in d && n !in names ==> n in d' && d'[n] == d[n]
  }

  lemma SweptIs(d: Dir, d': Dir, tried: set<string>, stuck: string -> bool, left: string -> nat, gone: seq<Entry>)
    requires Swept(d, d', tried, stuck, left)
    requires forall e :: e in gone ==> e.name in tried && !stuck(e.name)
    requires forall n :: n in tried && n in d && !stuck(n) ==> exists e :: e in gone && e.name == n
    ensures Lost(d, d', gone) && Within(d, d', tried)
  {
    hide Trimmed;
  }

  lemma CollectedIs(d0: Dir, d1: Dir, f: Faults, now: int, gone: seq<Entry>)
    requires AreFreed(gone, d0, f, now, d0.Keys) && Swept(d0, d1, Stales(d0, f, now), f.stuckStaging, f.left)
    ensures Lost(d0, d1, gone) && Within(d0, d1, Stales(d0, f, now))
  {
    hide IsStale;
    forall n | n in Stales(d0, f, now) && n in d0 && !f.stuckStaging(n) ensures exists e :: e in gone && e.name == n {
      assert EntryOf(d0, n) in gone;
    }
    SweptIs(d0, d1, Stales(d0, f, now), f.stuckStaging, f.left, gone);
  }

  lemma KeptStays(d1: Dir, d2: Dir, s: seq<Entry>, now: int, maxAge: int, f: Faults, kept: seq<Entry>, gone: seq<Entry>)
    requires AfterAge(d1, d2, s, now, maxAge, f, kept, gone) && Sorted(s)
    requires forall e :: e in s ==> e.name in d1
    ensures Sorted(kept)
    ensures forall e :: e in kept <==> e in s && !(TooOld(e, now, maxAge) && !f.stuckAge(e.name))
    ensures forall e :: e in gone <==> e in s && TooOld(e, now, maxAge) && !f.stuckAge(e.name)
    ensures DistinctNames(gone)
    ensures Lost(d1, d2, gone) && Within(d1, d2, Names(s))
    ensures forall e :: e in kept ==> e.name in d2
  {
    KeptSorted(s, now, maxAge, f);
    hide TooOld;
    forall n | n in OldNames(s, now, maxAge) && n in d1 && !f.stuckAge(n) ensures exists e :: e in gone && e.name == n {
      var e :| e in s && TooOld(e, now, maxAge) && e.name == n;
      assert e in gone;
    }
    SweptIs(d1, d2, OldNames(s, now, maxAge), f.stuckAge, f.left, gone);
    OneName(s);
    hide Swept, Kept;
  }

  /** In a sorted list, a name belongs to one entry. */
  lemma OneName(s: seq<Entry>)
    requires Sorted(s)
    ensures forall x, y :: x in s && y in s && x.name == y.name ==> x == y
  {
    forall x, y | x in s && y in s && x.name == y.name ensures x == y {
      var i :| 0 <= i < |s| && s[i] == x;
      var j :| 0 <= j < |s| && s[j] == y;
      LessTotal(x.name, y.name);
    }
  }

  lemma TriedIs(d2: Dir, d3: Dir, kept: seq<Entry>, cut: nat, f: Faults, gone: seq<Entry>)
    requires cut <= |kept| && Sorted(kept) && AfterBytes(d2, d3, kept[..cut], f, gone)
    requires forall e :: e in kept ==> e.name in d2
    ensures Lost(d2, d3, gone) && Within(d2, d3, Names(kept)) && DistinctNames(gone)
    ensures forall e :: e in gone ==> e in kept && !f.stuckBytes(e.name)
    ensures forall i :: cut <= i < |kept| ==> kept[i].name in d3
    ensures forall i :: 0 <= i < cut ==> (kept[i].name in d3 <==> f.stuckBytes(kept[i].name))
  {
    forall n | n in Names(kept[..cut]) && n in d2 && !f.stuckBytes(n) ensures exists e :: e in gone && e.name == n {
      var e :| e in kept[..cut] && e.name == n;
      assert e in gone;
    }
    SweptIs(d2, d3, Names(kept[..cut]), f.stuckBytes, f.left, gone);
    forall i | 0 <= i < |kept| ensures i < cut <==> kept[i].name in Names(kept[..cut]) {
      if i < cut {
        assert kept[..cut][i] in kept[..cut];
      } else {
        forall x | x in kept[..cut] ensures x.name != kept[i].name {
          LessTotal(x.name, kept[i].name);
        }
      }
    }
    hide Trimmed;
  }

  lemma PrunedIs(d0: Dir, d1: Dir, d2: Dir, d3: Dir, now: int, maxAge: int, f: Faults, s: seq<Entry>,
                 kept: seq<Entry>, cut: nat, g1: seq<Entry>, g2: seq<Entry>, g3: seq<Entry>)
    requires cut <= |kept| && AreFreed(g1, d0, f, now, d0.Keys)
    requires Lost(d0, d1, g1) && Within(d0, d1, Stales(d0, f, now))
    requires forall e :: e in s <==> IsEntry(d0, e.name, f) && e == EntryOf(d0, e.name)
    requires Sorted(kept) && DistinctNames(g2) && Lost(d1, d2, g2) && Within(d1, d2, Names(s))
    requires forall e :: e in kept <==> e in s && !(TooOld(e, now, maxAge) && !f.stuckAge(e.name))
    requires forall e :: e in g2 <==> e in s && TooOld(e, now, maxAge) && !f.stuckAge(e.name)
    requires DistinctNames(g3) && Lost(d2, d3, g3) && Within(d2, d3, Names(kept)) && forall e :: e in g3 ==> e in kept
    requires forall i :: cut <= i < |kept| ==> kept[i].name in d3
    requires forall i :: 0 <= i < cut ==> (kept[i].name in d3 <==> f.stuckBytes(kept[i].name))
    ensures Pruned(d0, d3, now, maxAge, f, kept, cut, g1 + g2 + g3)
  {
    hide IsEntry, IsStale, TooOld, Lost, Within, Untouched, AreFreed, DistinctNames, Sorted;
    FreedAreNoEntries(d0, f, now, g1);
    GoneDistinct(d0, f, s, kept, g1, g2, g3);
    UntouchedIs(d0, d1, d2, d3, f, now, s, kept, g1, g2, g3);
    GoneAre(d0, d1, d2, d3, f, now, s, kept, g1, g2, g3);
    RemovedAre(d0, f, now, maxAge, s, kept, g1, g2, g3);
  }

  lemma FreedAreNoEntries(d0: Dir, f: Faults, now: int, g1: seq<Entry>)
    requires AreFreed(g1, d0, f, now, d0.Keys)
    ensures DistinctNames(g1) && forall e :: e in g1 ==> !IsEntry(d0, e.name, f)
  {
    hide IsEntry, IsStale;
    forall e | e in g1 ensures !IsEntry(d0, e.name, f) {
      Apart(d0, e.name, f, now);
    }
  }

  lemma RemovedAre(d0: Dir, f: Faults, now: int, maxAge: int, s: seq<Entry>, kept: seq<Entry>, g1: seq<Entry>,
                   g2: seq<Entry>, g3: seq<Entry>)
    requires AreFreed(g1, d0, f, now, d0.Keys)
    requires forall e :: e in s <==> IsEntry(d0, e.name, f) && e == EntryOf(d0, e.name)
    requires forall e :: e in kept <==> e in s && !(TooOld(e, now, maxAge) && !f.stuckAge(e.name))
    requires forall e :: e in g2 <==> e in s && TooOld(e, now, maxAge) && !f.stuckAge(e.name)
    ensures forall n :: n in d0 && IsEntry(d0, n, f) && EntryOf(d0, n) !in kept ==> EntryOf(d0, n) in g1 + g2 + g3
    ensures forall n :: n in d0 && IsStale(d0, n, f, now) && !f.stuckStaging(n) ==> EntryOf(d0, n) in g1 + g2 + g3
  {
    hide IsEntry, IsStale, TooOld;
  }

  lemma UntouchedIs(d0: Dir, d1: Dir, d2: Dir, d3: Dir, f: Faults, now: int, s: seq<Entry>, kept: seq<Entry>,
                    g1: seq<Entry>, g2: seq<Entry>, g3: seq<Entry>)
    requires Lost(d0, d1, g1) && Within(d0, d1, Stales(d0, f, now))
    requires Lost(d1, d2, g2) && Within(d1, d2, Names(s)) && Lost(d2, d3, g3) && Within(d2, d3, Names(kept))
    requires (forall e :: e in s ==> IsEntry(d0, e.name, f)) && forall e :: e in kept ==> e in s
    ensures Untouched(d0, d3, f, now)
  {
    hide IsEntry, IsStale;
  }

  lemma GoneAre(d0: Dir, d1: Dir, d2: Dir, d3: Dir, f: Faults, now: int, s: seq<Entry>, kept: seq<Entry>,
                g1: seq<Entry>, g2: seq<Entry>, g3: seq<Entry>)
    requires AreFreed(g1, d0, f, now, d0.Keys) && Lost(d0, d1, g1) && Lost(d1, d2, g2) && Lost(d2, d3, g3)
    requires forall e :: e in s ==> IsEntry(d0, e.name, f) && e == EntryOf(d0, e.name)
    requires (forall e :: e in g2 ==> e in s) && forall e :: e in g3 ==> e in s
    ensures var gone := g1 + g2 + g3;
            && (forall e :: e in gone ==> e.name in d0 && e == EntryOf(d0, e.name) && e.name !in d3)
            && (forall n :: n in d0 && n !in d3 ==> EntryOf(d0, n) in gone)
  {
    hide Lost;
    var gone := g1 + g2 + g3;
    forall e | e in gone ensures e.name in d0 && e == EntryOf(d0, e.name) {
    }
    hide IsEntry, IsStale;
    LostTwice(d0, d1, d2, g1, g2);
    LostTwice(d0, d2, d3, g1 + g2, g3);
    LostAre(d0, d3, gone);
  }

  lemma LostTwice(a: Dir, b: Dir, c: Dir, g: seq<Entry>, h: seq<Entry>)
    requires Lost(a, b, g) && Lost(b, c, h)
    ensures Lost(a, c, g + h)
  {
  }

  lemma LostAre(d: Dir, d': Dir, gone: seq<Entry>)
    requires Lost(d, d', gone) && forall e :: e in gone ==> e.name in d && e == EntryOf(d, e.name)
    ensures forall e :: e in gone ==> e.name !in d'
    ensures forall n :: n in d && n !in d' ==> EntryOf(d, n) in gone
  {
  }

  lemma GoneDistinct(d0: Dir, f: Faults, s: seq<Entry>, kept: seq<Entry>, g1: seq<Entry>, g2: seq<Entry>,
                     g3: seq<Entry>)
    requires DistinctNames(g1) && DistinctNames(g2) && DistinctNames(g3)
    requires forall e :: e in g1 ==> !IsEntry(d0, e.name, f)
    requires forall e :: e in s ==> IsEntry(d0, e.name, f) && e == EntryOf(d0, e.name)
    requires forall e :: e in g2 ==> e in s && e !in kept
    requires forall e :: e in g3 ==> e in s && e in kept
    ensures DistinctNames(g1 + g2 + g3)
  {
    forall x, y | x in g2 && y in g3 ensures x.name != y.name {
      assert x == EntryOf(d0, x.name) && y == EntryOf(d0, y.name);
    }
    hide IsEntry;
    DistinctAppend(g1, g2);
    DistinctAppend(g1 + g2, g3);
  }

  lemma DistinctAppend(s: seq<Entry>, t: seq<Entry>)
    requires DistinctNames(s) && DistinctNames(t) && forall x, y :: x in s && y in t ==> x.name != y.name
    ensures DistinctNames(s + t)
  {
  }

  lemma Nothing(d: Dir, f: Faults, now: int)
    ensures AreEntries([], d, f, {}) && AreFreed([], d, f, now, {}) && Bytes([]) == 0
    ensures Swept(d, d, {} * Stales(d, f, now), f.stuckStaging, f.left)
  {
  }

  lemma SameItem(d: Dir, d': Dir, name: string, f: Faults, now: int, done: set<string>)
    requires name in d && name !in done && Swept(d, d', done * Stales(d, f, now), f.stuckStaging, f.left)
    ensures name in d' && d'[name] == d[name]
    ensures IsEntry(d', name, f) == IsEntry(d, name, f) && IsStale(d', name, f, now) == IsStale(d, name, f, now)
  {
  }

  lemma EntriesStep(s: seq<Entry>, d: Dir, f: Faults, done: set<string>, name: string)
    requires AreEntries(s, d, f, done) && name in d && name !in done
    ensures AreEntries(if IsEntry(d, name, f) then s + [EntryOf(d, name)] else s, d, f, done + {name})
  {
    hide IsEntry;
  }

  lemma FreedStep(s: seq<Entry>, d: Dir, f: Faults, now: int, done: set<string>, name: string)
    requires AreFreed(s, d, f, now, done) && name in d && name !in done
    ensures AreFreed(if IsStale(d, name, f, now) && !f.stuckStaging(name) then s + [EntryOf(d, name)] else s,
                     d, f, now, done + {name})
  {
    hide IsStale;
  }

  lemma SweptStep(d: Dir, before: Dir, after: Dir, f: Faults, now: int, done: set<string>, name: string)
    requires Swept(d, before, done * Stales(d, f, now), f.stuckStaging, f.left) && name in d && name !in done
    requires before[name] == d[name]
    requires after == if !IsStale(d, name, f, now) then before
                      else if f.stuckStaging(name) then before[name := Trimmed(d[name], f.left(name))]
                      else before - {name}
    ensures Swept(d, after, (done + {name}) * Stales(d, f, now), f.stuckStaging, f.left)
  {
  }

  /** The archive entries among these names, each once. */
  ghost predicate AreEntries(s: seq<Entry>, d: Dir, f: Faults, names: set<string>) {
    && DistinctNames(s)
    && (forall e :: e in s ==> e.name in names && IsEntry(d, e.name, f) && e == EntryOf(d, e.name))
    && (forall n :: n in names && IsEntry(d, n, f) ==> EntryOf(d, n) in s)
  }

  /** The staging directories among these names that were removed, each once. */
  ghost predicate AreFreed(s: seq<Entry>, d: Dir, f: Faults, now: int, names: set<string>) {
    && DistinctNames(s)
    && (forall e :: e in s ==>
        e.name in names && IsStale(d, e.name, f, now) && !f.stuckStaging(e.name) &&
        e == EntryOf(d, e.name))
    && (forall n :: n in names && IsStale(d, n, f, now) && !f.stuckStaging(n) ==> EntryOf(d, n) in s)
  }

  function Stales(d: Dir, f: Faults, now: int): set<string> {
    set n | n in d && IsStale(d, n, f, now)
  }

  lemma StalesThere(d: Dir, f: Faults, now: int)
    ensures Stales(d, f, now) <= d.Keys
  {
  }

  /** An accepted name is neither hidden nor a staging name. */
  lemma NeitherBoth(name: string)
    ensures ValidEntryName(name) ==> name != "" && name[0] != '.' && !(STAGING <= name)
  {
  }

  /** Which ages and names make the difference: of the readable directories with an accepted name
      after ".staging-" those older than an hour go, if they can be removed; of those with an
      accepted name those older than the maximum, if there is one; everything else that is not an
      entry stays as it is. */
  lemma AgesExact(d: Dir, d': Dir, now: int, maxAge: int, f: Faults, kept: seq<Entry>, cut: nat, gone: seq<Entry>,
                  n: string)
    requires cut <= |kept| && Pruned(d, d', now, maxAge, f, kept, cut, gone) && n in d
    ensures var x := d[n];
            var seen := x.isDir && !f.unreadable(n);
            var staged := seen && ".staging-" <= n && ValidEntryName(n[9..]);
            var entry := seen && ValidEntryName(n);
            && (staged && now - x.modTime > 60 * 60 && !f.stuckStaging(n) ==> n !in d')
            && (staged && now - x.modTime <= 60 * 60 ==> n in d' && d'[n] == x)
            && (!staged && !entry ==> n in d' && d'[n] == x)
            && (entry && maxAge > 0 && now - x.modTime > maxAge && !f.stuckAge(n) ==> n !in d')
            && (entry && (maxAge <= 0 || now - x.modTime <= maxAge) ==> EntryOf(d, n) in kept)
  {
    hide Less, Sorted, DistinctNames, ValidEntryName;
    NeitherBoth(n);
  }

  /** Where nothing fails, the surviving entries are exactly the youngest ones from `cut` on; none
      is too old, and what is left over from the byte pass is their size alone. So they fit the
      bound or only the newest is left, and one removal fewer would not have been enough. */
  lemma SurvivorsWithoutFailure(d: Dir, d': Dir, now: int, maxAge: int, f: Faults, kept: seq<Entry>, cut: nat,
                                gone: seq<Entry>)
    requires cut <= |kept| && Pruned(d, d', now, maxAge, f, kept, cut, gone) && NoFailure(f, d)
    ensures forall n :: n in d && IsEntry(d, n, f) ==> (n in d' <==> EntryOf(d, n) in kept[cut..])
    ensures forall e :: e in kept[cut..] ==> !TooOld(e, now, maxAge)
    ensures Remaining(kept, cut, f) == kept[cut..]
    ensures cut > 0 ==> Remaining(kept, cut - 1, f) == kept[cut - 1..]
  {
    KeptAreYoung(d, d', now, maxAge, f, kept, cut, gone);
    hide TooOld, Less, Untouched, Remaining, Pruned, NoFailure;
    NoneStuck(kept, cut, f);
    if cut > 0 { NoneStuck(kept, cut - 1, f); }
    forall n | n in d && IsEntry(d, n, f) ensures n in d' <==> EntryOf(d, n) in kept[cut..] {
      SurvivesIf(d, d', now, maxAge, f, kept, cut, gone, n);
    }
    hide IsEntry, IsStale, Stuck;
  }

  lemma KeptAreYoung(d: Dir, d': Dir, now: int, maxAge: int, f: Faults, kept: seq<Entry>, cut: nat, gone: seq<Entry>)
    requires cut <= |kept| && Pruned(d, d', now, maxAge, f, kept, cut, gone) && NoFailure(f, d)
    ensures forall i :: 0 <= i < |kept| ==> !f.stuckBytes(kept[i].name) && !TooOld(kept[i], now, maxAge)
  {
    hide TooOld, Less, Untouched, IsStale, Sorted;
    forall i | 0 <= i < |kept| ensures !f.stuckBytes(kept[i].name) && !TooOld(kept[i], now, maxAge) {
      assert kept[i] in kept;
    }
  }

  /** What the byte pass removes has a smaller name than everything that survives it. */
  lemma OldestGoFirst(d: Dir, d': Dir, now: int, maxAge: int, f: Faults, kept: seq<Entry>, cut: nat, gone: seq<Entry>,
                      n: string, e: Entry)
    requires cut <= |kept| && Pruned(d, d', now, maxAge, f, kept, cut, gone)
    ensures n in d && IsEntry(d, n, f) && n !in d' && !TooOld(EntryOf(d, n), now, maxAge) && e in kept[cut..] ==>
              Less(n, e.name)
  {
    hide TooOld, Less, IsEntry, Pruned;
    if n in d && IsEntry(d, n, f) && n !in d' && !TooOld(EntryOf(d, n), now, maxAge) && e in kept[cut..] {
      var i := Tried(d, d', now, maxAge, f, kept, cut, gone, n);
      var j :| 0 <= j < |kept[cut..]| && kept[cut..][j] == e;
      assert kept[cut + j] == e;
      KeptIsSorted(d, d', now, maxAge, f, kept, cut, gone);
    }
  }

  /** An entry that is gone without being too old is one the byte pass tried. */
  lemma Tried(d: Dir, d': Dir, now: int, maxAge: int, f: Faults, kept: seq<Entry>, cut: nat, gone: seq<Entry>,
              n: string) returns (i: nat)
    requires cut <= |kept| && Pruned(d, d', now, maxAge, f, kept, cut, gone)
    requires n in d && IsEntry(d, n, f) && n !in d' && !TooOld(EntryOf(d, n), now, maxAge)
    ensures i < cut && kept[i].name == n
  {
    hide TooOld, Less, Untouched, IsStale, IsEntry, Sorted, DistinctNames;
    assert EntryOf(d, n) in kept;
    i :| 0 <= i < |kept| && kept[i] == EntryOf(d, n);
  }

  lemma KeptIsSorted(d: Dir, d': Dir, now: int, maxAge: int, f: Faults, kept: seq<Entry>, cut: nat, gone: seq<Entry>)
    requires cut <= |kept| && Pruned(d, d', now, maxAge, f, kept, cut, gone)
    ensures Sorted(kept)
  {
    hide TooOld, Less, Untouched, IsStale, IsEntry, Sorted, DistinctNames;
  }

  lemma {:induction false} NoneStuck(kept: seq<Entry>, i: nat, f: Faults)
    requires i <= |kept| && forall j :: 0 <= j < |kept| ==> !f.stuckBytes(kept[j].name)
    ensures Stuck(kept[..i], f) == [] && Remaining(kept, i, f) == kept[i..]
  {
    if i == 0 {
    } else {
      NoneStuck(kept, i - 1, f);
      StuckStep(kept, i - 1, f);
    }
  }

  lemma SurvivesIf(d: Dir, d': Dir, now: int, maxAge: int, f: Faults, kept: seq<Entry>, cut: nat, gone: seq<Entry>,
                   n: string)
    requires cut <= |kept| && Pruned(d, d', now, maxAge, f, kept, cut, gone) && NoFailure(f, d)
    ensures n in d && IsEntry(d, n, f) ==> (n in d' <==> EntryOf(d, n) in kept[cut..])
  {
    hide TooOld, Less, Untouched;
    if n in d && IsEntry(d, n, f) && EntryOf(d, n) in kept {
      var i :| 0 <= i < |kept| && kept[i] == EntryOf(d, n);
      if i < cut { OneName(kept); }
    }
  }
}
