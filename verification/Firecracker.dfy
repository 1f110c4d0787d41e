/**
 Finding, stopping and deleting a Firecracker VM on a host that changes meanwhile: processes
 exit and their ids are reused between any two system calls, and every call can fail. Each
 call takes one tick of the clock; `live` says which processes exist at each tick.
 */
module Firecracker {
  import opened Common

  /** A process: its executable file, its arguments after the program name, and when it started,
      which tells it from every other process that had or will have its id. */
  datatype Proc = Proc(exe: string, args: seq<string>, born: nat)

  /** A stable handle keeps naming the process it was known on. */
  datatype Handle = Handle(pid: int, process: Proc)

  type Live = map<int, Proc>

  /** What a system call says about a process. */
  datatype Seen<T> = Absent | Fault | Got(value: T)

  predicate Owns(args: seq<string>, socket: string) {
    exists i :: 0 <= i < |args| - 1 && args[i] == "--api-sock" && args[i + 1] == socket
  }

  method ArgumentsOwnSocket(args: seq<string>, socket: string) returns (owns: bool)
    ensures owns <==> Owns(args, socket)
  {
    var i := 0;
    while i + 1 < |args|
      invariant 0 <= i && (i < |args| || i == 0)
      invariant forall k :: 0 <= k < i && k < |args| - 1 ==> !(args[k] == "--api-sock" && args[k + 1] == socket)
    {
      if args[i] == "--api-sock" && args[i + 1] == socket {
        return true;
      }
      i := i + 1;
    }
    owns := false;
  }

  function Owners(l: Live, socket: string): set<int> {
    set pid | pid in l && Owns(l[pid].args, socket)
  }

  /** From this tick on nothing starts a process on the socket: whoever owns it later is a
      process that owned it before. */
  ghost predicate Steady(live: nat -> Live, socket: string, from: nat) {
    forall n: nat, m: nat, pid | from <= n <= m && pid in Owners(live(m), socket) ::
      pid in Owners(live(n), socket) && live(n)[pid] == live(m)[pid]
  }

  /** What the kernel promises of processes: the one seen at two ticks is there at every tick
      between them, so one that has exited never comes back. */
  ghost predicate NoReturn(live: nat -> Live) {
    forall k: nat, n: nat, m: nat, pid |
      k <= n <= m && pid in live(k) && pid in live(m) && live(k)[pid] == live(m)[pid] ::
      pid in live(n) && live(n)[pid] == live(k)[pid]
  }

  datatype Sig = Term | Kill

  lemma OwnersShrink(live: nat -> Live, socket: string, from: nat, n: nat, m: nat)
    requires Steady(live, socket, from) && from <= n <= m
    ensures Steady(live, socket, n)
    ensures Owners(live(m), socket) <= Owners(live(n), socket)
  {
    forall pid | pid in Owners(live(m), socket) ensures pid in Owners(live(n), socket) {
    }
  }

  /** A host on which nothing changes is steady. */
  lemma CalmIsSteady(live: nat -> Live, fails: nat -> bool, socket: string, now: nat)
    requires Calm(live, fails, now)
    ensures Steady(live, socket, now)
  {
  }

  /** Nothing fails and nothing changes from this tick on. */
  ghost predicate Calm(live: nat -> Live, fails: nat -> bool, now: nat) {
    forall n: nat :: n >= now ==> !fails(n) && live(n) == live(now)
  }

  /** The handle was known on a process that owns the socket and runs the configured executable. */
  predicate Right(h: Handle, socket: string, exe: string) {
    Owns(h.process.args, socket) && h.process.exe == exe
  }

  predicate Foreign(l: Live, pid: int, exe: string) {
    pid in l && l[pid].exe != exe
  }

  /** There are several owners, or one runs another executable. */
  ghost predicate Doubtful(owners: set<int>, l: Live, exe: string) {
    exists p, q :: p in owners && q in owners && (p != q || Foreign(l, p, exe))
  }

  lemma DoubtfulIs(pids: seq<int>, owners: set<int>, l: Live, exe: string)
    requires NoDup(pids) && forall pid :: pid in pids <==> pid in owners
    ensures Doubtful(owners, l, exe) <==> |pids| > 1 || (|pids| == 1 && Foreign(l, pids[0], exe))
    ensures (exists p :: p in owners) <==> pids != []
  {
    forall i | 0 <= i < |pids| ensures pids[i] in owners {
      assert pids[i] in pids;
    }
    if |pids| > 1 {
      assert pids[0] != pids[1] && pids[0] in owners && pids[1] in owners;
    } else if |pids| == 1 {
      assert pids[0] in owners;
      assert forall p :: p in owners ==> p == pids[0];
    }
  }

  lemma NobodyIsSure(owners: set<int>, l: Live, exe: string)
    ensures owners == {} <==> !Doubtful(owners, l, exe) && !exists p :: p in owners
  {
    if forall p :: p !in owners {
      assert owners == {};
    } else {
      var p :| p in owners;
      assert owners != {};
    }
  }

  function TapName(id: string): string {
    "tap-" + if |id| > 8 then id[..8] else id
  }

  /** Ids of at most eight characters, as the daemon generates them, have TAPs of their own. */
  lemma TapsApart(id: string, other: string)
    requires |id| <= 8 && |other| <= 8
    ensures TapName(id) == TapName(other) <==> id == other
  {
    assert TapName(id)[4..] == id && TapName(other)[4..] == other;
  }

  /** The outcomes of the steps of DeleteVM that are not process queries. */
  datatype Faults = Faults(
    cancelled: bool, dirRead: bool,
    terminated: bool, killed: bool,            // the signals to a tracked process were delivered
    inTime: bool,                              // it exits within a second
    tapDeleted: bool, tapLeft: bool, tapRead: bool,
    rootfsDestroyed: bool, rootfsLeft: bool, rootfsRead: bool,
    dirRemoved: bool, dirLeft: bool, dirReadAgain: bool)

  /** The ids in the process table at a tick, or None if it cannot be read. */
  type Listing = nat -> Option<seq<int>>

  /** From this tick on the process table lists every process that owns the socket. */
  ghost predicate Complete(live: nat -> Live, listing: Listing, socket: string, from: nat) {
    forall n: nat, pid | n >= from && listing(n).Some? && pid in Owners(live(n), socket) ::
      pid > 0 && pid in listing(n).value
  }

  class Client {
    const live: nat -> Live
    const fails: nat -> bool
    const listing: Listing
    const expected: nat -> Option<string>   // the configured executable, if it can be resolved
    const zfs: bool
    var now: nat
    var handles: seq<Handle>          // every handle ever known
    var closes: seq<nat>              // and how often it has been closed
    var sent: seq<(nat, Sig)>         // the signals delivered through handles
    var procs: map<string, int>       // tracked processes of this daemon
    var asked: seq<(string, Sig)>     // the signals delivered to tracked processes
    var taps: set<string>
    var rootfs: set<string>
    var dirs: set<string>
    ghost var removedAt: nat          // when a store of a VM was last worked on

    ghost predicate Valid()
      reads this
    {
      |closes| == |handles|
    }

    constructor (live: nat -> Live, fails: nat -> bool, listing: Listing, expected: nat -> Option<string>, zfs: bool)
      ensures Valid() && handles == []
      ensures this.live == live && this.fails == fails && this.listing == listing && this.expected == expected &&
                this.zfs == zfs
    {
      this.live, this.fails, this.listing, this.expected, this.zfs := live, fails, listing, expected, zfs;
      now, handles, closes, sent, procs, asked := 0, [], [], [], map[], [];
      taps, rootfs, dirs, removedAt := {}, {}, {}, 0;
    }

    /** Every handle known since is closed exactly once, but for `kept`, which is open. */
    twostate predicate Conserved(new kept: Option<nat>)
      reads this`handles, this`closes
    {
      && |closes| == |handles|
      && old(handles) <= handles && old(closes) <= closes
      && (forall h :: |old(handles)| <= h < |handles| ==> closes[h] == if kept == Some(h) then 0 else 1)
      && (kept.Some? ==> |old(handles)| <= kept.value < |handles|)
    }

    method Open(pid: int) returns (h: Seen<nat>)
      requires Valid()
      modifies this`now, this`handles, this`closes
      ensures Valid() && now == old(now) + 1
      ensures h == if fails(old(now)) then Fault else if pid in live(old(now)) then Got(|old(handles)|) else Absent
      ensures handles == old(handles) + (if h.Got? then [Handle(pid, live(old(now))[pid])] else [])
      ensures closes == old(closes) + (if h.Got? then [0] else [])
    {
      if fails(now) {
        h := Fault;
      } else if pid in live(now) {
        h := Got(|handles|);
        handles, closes := handles + [Handle(pid, live(now)[pid])], closes + [0];
      } else {
        h := Absent;
      }
      now := now + 1;
    }

    /** A file under /proc of whatever process has this id now. */
    method ReadProc(pid: int) returns (process: Seen<Proc>)
      modifies this`now
      ensures now == old(now) + 1
      ensures process == if fails(old(now)) then Fault
                         else if pid in live(old(now)) then Got(live(old(now))[pid]) else Absent
    {
      process := if fails(now) then Fault else if pid in live(now) then Got(live(now)[pid]) else Absent;
      now := now + 1;
    }

    /** classifyIdentityReadError: a file that is not there means an absent process only if the
        process behind the handle has exited. */
    method Classify(h: nat, missing: bool) returns (absent: bool)
      requires Valid() && h < |handles|
      modifies this`now
      ensures old(now) <= now <= old(now) + 1
      ensures absent <==> missing && !fails(old(now)) && Exited(handles[h], old(now))
    {
      if !missing { return false; }
      absent := !fails(now) && !(handles[h].pid in live(now) && live(now)[handles[h].pid] == handles[h].process);
      now := now + 1;
    }

    /** Identity: the executable and then the arguments of whatever process has the handle's id
        at the two ticks; they need not be of one process. */
    method Identity(h: nat) returns (identity: Seen<(string, seq<string>)>)
      requires Valid() && h < |handles|
      modifies this`now
      ensures old(now) < now
      ensures identity.Got? ==>
                var (pid, n) := (handles[h].pid, old(now));
                && now == n + 2 && pid in live(n) && pid in live(n + 1)
                && identity.value == (live(n)[pid].exe, live(n + 1)[pid].args)
      ensures identity.Absent? ==> exists n: nat :: old(now) <= n < now && handles[h].pid !in live(n)
      ensures Calm(live, fails, old(now)) && handles[h].pid in live(old(now)) ==> identity.Got?
    {
      var executable := ReadProc(handles[h].pid);
      if !executable.Got? {
        var absent := Classify(h, executable.Absent?);
        return if absent then Absent else Fault;
      }
      var arguments := ReadProc(handles[h].pid);
      if !arguments.Got? {
        var absent := Classify(h, arguments.Absent?);
        return if absent then Absent else Fault;
      }
      identity := Got((executable.value.exe, arguments.value.args));
    }

    method Close(h: nat) returns (err: bool)
      requires Valid() && h < |handles|
      modifies this`now, this`closes
      ensures Valid() && now == old(now) + 1
      ensures closes == old(closes)[h := old(closes)[h] + 1]
      ensures err == fails(old(now))
    {
      closes := closes[h := closes[h] + 1];
      err := fails(now);
      now := now + 1;
    }

    /** In this span of ticks the handle was known, then the executable and then the arguments of
        a process with its id were read, which were this one and those of an owner. */
    ghost predicate Identified(h: Handle, socket: string, exe: string, from: nat, to: nat) {
      exists k: nat, n: nat, m: nat ::
        && from <= k < n < m < to && !Exited(h, k)
        && h.pid in live(n) && live(n)[h.pid].exe == exe
        && h.pid in live(m) && Owns(live(m)[h.pid].args, socket)
    }

    lemma Widen(h: Handle, socket: string, exe: string, from: nat, to: nat, from': nat, to': nat)
      requires Identified(h, socket, exe, from, to) && from' <= from && to <= to'
      ensures Identified(h, socket, exe, from', to')
    {
    }

    lemma SpanExists(h: Handle, socket: string, exe: string, from: nat, to: nat)
      requires Identified(h, socket, exe, from, to)
      ensures from < to
    {
    }

    /** Why handles are used: if the process of an identified handle can be reached through it
        later, it is the one that was identified, whatever ids have been reused. */
    lemma ReachedIsIdentified(h: Handle, socket: string, exe: string, from: nat, to: nat, n: nat)
      requires NoReturn(live) && Identified(h, socket, exe, from, to) && to <= n && !Exited(h, n)
      ensures Right(h, socket, exe)
    {
    }

    /** One candidate: the body of the loop in findProcessBySocket. Its handle is closed exactly
        once unless it becomes the match, whatever the calls say. */
    method Consider(pid: int, socket: string, exe: string, found: Option<nat>)
      returns (found': Option<nat>, failed: bool)
      requires Valid()
      requires found.Some? ==> found.value < |handles| && closes[found.value] == 0
      modifies this`now, this`handles, this`closes
      ensures Valid() && now >= old(now)
      ensures old(handles) <= handles && old(closes) <= closes
      ensures failed ==> found' == found
      ensures forall h :: |old(handles)| <= h < |handles| ==> closes[h] == if found' == Some(h) then 0 else 1
      ensures found' != found ==>
                && found.None? && found'.Some? && |old(handles)| <= found'.value < |handles|
                && handles[found'.value].pid == pid && Identified(handles[found'.value], socket, exe, old(now), now)
                && (Steady(live, socket, old(now)) ==> Right(handles[found'.value], socket, exe))
      ensures found' == found && !failed && Steady(live, socket, old(now)) ==> pid !in Owners(live(now), socket)
      ensures Calm(live, fails, old(now)) && pid in Owners(live(old(now)), socket) ==>
                (failed <==> found.Some? || Foreign(live(old(now)), pid, exe))
    {
      found', failed := found, false;
      var opening := Open(pid);
      if opening.Fault? { failed := true; return; }
      if opening.Got? {
        found', failed := Inspect(opening.value, socket, exe, found);
      }
    }

    /** The rest of the loop body: the process behind a handle that has just been known. */
    method Inspect(process: nat, socket: string, exe: string, found: Option<nat>)
      returns (found': Option<nat>, failed: bool)
      requires Valid()
      requires process < |handles| && closes[process] == 0 && found != Some(process)
      requires now > 0 && handles[process].pid in live(now - 1)
      requires live(now - 1)[handles[process].pid] == handles[process].process
      modifies this`now, this`closes
      ensures Valid() && now >= old(now)
      ensures if found' == found then closes == old(closes)[process := 1] else closes == old(closes)
      ensures failed ==> found' == found
      ensures found' != found ==>
                && found.None? && found' == Some(process)
                && Identified(handles[process], socket, exe, old(now) - 1, now)
                && (Steady(live, socket, old(now) - 1) ==> Right(handles[process], socket, exe))
      ensures found' == found && !failed && Steady(live, socket, old(now) - 1) ==>
                handles[process].pid !in Owners(live(now), socket)
      ensures Calm(live, fails, old(now)) && handles[process].pid in Owners(live(old(now)), socket) ==>
                (failed <==> found.Some? || Foreign(live(old(now)), handles[process].pid, exe))
    {
      found', failed := found, false;
      var identity := Identity(process);
      if identity.Absent? {
        failed := Close(process);
        return;
      }
      if identity.Fault? {
        var ignored := Close(process);
        failed := true;
        return;
      }
      var owns := ArgumentsOwnSocket(identity.value.1, socket);
      if !owns {
        failed := Close(process);
        return;
      }
      if identity.value.0 != exe || found.Some? {
        var ignored := Close(process);
        failed := true;
        return;
      }
      found' := Some(process);
      assert !Exited(handles[process], now - 3);
    }

    /** The id of the match. */
    ghost function IdOf(found: Option<nat>): Option<int>
      requires found.Some? ==> found.value < |handles|
      reads this`handles
    {
      if found.Some? then Some(handles[found.value].pid) else None
    }

    /** The candidates that own the socket no longer at this tick, but for the match. */
    ghost predicate Cleared(pids: seq<int>, socket: string, id: Option<int>, n: nat) {
      forall j :: 0 <= j < |pids| ==> pids[j] !in Owners(live(n), socket) || id == Some(pids[j])
    }

    lemma ClearedMore(pids: seq<int>, i: nat, socket: string, id: Option<int>, id': Option<int>,
                      from: nat, n: nat, n': nat)
      requires Steady(live, socket, from) && from <= n <= n' && i < |pids|
      requires Cleared(pids[..i], socket, id, n) && (id.None? || id' == id)
      requires pids[i] !in Owners(live(n'), socket) || id' == Some(pids[i])
      ensures Cleared(pids[..i + 1], socket, id', n')
    {
      OwnersShrink(live, socket, from, n, n');
      forall j | 0 <= j < i ensures pids[j] !in Owners(live(n'), socket) || id' == Some(pids[j]) {
        assert pids[..i][j] == pids[j];
      }
    }

    /** One candidate, as the whole search since `start` sees it. */
    method Examine(pid: int, socket: string, exe: string, found: Option<nat>, ghost start: nat)
      returns (found': Option<nat>, failed: bool)
      requires Valid() && start <= now
      requires found.Some? ==>
                 && found.value < |handles| && closes[found.value] == 0
                 && Identified(handles[found.value], socket, exe, start, now)
      modifies this`now, this`handles, this`closes
      ensures Valid() && now >= old(now)
      ensures old(handles) <= handles && old(closes) <= closes
      ensures forall h :: |old(handles)| <= h < |handles| ==> closes[h] == if found' == Some(h) then 0 else 1
      ensures found' == found || (found.None? && found'.Some? && |old(handles)| <= found'.value < |handles|)
      ensures failed ==> found' == found
      ensures found'.Some? ==> Identified(handles[found'.value], socket, exe, start, now)
      ensures Steady(live, socket, start) && found' != found ==> Right(handles[found'.value], socket, exe)
      ensures Steady(live, socket, start) && !failed ==>
                pid !in Owners(live(now), socket) || (found' != found && handles[found'.value].pid == pid)
      ensures Calm(live, fails, start) && pid in Owners(live(start), socket) ==>
                (failed <==> found.Some? || Foreign(live(start), pid, exe)) && (!failed ==> found' != found)
    {
      hide Steady, Owners, Right, Calm, Foreign, Identified, Exited;
      ghost var n := now;
      if Steady(live, socket, start) { OwnersShrink(live, socket, start, n, n); }
      if Calm(live, fails, start) {
        StaysCalm(start);
        CalmIsSteady(live, fails, socket, now);
      }
      found', failed := Consider(pid, socket, exe, found);
      if found'.Some? {
        Widen(handles[found'.value], socket, exe, if found' == found then start else n,
              if found' == found then n else now, start, now);
      }
      if Calm(live, fails, start) { StaysCalm(start); }
    }

    /** The loop over the candidates. */
    method Search(pids: seq<int>, socket: string, exe: string) returns (found: Option<nat>, failed: bool)
      requires Valid()
      modifies this`now, this`handles, this`closes
      ensures Valid() && now >= old(now) && Conserved(found)
      ensures found.Some? ==> Identified(handles[found.value], socket, exe, old(now), now)
      ensures Steady(live, socket, old(now)) && found.Some? ==> Right(handles[found.value], socket, exe)
      ensures Steady(live, socket, old(now)) && !failed ==> Cleared(pids, socket, IdOf(found), now)
      ensures Calm(live, fails, old(now)) && NoDup(pids) &&
                (forall pid :: pid in pids <==> pid in Owners(live(old(now)), socket)) ==>
                (failed <==> |pids| > 1 || (|pids| == 1 && Foreign(live(old(now)), pids[0], exe))) &&
                (!failed ==> (found.Some? <==> pids != []))
    {
      hide Steady, Owners, Right, Calm, Foreign, Identified, Exited, Cleared;
      assert Cleared([], socket, None, now) by { NoneCleared(socket); }
      ghost var start := now;
      ghost var steady := Steady(live, socket, now);
      ghost var calm := Calm(live, fails, now) && NoDup(pids) &&
                        forall pid :: pid in pids <==> pid in Owners(live(now), socket);
      found, failed := None, false;
      var i := 0;
      while i < |pids| && !failed
        invariant 0 <= i <= |pids| && Valid() && now >= start && Conserved(found)
        invariant found.Some? ==> i > 0 && Identified(handles[found.value], socket, exe, start, now)
        invariant steady && found.Some? ==> Right(handles[found.value], socket, exe)
        invariant steady && !failed ==> Cleared(pids[..i], socket, IdOf(found), now)
        invariant calm && !failed ==>
                    i <= 1 && (found.Some? <==> i == 1) &&
                    (i == 1 ==> !Foreign(live(start), pids[0], exe))
        invariant calm && failed ==> i == 2 || (i == 1 && Foreign(live(start), pids[0], exe))
      {
        ghost var n, id := now, IdOf(found);
        if calm { assert pids[i] in pids; }
        found, failed := Examine(pids[i], socket, exe, found, start);
        if steady && !failed {
          ClearedMore(pids, i, socket, id, IdOf(found), start, n, now);
        }
        i := i + 1;
      }
      assert i == |pids| ==> pids[..i] == pids;
    }

    lemma NoneCleared(socket: string)
      ensures Cleared([], socket, None, now)
    {
    }

    lemma StaysCalm(start: nat)
      requires Calm(live, fails, start) && start <= now
      ensures Calm(live, fails, now) && live(now) == live(start)
    {
    }

    /** candidatePIDs: the listed processes that own the socket when their arguments are read. */
    method CandidatePids(socket: string) returns (pids: Option<seq<int>>)
      modifies this`now
      ensures now > old(now)
      ensures pids.Some? && Steady(live, socket, old(now)) && Complete(live, listing, socket, old(now)) ==>
                forall pid :: pid in Owners(live(now), socket) ==> pid in pids.value
      ensures var l := listing(old(now));
              Calm(live, fails, old(now)) && Complete(live, listing, socket, old(now)) && l.Some? && NoDup(l.value) ==>
                && pids.Some? && NoDup(pids.value)
                && forall pid :: pid in pids.value <==> pid in Owners(live(old(now)), socket)
    {
      hide Complete, Owns;
      ghost var start := now;
      ghost var steady := Steady(live, socket, start);
      var listed := listing(now);
      now := now + 1;
      if listed.None? { return None; }
      ghost var calm := Calm(live, fails, start) && NoDup(listed.value);
      var owners := [];
      var i := 0;
      while i < |listed.value|
        invariant 0 <= i <= |listed.value| && now > start
        invariant steady ==>
                    forall j :: 0 <= j < i && listed.value[j] > 0 && listed.value[j] in Owners(live(now), socket) ==>
                      listed.value[j] in owners
        invariant calm ==> NoDup(owners)
        invariant calm ==>
                    forall pid :: pid in owners <==>
                      pid > 0 && pid in listed.value[..i] && pid in Owners(live(start), socket)
      {
        var pid := listed.value[i];
        if pid > 0 {
          var process := ReadProc(pid);
          if process.Fault? { return None; }
          if process.Got? {
            var owns := ArgumentsOwnSocket(process.value.args, socket);
            if owns {
              owners := owners + [pid];
            }
          }
        }
        i := i + 1;
      }
      pids := Some(owners);
      if Complete(live, listing, socket, start) { AllListed(socket, start); }
    }

    lemma AllListed(socket: string, n: nat)
      requires Complete(live, listing, socket, n) && listing(n).Some?
      ensures forall pid :: pid in Owners(live(n), socket) ==> pid > 0 && pid in listing(n).value
    {
    }

    /** From this tick on the host can be observed: nothing fails or changes, the process table can be
        read and lists owners, and the configured executable can be resolved. */
    ghost predicate Observable(socket: string, from: nat) {
      && Calm(live, fails, from) && Complete(live, listing, socket, from)
      && (forall n: nat :: n >= from ==> listing(n).Some? && NoDup(listing(n).value))
      && expected(from).Some? && forall n: nat :: n >= from ==> expected(n) == expected(from)
    }

    lemma StaysObservable(socket: string, from: nat)
      requires Observable(socket, from) && from <= now
      ensures Observable(socket, now) && Owners(live(now), socket) == Owners(live(from), socket)
      ensures live(now) == live(from) && expected(now) == expected(from)
    {
    }

    /** What is found on such a host is an owner. */
    lemma FoundOwner(pid: int, socket: string, from: nat)
      requires Observable(socket, from) && from <= now && Owners(live(now), socket) <= {pid}
      ensures Steady(live, socket, from)
      ensures Owners(live(from), socket) != {} ==> pid in Owners(live(from), socket)
    {
      CalmIsSteady(live, fails, socket, from);
      StaysObservable(socket, from);
      hide Owners, Calm, Steady;
      if pid !in Owners(live(from), socket) {
        assert forall p :: p !in Owners(live(from), socket);
        assert Owners(live(from), socket) == {};
      }
    }

    lemma WhileObservable(socket: string, from: nat)
      requires from <= now
      ensures Observable(socket, from) ==>
                Observable(socket, now) && Owners(live(now), socket) == Owners(live(from), socket)
      ensures Owners(live(from), socket) == {} ==> !OneOwner(socket, from)
    {
    }

    /** The socket's owner is one process, and it runs the configured executable. */
    ghost predicate OneOwner(socket: string, n: nat) {
      var owners := Owners(live(n), socket);
      expected(n).Some? && owners != {} && !Doubtful(owners, live(n), expected(n).value)
    }

    /** findProcessBySocket. For every process table, every host and every pattern of failures no
        handle is closed twice and none is leaked: each is closed exactly once, but for the one
        that is returned. What can be reached through the returned handle is an owner running the
        configured executable. If nothing starts on the socket meanwhile and owners are listed,
        nothing found means that no owner is left, and a handle that no other owner is. On a calm
        host the answer is an error exactly if several processes own the socket or one that does
        runs another executable. */
    method FindProcessBySocket(socket: string) returns (result: Option<nat>, err: bool)
      requires Valid()
      modifies this`now, this`handles, this`closes
      ensures Valid() && now >= old(now) && Conserved(result)
      ensures err ==> result.None?
      ensures result.Some? ==> IdentifiedSometime(handles[result.value], socket, old(now), now)
      ensures result.Some? && Steady(live, socket, old(now)) ==> RightSometime(handles[result.value], socket)
      ensures !err && Steady(live, socket, old(now)) && Complete(live, listing, socket, old(now)) ==>
                Owners(live(now), socket) <= if result.Some? then {handles[result.value].pid} else {}
      ensures var (l, exe, owners) := (listing(old(now)), expected(old(now)), Owners(live(old(now)), socket));
              Calm(live, fails, old(now)) && Complete(live, listing, socket, old(now)) && l.Some? && NoDup(l.value) &&
              exe.Some? && (forall n: nat :: n >= old(now) ==> expected(n) == exe) ==>
                && (err <==> Doubtful(owners, live(old(now)), exe.value))
                && (result.Some? <==> !err && exists p :: p in owners)
    {
      hide Steady, Complete, Owners, Right, Calm, Foreign, IdentifiedSometime, RightSometime, Doubtful;
      ghost var start := now;
      var candidates := CandidatePids(socket);
      if candidates.None? { return None, true; }
      ghost var mid := now;
      if Steady(live, socket, start) { OwnersShrink(live, socket, start, mid, mid); }
      if Calm(live, fails, start) { StaysCalm(start); }
      result, err := Choose(candidates.value, socket);
      if result.Some? { LaterSometime(socket, mid, now, start, now); }
    }

    /** The rest of findProcessBySocket, whatever the candidates. */
    method Choose(pids: seq<int>, socket: string) returns (result: Option<nat>, err: bool)
      requires Valid()
      modifies this`now, this`handles, this`closes
      ensures Valid() && now >= old(now) && Conserved(result)
      ensures err ==> result.None?
      ensures result.Some? ==> IdentifiedSometime(handles[result.value], socket, old(now), now)
      ensures result.Some? && Steady(live, socket, old(now)) ==> RightSometime(handles[result.value], socket)
      ensures !err && Steady(live, socket, old(now)) &&
              (forall pid :: pid in Owners(live(old(now)), socket) ==> pid in pids) ==>
                Owners(live(now), socket) <= if result.Some? then {handles[result.value].pid} else {}
      ensures var (exe, owners) := (expected(old(now)), Owners(live(old(now)), socket));
              Calm(live, fails, old(now)) && NoDup(pids) && exe.Some? &&
              (forall pid :: pid in pids <==> pid in owners) ==>
                && (err <==> Doubtful(owners, live(old(now)), exe.value))
                && (result.Some? <==> !err && exists p :: p in owners)
    {
      hide Steady, Owners, Right, Calm, Foreign, Identified, Doubtful, Cleared;
      result, err := None, true;
      ghost var start := now;
      ghost var owners := Owners(live(now), socket);
      if Calm(live, fails, now) && NoDup(pids) && expected(now).Some? && forall pid :: pid in pids <==> pid in owners {
        DoubtfulIs(pids, owners, live(now), expected(now).value);
      }
      if pids == [] {
        if forall pid :: pid in owners ==> pid in pids {
          NoneCleared(socket);
          AllCleared([], socket, None, owners);
        }
        return None, false;
      }
      var resolved := expected(now);
      if resolved.None? { return; }
      var found, failed := Search(pids, socket, resolved.value);
      if failed {
        if found.Some? {
          var ignored := Close(found.value);
        }
        return;
      }
      if found.Some? {
        SpanExists(handles[found.value], socket, resolved.value, start, now);
      }
      if Steady(live, socket, start) && forall pid :: pid in owners ==> pid in pids {
        OwnersShrink(live, socket, start, start, now);
        AllCleared(pids, socket, found, owners);
      }
      result, err := found, false;
    }

    lemma AllCleared(pids: seq<int>, socket: string, found: Option<nat>, owners: set<int>)
      requires (found.Some? ==> found.value < |handles|) && Cleared(pids, socket, IdOf(found), now)
      requires Owners(live(now), socket) <= owners && forall pid :: pid in owners ==> pid in pids
      ensures Owners(live(now), socket) <= if found.Some? then {handles[found.value].pid} else {}
    {
      forall pid | pid in Owners(live(now), socket)
        ensures found.Some? && handles[found.value].pid == pid
      {
        assert pid in pids;
      }
    }

    /** The process a handle was known on has exited by this tick. */
    ghost predicate Exited(h: Handle, n: nat) {
      !(h.pid in live(n) && live(n)[h.pid] == h.process)
    }

    ghost predicate Reached(h: Handle, from: nat, to: nat) {
      exists n: nat :: from <= n < to && !Exited(h, n)
    }

    /** A signal through a handle: it is delivered, or the process is found gone, or the call fails. */
    method Signal(h: nat, sig: Sig) returns (answer: Seen<()>)
      requires Valid() && h < |handles|
      modifies this`now, this`sent
      ensures now == old(now) + 1
      ensures answer == if fails(old(now)) then Fault else if Exited(handles[h], old(now)) then Absent else Got(())
      ensures sent == old(sent) + if answer.Got? then [(h, sig)] else []
    {
      if fails(now) {
        answer := Fault;
      } else if handles[h].pid in live(now) && live(now)[handles[h].pid] == handles[h].process {
        answer := Got(());
        sent := sent + [(h, sig)];
      } else {
        answer := Absent;
      }
      now := now + 1;
    }

    /** Waiting ends when the process has exited; Got: it is still running after the time is up. */
    method Wait(h: nat) returns (answer: Seen<()>)
      requires Valid() && h < |handles|
      modifies this`now
      ensures now == old(now) + 1
      ensures answer == if fails(old(now)) then Fault else if Exited(handles[h], old(now)) then Absent else Got(())
    {
      answer := if fails(now) then Fault
                else if handles[h].pid in live(now) && live(now)[handles[h].pid] == handles[h].process then Got(())
                else Absent;
      now := now + 1;
    }

    /** At this tick the process can be seen to be running. */
    ghost predicate Seen(h: Handle, n: nat) {
      !fails(n) && !Exited(h, n)
    }

    /** What stopping signals when begun at tick n: TERM if its process is there to receive it, and
        KILL if it is still there after the wait. */
    ghost function Signals(h: nat, p: Handle, n: nat): (r: seq<(nat, Sig)>)
      ensures forall k :: 0 <= k < |r| ==> r[k].0 == h
    {
      if !Seen(p, n) then []
      else [(h, Term)] + if Seen(p, n + 1) && Seen(p, n + 2) then [(h, Kill)] else []
    }

    /** Begun at tick n, and as long as no call fails, it ends with its process known to be gone. */
    ghost predicate Stops(h: Handle, n: nat) {
      exists m: nat :: n <= m < n + 4 && Exited(h, m) && !fails(m) && forall j: nat :: n <= j < m ==> Seen(h, j)
    }

    /** Tick by tick. */
    lemma StopsIs(h: Handle, n: nat)
      ensures Stops(h, n) <==>
              !fails(n) && (Exited(h, n) ||
              (!fails(n + 1) && (Exited(h, n + 1) ||
              (!fails(n + 2) && (Exited(h, n + 2) || (!fails(n + 3) && Exited(h, n + 3)))))))
      ensures Seen(h, n) ==> forall m: nat :: n < m ==> Reached(h, n, m)
    {
      hide Exited;
      if Stops(h, n) {
        var m: nat :| n <= m < n + 4 && Exited(h, m) && !fails(m) && forall j: nat :: n <= j < m ==> Seen(h, j);
        assert (n < m ==> Seen(h, n)) && (n + 1 < m ==> Seen(h, n + 1)) && (n + 2 < m ==> Seen(h, n + 2));
      }
    }

    /** stopDetachedProcess: the handle is closed exactly once on every path, and nil means that
        its process had exited. A process that is there is asked to terminate; if it is still there
        after the wait it is killed; and the answer is nil exactly if it is found to have exited
        before any call fails, and the handle can be closed. */
    method StopDetachedProcess(h: nat) returns (err: bool)
      requires Valid() && h < |handles|
      modifies this`now, this`closes, this`sent
      ensures Valid() && old(now) + 2 <= now <= old(now) + 5 && closes == old(closes)[h := old(closes)[h] + 1]
      ensures sent == old(sent) + Signals(h, handles[h], old(now))
      ensures sent != old(sent) ==> Reached(handles[h], old(now), now)
      ensures !err <==> Stops(handles[h], old(now)) && !fails(now - 1)
      ensures !err ==> exists n: nat :: old(now) <= n < now && Exited(handles[h], n)
      ensures (forall n: nat :: !fails(n)) && Exited(handles[h], old(now) + 3) ==> !err
    {
      hide Signals, Stops, Exited;
      err := StopHandle(h);
      var failed := Close(h);
      err := err || failed;
    }

    method StopHandle(h: nat) returns (err: bool)
      requires Valid() && h < |handles|
      modifies this`now, this`sent
      ensures old(now) < now <= old(now) + 4
      ensures sent == old(sent) + Signals(h, handles[h], old(now))
      ensures sent != old(sent) ==> Reached(handles[h], old(now), now)
      ensures !err <==> Stops(handles[h], old(now))
      ensures !err ==> exists n: nat :: old(now) <= n < now && Exited(handles[h], n)
      ensures (forall n: nat :: !fails(n)) && Exited(handles[h], old(now) + 3) ==> !err
    {
      hide Stops, Reached;
      StopsIs(handles[h], now);
      ghost var start := now;
      var terminated := Signal(h, Term);
      if terminated.Absent? { return false; }
      if terminated.Fault? { return true; }
      var waited := Wait(h);
      if waited.Absent? { return false; }
      if waited.Fault? { return true; }
      var killed := Signal(h, Kill);
      if killed.Absent? { return false; }
      if killed.Fault? { return true; }
      waited := Wait(h);
      err := !waited.Absent?;
    }

    /** requireProcessAbsent never leaves a handle open; nil means that no process owns the socket,
        if the process table lists owners and nothing starts on the socket meanwhile. */
    method RequireProcessAbsent(socket: string) returns (err: bool)
      requires Valid()
      modifies this`now, this`handles, this`closes
      ensures Valid() && now >= old(now) && Conserved(None)
      ensures !err && Steady(live, socket, old(now)) && Complete(live, listing, socket, old(now)) ==>
                Owners(live(now), socket) == {}
      ensures Observable(socket, old(now)) ==> (!err <==> Owners(live(old(now)), socket) == {})
    {
      hide Steady, Complete, Owners, Right, Identified, Calm;
      ghost var owners := Owners(live(now), socket);
      if Observable(socket, now) { NobodyIsSure(owners, live(now), expected(now).value); }
      var process;
      process, err := FindProcessBySocket(socket);
      if err { return; }
      if process.Some? {
        var ignored := Close(process.value);
        err := true;
      }
    }

    /** The path of the VM's API socket, which identifies its process. */
    function SocketOf(id: string): string {
      id + "/api.sock"
    }

    /** The VM's TAP, directory and (with ZFS) rootfs clone are gone. */
    ghost predicate StoresAbsent(id: string)
      reads this`taps, this`rootfs, this`dirs
    {
      TapName(id) !in taps && id !in dirs && (zfs ==> id !in rootfs)
    }

    /** What one attempt may do to the stores: remove things of this VM, and nothing else. */
    twostate predicate OnlyRemoves(id: string)
      reads this
    {
      && (taps == old(taps) || taps == old(taps) - {TapName(id)})
      && (rootfs == old(rootfs) || rootfs == old(rootfs) - {id})
      && (dirs == old(dirs) || dirs == old(dirs) - {id})
      && (procs == old(procs) || procs == old(procs) - {id})
    }

    /** Signals go only through handles whose id was, since the call began, that of a process that
        owned the socket and ran a configured executable. */
    twostate predicate OnlySignals(socket: string)
      reads this`sent, this`handles, this`now
    {
      && old(sent) <= sent
      && forall k :: |old(sent)| <= k < |sent| ==>
           sent[k].0 < |handles| && IdentifiedSometime(handles[sent[k].0], socket, old(now), now)
    }

    ghost predicate IdentifiedSometime(h: Handle, socket: string, from: nat, to: nat) {
      exists n: nat :: from <= n < to && expected(n).Some? && Identified(h, socket, expected(n).value, from, to)
    }

    lemma LaterSometime(socket: string, from: nat, to: nat, from': nat, to': nat)
      requires from' <= from && to <= to'
      ensures forall h :: IdentifiedSometime(h, socket, from, to) ==> IdentifiedSometime(h, socket, from', to')
    {
      hide Identified;
      forall h | IdentifiedSometime(h, socket, from, to) ensures IdentifiedSometime(h, socket, from', to') {
        var n: nat :| from <= n < to && expected(n).Some? && Identified(h, socket, expected(n).value, from, to);
        Widen(h, socket, expected(n).value, from, to, from', to');
      }
    }

    lemma ReachedSometime(h: Handle, socket: string, from: nat, to: nat, to': nat)
      requires IdentifiedSometime(h, socket, from, to)
      ensures NoReturn(live) && Reached(h, to, to') ==> RightSometime(h, socket)
    {
      if NoReturn(live) && Reached(h, to, to') {
        var n: nat :| from <= n < to && expected(n).Some? && Identified(h, socket, expected(n).value, from, to);
        var m: nat :| to <= m < to' && !Exited(h, m);
        hide Identified, NoReturn, Right, Exited;
        ReachedIsIdentified(h, socket, expected(n).value, from, to, m);
      }
    }

    /** The processes signalled were themselves such owners, whatever ids have been reused. */
    twostate predicate OnlyRightSignals(socket: string)
      reads this`sent, this`handles
    {
      && old(sent) <= sent
      && forall k :: |old(sent)| <= k < |sent| ==> sent[k].0 < |handles| && RightSometime(handles[sent[k].0], socket)
    }

    ghost predicate RightSometime(h: Handle, socket: string) {
      exists n: nat :: expected(n).Some? && Right(h, socket, expected(n).value)
    }

    /** On a host where nothing changes, an identified process is there at every tick. */
    lemma StaysThere(h: Handle, socket: string, from: nat, to: nat)
      requires Calm(live, fails, from) && IdentifiedSometime(h, socket, from, to)
      ensures forall n: nat :: n >= from ==> Seen(h, n)
    {
      hide Exited, Owns;
      var e: nat :| from <= e < to && expected(e).Some? && Identified(h, socket, expected(e).value, from, to);
      var k := OpenedAt(h, socket, expected(e).value, from, to);
      forall n: nat | n >= from ensures Seen(h, n) {
        SameExit(h, k, n);
      }
    }

    /** So it is sent TERM and KILL in vain. */
    lemma Resists(h: nat, p: Handle, socket: string, from: nat, to: nat)
      requires from <= to && Observable(socket, from) && IdentifiedSometime(p, socket, from, to)
      ensures Signals(h, p, to) == [(h, Term), (h, Kill)] && !Stops(p, to)
    {
      StaysThere(p, socket, from, to);
      hide Exited, Calm;
      StopsIs(p, to);
      assert Seen(p, to) && Seen(p, to + 1) && Seen(p, to + 2) && Seen(p, to + 3);
    }

    lemma OpenedAt(h: Handle, socket: string, exe: string, from: nat, to: nat) returns (k: nat)
      requires Identified(h, socket, exe, from, to)
      ensures from <= k < to && !Exited(h, k)
    {
      var i: nat, n: nat, m: nat :|
        && from <= i < n < m < to && !Exited(h, i) && h.pid in live(n) && live(n)[h.pid].exe == exe
        && h.pid in live(m) && Owns(live(m)[h.pid].args, socket);
      k := i;
    }

    lemma SameExit(h: Handle, n: nat, m: nat)
      ensures live(n) == live(m) ==> Exited(h, n) == Exited(h, m)
    {
    }

    /** What is signalled to a tracked process: TERM, and KILL if it does not exit in time. */
    function Orders(id: string, f: Faults): seq<(string, Sig)> {
      if !f.terminated then [] else [(id, Term)] + if f.inTime || !f.killed then [] else [(id, Kill)]
    }

    /** A tracked process is signalled and reaped; an untracked one is found by its socket. */
    method StopProcess(id: string, f: Faults) returns (err: bool)
      requires Valid()
      modifies this`now, this`handles, this`closes, this`procs, this`sent, this`asked
      ensures Valid() && now >= old(now) && Conserved(None) && OnlySignals(SocketOf(id))
      ensures NoReturn(live) || Steady(live, SocketOf(id), old(now)) ==> OnlyRightSignals(SocketOf(id))
      ensures procs == if err then old(procs) else old(procs) - {id}
      ensures asked == old(asked) + if id in old(procs) then Orders(id, f) else []
      ensures id in old(procs) ==> sent == old(sent) && (!err <==> f.terminated && (f.inTime || f.killed))
      ensures id !in old(procs) ==> Answers(!err, old(now), old(sent), sent, handles)
      ensures id !in old(procs) && Observable(SocketOf(id), old(now)) ==>
                && (Owners(live(old(now)), SocketOf(id)) == {} ==> !err && sent == old(sent))
                && (OneOwner(SocketOf(id), old(now)) ==>
                      err && Resisted(SocketOf(id), old(now), old(sent), sent, handles))
    {
      hide Steady, Complete, NoReturn, Owners, Calm, IdentifiedSometime, RightSometime, Reached, SocketOf, Signals;
      hide Answers, Resisted, Stops, Doubtful, Exited;
      ghost var start := now;
      if id in procs {
        if !f.terminated { return true; }
        asked := asked + [(id, Term)];
        if !f.inTime {
          if !f.killed { return true; }
          asked := asked + [(id, Kill)];
        }
        procs := procs - {id};
        err := false;
      } else {
        err := StopUntracked(SocketOf(id));
        assert procs - {id} == procs;
      }
    }

    /** Against a process that stays whatever it is sent, nothing is left to try. */
    ghost predicate Resisted(socket: string, start: nat, before: seq<(nat, Sig)>, after: seq<(nat, Sig)>,
                             known: seq<Handle>) {
      exists h: nat ::
        h < |known| && after == before + [(h, Term), (h, Kill)] && known[h].pid in Owners(live(start), socket)
    }

    /** If anything was signalled, it was what stopping one process takes, and the answer is whether
        that process stopped. */
    ghost predicate Answers(stopped: bool, start: nat, before: seq<(nat, Sig)>, after: seq<(nat, Sig)>,
                            known: seq<Handle>) {
      after != before ==>
        exists h: nat, n: nat | h < |known| ::
          && after == before + Signals(h, known[h], n) && start <= n
          && (stopped ==> Stops(known[h], n))
          && (Stops(known[h], n) && (forall k: nat :: !fails(k)) ==> stopped)
    }

    lemma OpenedMore(start: nat, before: seq<(nat, Sig)>, after: seq<(nat, Sig)>, known: seq<Handle>,
                     more: seq<Handle>)
      requires known <= more
      ensures forall stopped :: Answers(stopped, start, before, after, known) ==>
                Answers(stopped, start, before, after, more)
      ensures forall socket :: Resisted(socket, start, before, after, known) ==>
                Resisted(socket, start, before, after, more)
    {
    }

    method StopUntracked(socket: string) returns (err: bool)
      requires Valid()
      modifies this`now, this`handles, this`closes, this`sent
      ensures Valid() && now >= old(now) && Conserved(None) && OnlySignals(socket)
      ensures NoReturn(live) || Steady(live, socket, old(now)) ==> OnlyRightSignals(socket)
      ensures Answers(!err, old(now), old(sent), sent, handles)
      ensures Observable(socket, old(now)) ==>
                && (Owners(live(old(now)), socket) == {} ==> !err && sent == old(sent))
                && (OneOwner(socket, old(now)) ==> err && Resisted(socket, old(now), old(sent), sent, handles))
    {
      hide Steady, Complete, NoReturn, Owners, Calm, IdentifiedSometime, RightSometime, Reached, Signals, Stops;
      hide Doubtful, Exited;
      ghost var start := now;
      ghost var owners := Owners(live(now), socket);
      if Observable(socket, now) { NobodyIsSure(owners, live(now), expected(now).value); }
      var process;
      process, err := FindProcessBySocket(socket);
      if !err && process.Some? {
        ghost var mid, h := now, handles[process.value];
        if Observable(socket, start) {
          CalmIsSteady(live, fails, socket, start);
          FoundOwner(h.pid, socket, start);
          Resists(process.value, h, socket, start, mid);
        }
        err := StopDetachedProcess(process.value);
        LaterSometime(socket, start, mid, start, now);
        ReachedSometime(h, socket, start, mid, now);
      }
    }

    /** What is removed, and in this order: each thing only once the one before is known to be gone. */
    predicate TapGoes(id: string, f: Faults)
      reads this`taps
    {
      f.tapDeleted && f.tapRead && (f.tapLeft ==> TapName(id) !in taps)
    }

    predicate RootfsGoes(id: string, f: Faults)
      reads this`rootfs
    {
      zfs ==> f.rootfsDestroyed && f.rootfsRead && (f.rootfsLeft ==> id !in rootfs)
    }

    predicate DirectoryGoes(id: string, f: Faults)
      reads this`dirs
    {
      f.dirRemoved && f.dirReadAgain && (f.dirLeft ==> id !in dirs)
    }

    method RemoveTap(id: string, f: Faults) returns (err: bool)
      modifies this`taps, this`removedAt
      ensures removedAt == now
      ensures taps == if f.tapLeft then old(taps) else old(taps) - {TapName(id)}
      ensures !err <==> f.tapDeleted && f.tapRead && TapName(id) !in taps
    {
      removedAt := now;
      if !f.tapLeft { taps := taps - {TapName(id)}; }
      if !f.tapDeleted { return true; }
      err := !f.tapRead || TapName(id) in taps;
    }

    method RemoveRootfs(id: string, f: Faults) returns (err: bool)
      modifies this`rootfs, this`removedAt
      ensures removedAt == now
      ensures rootfs == if f.rootfsLeft then old(rootfs) else old(rootfs) - {id}
      ensures !err <==> f.rootfsDestroyed && f.rootfsRead && id !in rootfs
    {
      removedAt := now;
      if !f.rootfsLeft { rootfs := rootfs - {id}; }
      if !f.rootfsDestroyed { return true; }
      err := !f.rootfsRead || id in rootfs;
    }

    method RemoveDirectory(id: string, f: Faults) returns (err: bool)
      modifies this`dirs, this`removedAt
      ensures removedAt == now
      ensures dirs == if f.dirLeft then old(dirs) else old(dirs) - {id}
      ensures !err <==> f.dirRemoved && f.dirReadAgain && id !in dirs
    {
      removedAt := now;
      if !f.dirLeft { dirs := dirs - {id}; }
      if !f.dirRemoved { return true; }
      err := !f.dirReadAgain || id in dirs;
    }

    /** DeleteVM. On every path every handle is closed exactly once, at most this VM's things are
        removed, and what is signalled through a handle is a process that owned this VM's socket
        and ran the configured executable, as exited processes do not come back. Nil means that
        TAP, rootfs clone (with ZFS) and directory are absent and the VM is untracked; and that no
        process owns its socket, if the process table lists owners and nothing starts on the
        socket after the last removal. If nothing starts on it from the beginning, nothing is
        removed while a process owns it, and the directory goes last. On a host that can be
        observed, an untracked VM without a process is deleted exactly if its things can be
        removed, and one with a process that does not react is sent TERM and KILL and is kept. */
    method DeleteVM(id: string, f: Faults) returns (err: bool, ghost stopped: Option<nat>)
      requires Valid()
      modifies this`now, this`handles, this`closes, this`procs, this`sent, this`asked
      modifies this`taps, this`rootfs, this`dirs, this`removedAt
      ensures Valid() && now >= old(now) && Conserved(None) && OnlyRemoves(id) && OnlySignals(SocketOf(id))
      ensures NoReturn(live) || Steady(live, SocketOf(id), old(now)) ==> OnlyRightSignals(SocketOf(id))
      ensures !err ==> StoresAbsent(id) && id !in procs
      ensures !err ==> old(now) <= removedAt <= now
      ensures !err && Steady(live, SocketOf(id), removedAt) && Complete(live, listing, SocketOf(id), removedAt) ==>
                Owners(live(now), SocketOf(id)) == {}
      ensures Steady(live, SocketOf(id), old(now)) && Complete(live, listing, SocketOf(id), old(now)) &&
              Owners(live(now), SocketOf(id)) != {} ==>
                taps == old(taps) && rootfs == old(rootfs) && dirs == old(dirs)
      ensures dirs != old(dirs) ==> TapName(id) !in taps && (zfs ==> id !in rootfs)
      ensures stopped.None? ==> err && taps == old(taps) && rootfs == old(rootfs) && dirs == old(dirs)
      ensures stopped.Some? && Observable(SocketOf(id), stopped.value) ==>
                (!err <==> Owners(live(stopped.value), SocketOf(id)) == {} &&
                           old(TapGoes(id, f)) && old(RootfsGoes(id, f)) && old(DirectoryGoes(id, f)))
      ensures f.cancelled || !f.dirRead ==> err && stopped.None? && sent == old(sent) && asked == old(asked)
      ensures !f.cancelled && f.dirRead ==>
                && (id in old(procs) ==> (stopped.Some? <==> f.terminated && (f.inTime || f.killed)))
                && (id !in old(procs) ==> Answers(stopped.Some?, old(now), old(sent), sent, handles))
                && asked == old(asked) + if id in old(procs) then Orders(id, f) else []
      ensures !f.cancelled && f.dirRead && Observable(SocketOf(id), old(now)) ==>
                && (Owners(live(old(now)), SocketOf(id)) == {} ==>
                      (!err <==>
                         && (id in old(procs) ==> f.terminated && (f.inTime || f.killed))
                         && old(TapGoes(id, f)) && old(RootfsGoes(id, f)) && old(DirectoryGoes(id, f))))
                && (OneOwner(SocketOf(id), old(now)) ==>
                      err && (id !in old(procs) ==>
                                Resisted(SocketOf(id), old(now), old(sent), sent, handles)))
    {
      hide Steady, Complete, NoReturn, SocketOf, TapName, Owners, RightSometime, IdentifiedSometime, Observable;
      hide Answers, Resisted, TapGoes, RootfsGoes, DirectoryGoes, OneOwner, Doubtful, Orders;
      if f.cancelled { return true, None; }
      if !f.dirRead { return true, None; }
      err, stopped := StopAndDelete(id, f);
    }

    /** DeleteVM, once the directory has been read. */
    method StopAndDelete(id: string, f: Faults) returns (err: bool, ghost stopped: Option<nat>)
      requires Valid()
      modifies this`now, this`handles, this`closes, this`procs, this`sent, this`asked
      modifies this`taps, this`rootfs, this`dirs, this`removedAt
      ensures Valid() && now >= old(now) && Conserved(None) && OnlyRemoves(id) && OnlySignals(SocketOf(id))
      ensures NoReturn(live) || Steady(live, SocketOf(id), old(now)) ==> OnlyRightSignals(SocketOf(id))
      ensures !err ==> StoresAbsent(id) && id !in procs
      ensures !err ==> old(now) <= removedAt <= now
      ensures !err && Steady(live, SocketOf(id), removedAt) && Complete(live, listing, SocketOf(id), removedAt) ==>
                Owners(live(now), SocketOf(id)) == {}
      ensures Steady(live, SocketOf(id), old(now)) && Complete(live, listing, SocketOf(id), old(now)) &&
              Owners(live(now), SocketOf(id)) != {} ==>
                taps == old(taps) && rootfs == old(rootfs) && dirs == old(dirs)
      ensures dirs != old(dirs) ==> TapName(id) !in taps && (zfs ==> id !in rootfs)
      ensures stopped.None? ==> err && taps == old(taps) && rootfs == old(rootfs) && dirs == old(dirs)
      ensures stopped.Some? && Observable(SocketOf(id), stopped.value) ==>
                (!err <==> Owners(live(stopped.value), SocketOf(id)) == {} &&
                           old(TapGoes(id, f)) && old(RootfsGoes(id, f)) && old(DirectoryGoes(id, f)))
      ensures id in old(procs) ==> (stopped.Some? <==> f.terminated && (f.inTime || f.killed))
      ensures id !in old(procs) ==> Answers(stopped.Some?, old(now), old(sent), sent, handles)
      ensures asked == old(asked) + if id in old(procs) then Orders(id, f) else []
      ensures Observable(SocketOf(id), old(now)) && Owners(live(old(now)), SocketOf(id)) == {} ==>
                (!err <==>
                   && (id in old(procs) ==> f.terminated && (f.inTime || f.killed))
                   && old(TapGoes(id, f)) && old(RootfsGoes(id, f)) && old(DirectoryGoes(id, f)))
      ensures Observable(SocketOf(id), old(now)) && OneOwner(SocketOf(id), old(now)) ==>
                err && (id !in old(procs) ==> Resisted(SocketOf(id), old(now), old(sent), sent, handles))
    {
      hide Steady, Complete, NoReturn, SocketOf, TapName, Owners, RightSometime, IdentifiedSometime, Observable;
      hide Answers, Resisted, TapGoes, RootfsGoes, DirectoryGoes, OneOwner, Doubtful, StoresAbsent, Orders;
      stopped := None;
      ghost var start, before := now, sent;
      err := StopProcess(id, f);
      if err { return; }
      ghost var known, mid := handles, now;
      stopped := Some(mid);
      WhileObservable(SocketOf(id), start);
      err := DeleteStopped(id, f);
      Later(SocketOf(id), start, mid);
      LaterSometime(SocketOf(id), start, mid, start, now);
      OpenedMore(start, before, sent, known, handles);
      assert forall k :: 0 <= k < |known| ==> handles[k] == known[k];
    }

    /** The rest of DeleteVM, once its process has been stopped. */
    method DeleteStopped(id: string, f: Faults) returns (err: bool)
      requires Valid()
      modifies this`now, this`handles, this`closes, this`taps, this`rootfs, this`dirs, this`removedAt
      ensures Valid() && now >= old(now) && Conserved(None) && OnlyRemoves(id)
      ensures !err ==> StoresAbsent(id)
      ensures !err ==> old(now) <= removedAt <= now
      ensures !err && Steady(live, SocketOf(id), removedAt) && Complete(live, listing, SocketOf(id), removedAt) ==>
                Owners(live(now), SocketOf(id)) == {}
      ensures Steady(live, SocketOf(id), old(now)) && Complete(live, listing, SocketOf(id), old(now)) &&
              Owners(live(now), SocketOf(id)) != {} ==>
                taps == old(taps) && rootfs == old(rootfs) && dirs == old(dirs)
      ensures dirs != old(dirs) ==> TapName(id) !in taps && (zfs ==> id !in rootfs)
      ensures Observable(SocketOf(id), old(now)) ==>
                (!err <==>
                   && Owners(live(old(now)), SocketOf(id)) == {}
                   && old(TapGoes(id, f)) && old(RootfsGoes(id, f)) && old(DirectoryGoes(id, f)))
    {
      hide Steady, Complete, SocketOf, TapName, Owners, Observable, TapGoes, RootfsGoes, DirectoryGoes;
      ghost var start := now;
      err := RequireProcessAbsent(SocketOf(id));
      WhileObservable(SocketOf(id), start);
      if err { return; }
      ghost var mid := now;
      err := RemoveStores(id, f);
      Later(SocketOf(id), start, mid);
      if err { return; }
      err := RequireProcessAbsent(SocketOf(id));
      if Steady(live, SocketOf(id), mid) { OwnersShrink(live, SocketOf(id), mid, mid, now); }
    }

    lemma Later(socket: string, from: nat, n: nat)
      requires from <= n
      ensures Steady(live, socket, from) ==> Steady(live, socket, n)
      ensures Complete(live, listing, socket, from) ==> Complete(live, listing, socket, n)
    {
    }

    /** TAP, rootfs clone and directory, each removed and then verified to be gone. */
    method RemoveStores(id: string, f: Faults) returns (err: bool)
      modifies this`taps, this`rootfs, this`dirs, this`removedAt
      ensures taps == old(taps) || taps == old(taps) - {TapName(id)}
      ensures rootfs == old(rootfs) || rootfs == old(rootfs) - {id}
      ensures dirs == old(dirs) || dirs == old(dirs) - {id}
      ensures !err ==> StoresAbsent(id) && removedAt == now
      ensures !err <==> old(TapGoes(id, f)) && old(RootfsGoes(id, f)) && old(DirectoryGoes(id, f))
      ensures dirs != old(dirs) ==> TapName(id) !in taps && (zfs ==> id !in rootfs)
    {
      err := RemoveTap(id, f);
      if err { return; }
      if zfs {
        err := RemoveRootfs(id, f);
        if err { return; }
      }
      err := RemoveDirectory(id, f);
    }
  }
}
