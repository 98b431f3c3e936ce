/**
 Open files and their owners (src/kernel/syscall.c, file.c, stdio.c, task.c): the steps as functions on filetab and
 the tasks' fds, what holds over every run from boot, and the system calls in place.
 */
module Files {
  import opened Common

  const NUM_FDS: nat := 16
  const NUM_FILES: nat := 1024

  /** A slot of filetab: free, just allocated, one of the shared stdio files, or a file of the ramdisk. */
  datatype Slot = Free | Blank | Stdio | Tar

  type Fds = seq<Option<nat>>

  /** filetab, the fds of every task, and the tasks that make system calls (user tasks, and the roots that spawn
      them). */
  datatype State = State(tab: seq<Slot>, fds: map<nat, Fds>, users: set<nat>)

  datatype Result = Ok(s: State) | Panic

  // ---- Searches ----------------------------------------------------------------------------------

  /** The first free slot from i on, or the size of the table. */
  function FreeSlot(tab: seq<Slot>, i: nat): (n: nat)
    requires i <= |tab|
    ensures i <= n <= |tab| && (forall j | i <= j < n :: tab[j] != Free) && (n < |tab| ==> tab[n] == Free)
    decreases |tab| - i
  {
    if i == |tab| || tab[i] == Free then i else FreeSlot(tab, i + 1)
  }

  /** The lowest fd that is not open from i on, or the number of fds. */
  function FreeFd(fds: Fds, i: nat): (n: nat)
    requires i <= |fds|
    ensures i <= n <= |fds| && (forall j | i <= j < n :: fds[j].Some?) && (n < |fds| ==> fds[n] == None)
    decreases |fds| - i
  {
    if i == |fds| || fds[i] == None then i else FreeFd(fds, i + 1)
  }

  // ---- Steps -------------------------------------------------------------------------------------

  /** What a path names: nothing, a stdio file (its slot), or a file or directory of the ramdisk. */
  datatype Path = Nowhere | Device(slot: nat) | Ramdisk

  /** How task_spawn_user fares: no such executable; the path names a directory or a device; load_elf fails;
      copyin_args fails; or a new task. */
  datatype Load = NotFound | NotRegular | BadElf | BadArgs | Loaded

  datatype Event =
    | BootEvent(t: nat, device: Option<nat>)
    | OpenEvent(t: nat, path: Path)
    | CloseEvent(t: nat, fd: nat)
    | SpawnEvent(p: nat, c: nat, load: Load)
    | ExitEvent(t: nat)

  function SetFd(s: State, t: nat, fd: nat, f: Option<nat>): State
    requires t in s.fds && fd < |s.fds[t]|
  {
    s.(fds := s.fds[t := s.fds[t][fd := f]])
  }

  /** file_close: tar_close frees the slot, stdio_close does nothing, and a slot without operations crashes. */
  function CloseSlot(tab: seq<Slot>, n: nat): Option<seq<Slot>> {
    if n >= |tab| || tab[n] == Free || tab[n] == Blank then None
    else if tab[n] == Tar then Some(tab[n := Free]) else Some(tab)
  }

  /** free_task's loop over the first n fds. */
  function CloseFds(tab: seq<Slot>, fds: Fds, n: nat): Option<seq<Slot>>
    requires n <= |fds|
  {
    if n == 0 then Some(tab)
    else
      var r := CloseFds(tab, fds, n - 1);
      if r.None? || fds[n - 1].None? then r else CloseSlot(r.value, fds[n - 1].value)
  }

  /** file_dup succeeds: the fd is open on a stdio file. tar_dup panics. */
  predicate CanDup(tab: seq<Slot>, f: Option<nat>) { f.Some? && f.value < |tab| && tab[f.value] == Stdio }

  /** The fds of a spawned task: its parent's stdio files. */
  function ChildFds(parent: Fds): Fds
    requires |parent| >= 3
  { seq(NUM_FDS, i requires 0 <= i < NUM_FDS => if i < 3 then parent[i] else None) }

  /** The fds of a kernel task. */
  function KernelFds(device: Option<nat>): Fds {
    seq(NUM_FDS, i => if i < 3 then device else None)
  }

  function Open(s: State, t: nat, path: Path): Result
    requires t in s.fds
  {
    var fd := FreeFd(s.fds[t], 0);
    if fd == |s.fds[t]| then Ok(s)
    else match path
      case Nowhere => Ok(s)
      case Device(n) => Ok(SetFd(s, t, fd, Some(n)))
      case Ramdisk =>
        var n := FreeSlot(s.tab, 0);
        if n == |s.tab| then Panic else Ok(SetFd(s, t, fd, Some(n)).(tab := s.tab[n := Tar]))
  }

  predicate CanClose(s: State, t: nat, fd: nat)
    requires t in s.fds
  { 3 <= fd < |s.fds[t]| && s.fds[t][fd].Some? }

  function Close(s: State, t: nat, fd: nat): Result
    requires t in s.fds
  {
    if !CanClose(s, t, fd) then Ok(s)
    else
      var tab := CloseSlot(s.tab, s.fds[t][fd].value);
      if tab.None? then Panic else Ok(SetFd(s, t, fd, None).(tab := tab.value))
  }

  /** free_task. */
  function Exit(s: State, t: nat): Result
    requires t in s.fds
  {
    var tab := CloseFds(s.tab, s.fds[t], |s.fds[t]|);
    if tab.None? then Panic else Ok(State(tab.value, s.fds - {t}, s.users - {t}))
  }

  /** task_spawn_user. The slot of an executable that cannot be loaded is not given back. */
  function Spawn(s: State, p: nat, c: nat, load: Load): Result
    requires p in s.fds
  {
    if load == NotFound then Ok(s)
    else if load == NotRegular then Panic
    else
      var n := FreeSlot(s.tab, 0);
      if n == |s.tab| then Panic
      else if load == BadElf then Ok(s.(tab := s.tab[n := Tar]))
      else if |s.fds[p]| < 3 || exists fd | 0 <= fd < 3 :: !CanDup(s.tab, s.fds[p][fd]) then Panic
      else
        var s' := s.(fds := s.fds[c := ChildFds(s.fds[p])]);
        if load == BadArgs then Exit(s', c) else Ok(s'.(users := s'.users + {c}))
  }

  /** System calls are made by the tasks in users; device paths name stdio slots (init_stdio); a spawn takes a task slot
      that is free. */
  predicate Enabled(s: State, e: Event) {
    match e
    case BootEvent(t, device) => t !in s.fds && (device.Some? ==> CanDup(s.tab, device))
    case OpenEvent(t, path) => t in s.users && t in s.fds && (path.Device? ==> CanDup(s.tab, Some(path.slot)))
    case CloseEvent(t, fd) => t in s.users && t in s.fds
    case SpawnEvent(p, c, load) => p in s.users && p in s.fds && c !in s.fds && c !in s.users
    case ExitEvent(t) => t in s.fds
  }

  function Step(s: State, e: Event): Result
    requires Enabled(s, e)
  {
    match e
    case BootEvent(t, device) =>
      Ok(State(s.tab, s.fds[t := KernelFds(device)], s.users + if device.Some? then {t} else {}))
    case OpenEvent(t, path) => Open(s, t, path)
    case CloseEvent(t, fd) => Close(s, t, fd)
    case SpawnEvent(p, c, load) => Spawn(s, p, c, load)
    case ExitEvent(t) => Exit(s, t)
  }

  /** Where the kernel gives up by design: no file slot left, or something else than a regular file is to be run. */
  predicate GivesUp(s: State, e: Event) {
    match e
    case OpenEvent(t, path) =>
      t in s.fds && FreeFd(s.fds[t], 0) < |s.fds[t]| && path.Ramdisk? && FreeSlot(s.tab, 0) == |s.tab|
    case SpawnEvent(_, _, load) =>
      load == NotRegular || (load != NotFound && FreeSlot(s.tab, 0) == |s.tab|)
    case _ => false
  }

  // ---- Ownership ---------------------------------------------------------------------------------

  /** fd of task t, if open, names a slot in use. */
  predicate FdOk(s: State, t: nat, fd: nat)
    requires t in s.fds && |s.fds[t]| == NUM_FDS && fd < NUM_FDS
  {
    var f := s.fds[t][fd];
    f.Some? ==> f.value < |s.tab| && (s.tab[f.value] == Stdio || s.tab[f.value] == Tar)
  }

  /** (t, fd) names the slot n. */
  predicate Holds(s: State, t: nat, fd: nat, n: nat) {
    t in s.fds && fd < |s.fds[t]| && s.fds[t][fd] == Some(n)
  }

  ghost predicate SlotsOk(s: State) {
    && (forall t | t in s.fds :: |s.fds[t]| == NUM_FDS)
    && (forall t, fd | t in s.fds && 0 <= fd < NUM_FDS :: FdOk(s, t, fd))
  }

  /** n is a ramdisk slot. */
  predicate IsTar(s: State, n: nat) { n < |s.tab| && s.tab[n] == Tar }

  /** A ramdisk slot has at most one holder. */
  ghost predicate OneHolder(s: State) {
    forall t: nat, fd: nat, u: nat, gd: nat, n: nat | Holds(s, t, fd, n) && Holds(s, u, gd, n) && IsTar(s, n) ::
      t == u && fd == gd
  }

  /** fd of t is a stdio file. */
  predicate StdioFd(s: State, t: nat, fd: nat) { t in s.fds && fd < |s.fds[t]| && CanDup(s.tab, s.fds[t][fd]) }

  ghost predicate UsersOk(s: State) {
    forall t | t in s.users :: StdioFd(s, t, 0) && StdioFd(s, t, 1) && StdioFd(s, t, 2)
  }

  ghost predicate Inv(s: State) { SlotsOk(s) && OneHolder(s) && UsersOk(s) }

  /** A fresh ramdisk slot put into an empty fd. */
  lemma OpenTarKeeps(s: State, t: nat, fd: nat, n: nat)
    requires Inv(s) && t in s.fds && fd < NUM_FDS && s.fds[t][fd] == None && n < |s.tab| && s.tab[n] == Free
    ensures Inv(SetFd(s, t, fd, Some(n)).(tab := s.tab[n := Tar]))
  {
    var s' := SetFd(s, t, fd, Some(n)).(tab := s.tab[n := Tar]);
    forall u, gd | u in s'.fds && 0 <= gd < NUM_FDS ensures FdOk(s', u, gd) { assert FdOk(s, u, gd); }
    forall u: nat, gd: nat | Holds(s', u, gd, n) ensures u == t && gd == fd {
      assert FdOk(s, u, gd);
    }
    forall u: nat, gd: nat, v: nat, hd: nat, m: nat | Holds(s', u, gd, m) && Holds(s', v, hd, m) && IsTar(s', m)
      ensures u == v && gd == hd
    {
      if m != n { assert Holds(s, u, gd, m) && Holds(s, v, hd, m) && IsTar(s, m); }
    }
    forall u: nat, gd: nat | StdioFd(s, u, gd) ensures StdioFd(s', u, gd) {}
  }

  /** A shared stdio file put into an empty fd. */
  lemma OpenStdioKeeps(s: State, t: nat, fd: nat, n: nat)
    requires Inv(s) && t in s.fds && fd < NUM_FDS && s.fds[t][fd] == None && CanDup(s.tab, Some(n))
    ensures Inv(SetFd(s, t, fd, Some(n)))
  {
    var s' := SetFd(s, t, fd, Some(n));
    forall u, gd | u in s'.fds && 0 <= gd < NUM_FDS ensures FdOk(s', u, gd) { assert FdOk(s, u, gd); }
    forall u: nat, gd: nat, v: nat, hd: nat, m: nat | Holds(s', u, gd, m) && Holds(s', v, hd, m) && IsTar(s', m)
      ensures u == v && gd == hd
    {
      assert m != n && Holds(s, u, gd, m) && Holds(s, v, hd, m) && IsTar(s, m);
    }
    forall u: nat, gd: nat | StdioFd(s, u, gd) ensures StdioFd(s', u, gd) {}
  }

  /** An fd opened on a device names that device's slot, and one opened on a ramdisk file a slot that was free; it was
      not open before, and no other fd of any task changes. */
  lemma OpenedFd(s: State, t: nat, path: Path, u: nat, gd: nat, n: nat)
    requires Inv(s) && t in s.fds && Open(s, t, path).Ok? && Open(s, t, path).s != s
    ensures var s' := Open(s, t, path).s; var fd := FreeFd(s.fds[t], 0);
      && fd < 16 && s.fds[t][fd] == None
      && (path.Device? ==> Holds(s', t, fd, path.slot) && s'.tab == s.tab)
      && (path == Ramdisk ==> s'.fds[t][fd].Some? && IsTar(s', s'.fds[t][fd].value) && !IsTar(s, s'.fds[t][fd].value))
      && ((u, gd) != (t, fd) ==> (Holds(s', u, gd, n) <==> Holds(s, u, gd, n)))
  {
    FdCount(s, t);
    hide Inv;
  }

  /** A spawned task's first three fds are its parent's, one by one; its others are not open. */
  lemma SpawnedFds(s: State, p: nat, c: nat, fd: nat, n: nat)
    requires Inv(s) && p in s.users && p in s.fds && c !in s.fds && c !in s.users && Spawn(s, p, c, Loaded).Ok?
    ensures var s' := Spawn(s, p, c, Loaded).s;
      && (fd < 3 ==> (Holds(s', c, fd, n) <==> Holds(s, p, fd, n)))
      && (fd >= 3 ==> !Holds(s', c, fd, n))
      && s'.users == s.users + {c} && forall u | u in s.fds :: s'.fds[u] == s.fds[u]
  {
    FdCount(s, p);
    hide Inv;
  }

  /** Closing an fd: its slot has no other holder if it is freed, so no fd is left dangling. */
  lemma CloseKeeps(s: State, t: nat, fd: nat)
    requires Inv(s) && t in s.fds && fd < NUM_FDS && s.fds[t][fd].Some? && (t in s.users ==> fd >= 3)
    ensures CloseSlot(s.tab, s.fds[t][fd].value).Some?
    ensures Inv(SetFd(s, t, fd, None).(tab := CloseSlot(s.tab, s.fds[t][fd].value).value))
  {
    var n := s.fds[t][fd].value;
    assert FdOk(s, t, fd) && Holds(s, t, fd, n);
    var s' := SetFd(s, t, fd, None).(tab := CloseSlot(s.tab, n).value);
    forall u, gd | u in s'.fds && 0 <= gd < NUM_FDS ensures FdOk(s', u, gd) {
      assert FdOk(s, u, gd);
      if s'.fds[u][gd] == Some(n) { assert Holds(s, u, gd, n) && (IsTar(s, n) ==> u == t && gd == fd); }
    }
    forall u: nat, gd: nat, v: nat, hd: nat, m: nat | Holds(s', u, gd, m) && Holds(s', v, hd, m) && IsTar(s', m)
      ensures u == v && gd == hd
    {
      assert Holds(s, u, gd, m) && Holds(s, v, hd, m) && IsTar(s, m);
    }
    forall u | u in s'.users ensures StdioFd(s', u, 0) && StdioFd(s', u, 1) && StdioFd(s', u, 2) {
      assert StdioFd(s, u, 0) && StdioFd(s, u, 1) && StdioFd(s, u, 2);
    }
  }

  /** A new task whose first three fds are stdio files, or empty, and whose other fds are empty. */
  lemma NewTaskKeeps(s: State, t: nat, fds: Fds, users: set<nat>)
    requires Inv(s) && t !in s.fds && t !in s.users && |fds| == NUM_FDS && users <= s.users + {t}
    requires forall fd | 0 <= fd < NUM_FDS :: fds[fd].Some? ==> CanDup(s.tab, fds[fd])
    requires t in users ==> fds[0].Some? && fds[1].Some? && fds[2].Some?
    ensures Inv(State(s.tab, s.fds[t := fds], users))
  {
    var s' := State(s.tab, s.fds[t := fds], users);
    forall u, gd | u in s'.fds && 0 <= gd < NUM_FDS ensures FdOk(s', u, gd) { if u != t { assert FdOk(s, u, gd); } }
    forall u: nat, gd: nat, v: nat, hd: nat, m: nat | Holds(s', u, gd, m) && Holds(s', v, hd, m) && IsTar(s', m)
      ensures u == v && gd == hd
    {
      assert u != t && v != t && Holds(s, u, gd, m) && Holds(s, v, hd, m) && IsTar(s, m);
    }
    forall u | u in users ensures StdioFd(s', u, 0) && StdioFd(s', u, 1) && StdioFd(s', u, 2) {
      if u != t { assert StdioFd(s, u, 0) && StdioFd(s, u, 1) && StdioFd(s, u, 2); }
    }
  }

  lemma DropTaskKeeps(s: State, t: nat)
    requires Inv(s) && t !in s.users
    ensures Inv(s.(fds := s.fds - {t}))
  {
    var s' := s.(fds := s.fds - {t});
    forall u, gd | u in s'.fds && 0 <= gd < NUM_FDS ensures FdOk(s', u, gd) { assert FdOk(s, u, gd); }
    forall u: nat, gd: nat, v: nat, hd: nat, m: nat | Holds(s', u, gd, m) && Holds(s', v, hd, m) && IsTar(s', m)
      ensures u == v && gd == hd
    { assert Holds(s, u, gd, m) && Holds(s, v, hd, m) && IsTar(s, m); }
    forall u | u in s'.users ensures StdioFd(s', u, 0) && StdioFd(s', u, 1) && StdioFd(s', u, 2) {
      assert StdioFd(s, u, 0) && StdioFd(s, u, 1) && StdioFd(s, u, 2);
    }
  }

  /** A slot taken by nobody. */
  lemma LeakKeeps(s: State, n: nat)
    requires Inv(s) && n < |s.tab| && s.tab[n] == Free
    ensures Inv(s.(tab := s.tab[n := Tar]))
  {
    var s' := s.(tab := s.tab[n := Tar]);
    forall u, gd | u in s'.fds && 0 <= gd < NUM_FDS ensures FdOk(s', u, gd) { assert FdOk(s, u, gd); }
    forall u: nat, gd: nat, v: nat, hd: nat, m: nat | Holds(s', u, gd, m) && Holds(s', v, hd, m) && IsTar(s', m)
      ensures u == v && gd == hd
    {
      assert Holds(s, u, gd, m) && Holds(s, v, hd, m) && FdOk(s, u, gd);
      assert IsTar(s, m);
    }
    forall u | u in s'.users ensures StdioFd(s', u, 0) && StdioFd(s', u, 1) && StdioFd(s', u, 2) {
      assert StdioFd(s, u, 0) && StdioFd(s, u, 1) && StdioFd(s, u, 2);
    }
  }

  /** The state in which free_task's loop has closed the first n fds of t. */
  function Closing(s: State, t: nat, n: nat): State
    requires t in s.fds && n <= |s.fds[t]| && CloseFds(s.tab, s.fds[t], n).Some?
  {
    var fds := seq(|s.fds[t]|, i requires 0 <= i < |s.fds[t]| => if i < n then None else s.fds[t][i]);
    State(CloseFds(s.tab, s.fds[t], n).value, s.fds[t := fds], s.users)
  }

  /** The loop closes no slot twice, so it never meets a free one, and keeps ownership. */
  lemma {:induction false} ClosingKeeps(s: State, t: nat, n: nat)
    requires Inv(s) && t in s.fds && t !in s.users && n <= NUM_FDS
    ensures |s.fds[t]| == NUM_FDS && CloseFds(s.tab, s.fds[t], n).Some? && Inv(Closing(s, t, n))
  {
    hide Inv;
    assert |s.fds[t]| == NUM_FDS by { FdCount(s, t); }
    if n == 0 {
      assert Closing(s, t, 0).fds[t] == s.fds[t];
      assert Closing(s, t, 0) == s;
    } else {
      ClosingKeeps(s, t, n - 1);
      var s1 := Closing(s, t, n - 1);
      if s.fds[t][n - 1].Some? {
        CloseKeeps(s1, t, n - 1);
        assert Closing(s, t, n).fds[t] == s1.fds[t][n - 1 := None];
        assert Closing(s, t, n) == SetFd(s1, t, n - 1, None).(tab := Closing(s, t, n).tab);
      } else {
        assert Closing(s, t, n).fds[t] == s1.fds[t];
      }
    }
  }

  lemma FdCount(s: State, t: nat)
    requires Inv(s) && t in s.fds
    ensures |s.fds[t]| == NUM_FDS
  {}

  lemma ExitKeeps(s: State, t: nat)
    requires Inv(s) && t in s.fds
    ensures Exit(s, t).Ok? && Inv(Exit(s, t).s)
  {
    var s1 := s.(users := s.users - {t});
    assert Inv(s1) by { FewerUsers(s, s1.users); }
    FdCount(s, t);
    hide Inv, CloseFds;
    ClosingKeeps(s1, t, NUM_FDS);
    DropTaskKeeps(Closing(s1, t, NUM_FDS), t);
    assert Closing(s1, t, NUM_FDS).fds - {t} == s.fds - {t};
  }

  lemma FewerUsers(s: State, users: set<nat>)
    requires Inv(s) && users <= s.users
    ensures Inv(s.(users := users))
  {
    var s' := s.(users := users);
    forall u, gd | u in s'.fds && 0 <= gd < NUM_FDS ensures FdOk(s', u, gd) { assert FdOk(s, u, gd); }
    forall u: nat, gd: nat, v: nat, hd: nat, m: nat | Holds(s', u, gd, m) && Holds(s', v, hd, m) && IsTar(s', m)
      ensures u == v && gd == hd
    { assert Holds(s, u, gd, m) && Holds(s, v, hd, m) && IsTar(s, m); }
    forall u | u in users ensures StdioFd(s', u, 0) && StdioFd(s', u, 1) && StdioFd(s', u, 2) {
      assert StdioFd(s, u, 0) && StdioFd(s, u, 1) && StdioFd(s, u, 2);
    }
  }

  lemma {:induction false} CloseStdio(tab: seq<Slot>, fds: Fds, n: nat)
    requires n <= |fds| && forall fd | 0 <= fd < |fds| :: fds[fd].Some? ==> CanDup(tab, fds[fd])
    ensures CloseFds(tab, fds, n) == Some(tab)
  { if n > 0 { CloseStdio(tab, fds, n - 1); } }

  lemma SpawnKeeps(s: State, p: nat, c: nat, load: Load)
    requires Inv(s) && p in s.users && p in s.fds && c !in s.fds && c !in s.users
    ensures Spawn(s, p, c, load).Panic? <==> GivesUp(s, SpawnEvent(p, c, load))
    ensures Spawn(s, p, c, load).Ok? ==> Inv(Spawn(s, p, c, load).s)
    ensures load == BadArgs && Spawn(s, p, c, load).Ok? ==> Spawn(s, p, c, load).s == s
  {
    assert StdioFd(s, p, 0) && StdioFd(s, p, 1) && StdioFd(s, p, 2) && |s.fds[p]| == NUM_FDS;
    var n := FreeSlot(s.tab, 0);
    if load == BadElf && n < |s.tab| { LeakKeeps(s, n); }
    if load == BadArgs || load == Loaded {
      var fds := ChildFds(s.fds[p]);
      forall fd | 0 <= fd < NUM_FDS && fds[fd].Some? ensures CanDup(s.tab, fds[fd]) {
        assert fd == 0 || fd == 1 || fd == 2;
      }
      CloseStdio(s.tab, fds, NUM_FDS);
      NewTaskKeeps(s, c, fds, s.users + {c});
      assert s.fds[c := fds] - {c} == s.fds && s.users - {c} == s.users;
    }
  }

  /** Every step: the kernel stops only where it gives up by design, so file_dup never reaches tar_dup and file_close
      never meets a slot that is free; and ownership is kept. */
  lemma StepKeeps(s: State, e: Event)
    requires Inv(s) && Enabled(s, e)
    ensures Step(s, e).Panic? <==> GivesUp(s, e)
    ensures Step(s, e).Ok? ==> Inv(Step(s, e).s)
  {
    hide Inv, Exit, Spawn, CloseSlot;
    match e {
      case BootEvent(t, device) =>
        BootTaskKeeps(s, t, device);
      case OpenEvent(t, path) =>
        FdCount(s, t);
        var fd, n := FreeFd(s.fds[t], 0), FreeSlot(s.tab, 0);
        if fd < NUM_FDS && path.Device? { OpenStdioKeeps(s, t, fd, path.slot); }
        if fd < NUM_FDS && path.Ramdisk? && n < |s.tab| { OpenTarKeeps(s, t, fd, n); }
      case CloseEvent(t, fd) =>
        FdCount(s, t);
        if CanClose(s, t, fd) { CloseKeeps(s, t, fd); }
      case SpawnEvent(p, c, load) => SpawnKeeps(s, p, c, load);
      case ExitEvent(t) => ExitKeeps(s, t);
    }
  }

  lemma BootTaskKeeps(s: State, t: nat, device: Option<nat>)
    requires Inv(s) && t !in s.fds && (device.Some? ==> CanDup(s.tab, device))
    ensures Inv(State(s.tab, s.fds[t := KernelFds(device)], s.users + if device.Some? then {t} else {}))
  {
    assert t !in s.users by { assert forall u | u in s.users :: StdioFd(s, u, 0); }
    NewTaskKeeps(s, t, KernelFds(device), s.users + if device.Some? then {t} else {});
  }

  // ---- Runs --------------------------------------------------------------------------------------

  /** After init_files and init_stdio: the first slots are the stdio files of the serial tty and of the displays. */
  ghost predicate Booted(s: State) {
    && s.fds == map[] && s.users == {} && |s.tab| == NUM_FILES
    && exists displays: nat :: StdioTable(s.tab, displays)
  }

  ghost predicate StdioTable(tab: seq<Slot>, displays: nat) {
    displays < |tab| && forall i | 0 <= i < |tab| :: tab[i] == if i <= displays then Stdio else Free
  }

  ghost predicate Steps(s: State, e: Event, s': State) { Enabled(s, e) && Step(s, e) == Ok(s') }

  ghost predicate IsRun(states: seq<State>, events: seq<Event>) {
    |states| == |events| + 1 && forall i | 0 <= i < |events| :: Steps(states[i], events[i], states[i + 1])
  }

  /** File ownership over every run of open, close, spawn and exit from boot: ownership holds, and whatever happens
      next, the kernel stops only where it gives up by design. */
  lemma {:induction false} RunSafe(states: seq<State>, events: seq<Event>, i: nat, e: Event)
    requires IsRun(states, events) && Booted(states[0]) && i < |states|
    ensures Inv(states[i])
    ensures Enabled(states[i], e) ==> (Step(states[i], e).Panic? <==> GivesUp(states[i], e))
  {
    hide Step, Enabled, GivesUp;
    if i > 0 {
      RunSafe(states, events, i - 1, e);
      assert Steps(states[i - 1], events[i - 1], states[i]);
      StepKeeps(states[i - 1], events[i - 1]);
    }
    if Enabled(states[i], e) { StepKeeps(states[i], e); }
  }

  /** What ownership means, in every state of every run: fds 0 to 2 of a task that makes system calls are stdio files,
      an open fd names a slot in use, and the holder of a ramdisk slot is its only holder. */
  lemma RunFacts(states: seq<State>, events: seq<Event>, i: nat, t: nat, fd: nat, n: nat, u: nat, gd: nat)
    requires IsRun(states, events) && Booted(states[0]) && i < |states|
    ensures t in states[i].users && fd < 3 ==> StdioFd(states[i], t, fd)
    ensures Holds(states[i], t, fd, n) ==>
      n < |states[i].tab| && (states[i].tab[n] == Stdio || states[i].tab[n] == Tar)
    ensures Holds(states[i], t, fd, n) && Holds(states[i], u, gd, n) && IsTar(states[i], n) ==> t == u && fd == gd
  {
    hide Booted;
    RunSafe(states, events, i, ExitEvent(0));
    var s := states[i];
    if t in s.users { assert StdioFd(s, t, 0) && StdioFd(s, t, 1) && StdioFd(s, t, 2); }
    if Holds(s, t, fd, n) { assert FdOk(s, t, fd); }
  }

  // ---- Slots that are never given back ---------------------------------------------------------------

  ghost predicate Held(s: State, n: nat) { exists t: nat, fd: nat :: Holds(s, t, fd, n) }

  /** A ramdisk slot that nobody holds: it is never given back. */
  ghost predicate Leaked(s: State, n: nat) { IsTar(s, n) && !Held(s, n) }

  ghost function LeakedSlots(s: State): set<nat> { set n | 0 <= n < |s.tab| && Leaked(s, n) }

  /** The spawn of an executable that fails to load. */
  predicate BadLoad(e: Event) { e.SpawnEvent? && e.load == BadElf }

  lemma SameHolders(s: State, s': State, n: nat)
    requires forall t: nat, fd: nat :: Holds(s, t, fd, n) <==> Holds(s', t, fd, n)
    ensures Held(s, n) <==> Held(s', n)
  {}

  lemma OpenLeaks(s: State, t: nat, path: Path, n: nat)
    requires Inv(s) && Enabled(s, OpenEvent(t, path)) && Open(s, t, path).Ok?
    ensures Leaked(Open(s, t, path).s, n) <==> Leaked(s, n)
  {
    FdCount(s, t);
    var s' := Open(s, t, path).s;
    var fd, m := FreeFd(s.fds[t], 0), FreeSlot(s.tab, 0);
    if fd < NUM_FDS && path == Ramdisk && n == m {
      assert Holds(s', t, fd, n);
    } else if IsTar(s, n) {
      hide Inv;
      SameHolders(s, s', n);
    }
  }

  lemma CloseLeaks(s: State, t: nat, fd: nat, n: nat)
    requires Inv(s) && Enabled(s, CloseEvent(t, fd)) && Close(s, t, fd).Ok?
    ensures Leaked(Close(s, t, fd).s, n) <==> Leaked(s, n)
  {
    FdCount(s, t);
    hide Inv;
    var s' := Close(s, t, fd).s;
    if CanClose(s, t, fd) {
      if s.fds[t][fd].value == n { assert Holds(s, t, fd, n); } else { SameHolders(s, s', n); }
    }
  }

  lemma ExitLeaks(s: State, t: nat, n: nat)
    requires Inv(s) && Enabled(s, ExitEvent(t)) && Exit(s, t).Ok?
    ensures Leaked(Exit(s, t).s, n) <==> Leaked(s, n)
  {
    FdCount(s, t);
    hide Inv;
    ClosedSlots(s.tab, s.fds[t], NUM_FDS);
    if fd: nat :| fd < NUM_FDS && s.fds[t][fd] == Some(n) {
      assert Holds(s, t, fd, n);
    } else {
      SameHolders(s, Exit(s, t).s, n);
    }
  }

  lemma BootLeaks(s: State, t: nat, device: Option<nat>, n: nat)
    requires Inv(s) && Enabled(s, BootEvent(t, device))
    ensures Leaked(Step(s, BootEvent(t, device)).s, n) <==> Leaked(s, n)
  {
    hide Inv;
    if IsTar(s, n) { SameHolders(s, Step(s, BootEvent(t, device)).s, n); }
  }

  lemma SpawnLeaks(s: State, p: nat, c: nat, load: Load, n: nat)
    requires Inv(s) && Enabled(s, SpawnEvent(p, c, load)) && Spawn(s, p, c, load).Ok?
    ensures Leaked(Spawn(s, p, c, load).s, n) <==> Leaked(s, n) || (load == BadElf && n == FreeSlot(s.tab, 0))
  {
    SpawnKeeps(s, p, c, load);
    var s' := Spawn(s, p, c, load).s;
    var m := FreeSlot(s.tab, 0);
    if load == BadElf && n == m {
      FreeUnheld(s, n);
      SameHolders(s, s', n);
    } else if load == Loaded && IsTar(s, n) {
      assert StdioFd(s, p, 0) && StdioFd(s, p, 1) && StdioFd(s, p, 2) && |s.fds[p]| == NUM_FDS;
      hide Inv;
      SameHolders(s, s', n);
    } else if load != Loaded {
      hide Inv;
      SameHolders(s, s', n);
    }
  }

  lemma FreeUnheld(s: State, n: nat)
    requires Inv(s) && n < |s.tab| && s.tab[n] == Free
    ensures !Held(s, n)
  {
    forall t, fd | t in s.fds && 0 <= fd < NUM_FDS ensures s.fds[t][fd] != Some(n) { assert FdOk(s, t, fd); }
  }

  /** A step loses a slot if and only if it is the spawn of an executable that fails to load, which loses the slot that
      was opened for it; and a lost slot stays lost. */
  lemma StepLeaks(s: State, e: Event, n: nat)
    requires Inv(s) && Enabled(s, e) && Step(s, e).Ok?
    ensures Leaked(Step(s, e).s, n) <==> Leaked(s, n) || (BadLoad(e) && n == FreeSlot(s.tab, 0))
  {
    hide Inv, Leaked, Open, Close, Spawn, Exit;
    match e
    case BootEvent(t, device) => BootLeaks(s, t, device, n);
    case OpenEvent(t, path) => OpenLeaks(s, t, path, n);
    case CloseEvent(t, fd) => CloseLeaks(s, t, fd, n);
    case SpawnEvent(p, c, load) => SpawnLeaks(s, p, c, load, n);
    case ExitEvent(t) => ExitLeaks(s, t, n);
  }

  function BadLoads(events: seq<Event>): nat {
    if |events| == 0 then 0
    else BadLoads(events[..|events| - 1]) + if BadLoad(events[|events| - 1]) then 1 else 0
  }

  lemma StepSize(s: State, e: Event)
    requires Inv(s) && Enabled(s, e) && Step(s, e).Ok?
    ensures |Step(s, e).s.tab| == |s.tab|
    ensures BadLoad(e) ==> FreeSlot(s.tab, 0) < |s.tab|
  {
    match e
    case ExitEvent(t) => ClosedSlots(s.tab, s.fds[t], |s.fds[t]|);
    case SpawnEvent(p, c, load) => SpawnKeeps(s, p, c, load);
    case _ =>
  }

  /** Conservation of file slots over runs: as many slots are lost as executables have failed to load. */
  lemma {:induction false} RunLeaks(states: seq<State>, events: seq<Event>, i: nat)
    requires IsRun(states, events) && Booted(states[0]) && i < |states|
    ensures |states[i].tab| == NUM_FILES && |LeakedSlots(states[i])| == BadLoads(events[..i])
  {
    hide Step, Enabled, Leaked;
    if i == 0 {
      BootLeaksNothing(states[0]);
      assert LeakedSlots(states[0]) == {};
    } else {
      RunLeaks(states, events, i - 1);
      RunSafe(states, events, i - 1, events[i - 1]);
      assert Steps(states[i - 1], events[i - 1], states[i]);
      var s, e, s' := states[i - 1], events[i - 1], states[i];
      StepSize(s, e);
      assert events[..i][..i - 1] == events[..i - 1];
      forall n: nat ensures Leaked(s', n) <==> Leaked(s, n) || (BadLoad(e) && n == FreeSlot(s.tab, 0)) {
        StepLeaks(s, e, n);
      }
      if BadLoad(e) {
        FreeNotLeaked(s, FreeSlot(s.tab, 0));
        assert LeakedSlots(s') == LeakedSlots(s) + {FreeSlot(s.tab, 0)};
      } else {
        assert LeakedSlots(s') == LeakedSlots(s);
      }
    }
  }

  lemma BootLeaksNothing(s: State)
    requires Booted(s)
    ensures |s.tab| == NUM_FILES && forall n: nat :: !Leaked(s, n)
  {}

  lemma FreeNotLeaked(s: State, n: nat)
    requires n < |s.tab| && s.tab[n] == Free
    ensures !Leaked(s, n)
  {}

  /** In every state of every run: all ramdisk slots in use are held by somebody if and only if no executable has failed
      to load. */
  lemma ConservedIff(states: seq<State>, events: seq<Event>, i: nat)
    requires IsRun(states, events) && Booted(states[0]) && i < |states|
    ensures (forall n: nat :: !Leaked(states[i], n)) <==> forall j | 0 <= j < i :: !BadLoad(events[j])
  {
    RunLeaks(states, events, i);
    CountZero(events[..i]);
    assert forall j | 0 <= j < i :: events[..i][j] == events[j];
    hide Step, Enabled, Leaked;
    LeakedInTable(states[i]);
    if forall j | 0 <= j < i :: !BadLoad(events[j]) {
      assert LeakedSlots(states[i]) == {};
    } else {
      assert LeakedSlots(states[i]) != {};
      var n :| n in LeakedSlots(states[i]);
    }
  }

  lemma LeakedInTable(s: State)
    ensures forall n: nat :: Leaked(s, n) <==> n in LeakedSlots(s)
  {}

  lemma {:induction false} CountZero(events: seq<Event>)
    ensures BadLoads(events) == 0 <==> forall j | 0 <= j < |events| :: !BadLoad(events[j])
  {
    if |events| > 0 {
      var front := events[..|events| - 1];
      CountZero(front);
      assert forall j | 0 <= j < |front| :: front[j] == events[j];
    }
  }

  lemma StdioNotLeaked(s: State, t: nat) returns (n: nat)
    requires Inv(s) && t in s.users
    ensures n < |s.tab| && s.tab[n] == Stdio
  {
    assert StdioFd(s, t, 0);
    n := s.fds[t][0].value;
  }

  /** A table full of lost slots but for one has no free slot, as a stdio file has that one. */
  lemma FullTable(s: State, t: nat)
    requires Inv(s) && t in s.users && |s.tab| == NUM_FILES && |LeakedSlots(s)| >= NUM_FILES - 1
    ensures FreeSlot(s.tab, 0) == |s.tab|
  {
    var stdio := StdioNotLeaked(s, t);
    var free := FreeSlot(s.tab, 0);
    hide Inv, Held;
    if free < |s.tab| { Room(LeakedSlots(s), |s.tab|, stdio, free); }
  }

  lemma Room(slots: set<nat>, size: nat, a: nat, b: nat)
    requires a < size && b < size && a != b && forall n | n in slots :: n < size && n != a && n != b
    ensures |slots| <= size - 2
  {
    hide FirstSlots;
    var all := FirstSlots(size);
    assert |all - {a}| == size - 1 && |all - {a} - {b}| == size - 2;
    Subset(slots, all - {a} - {b});
  }

  /** Enough executables that fail to load stop the kernel: each takes a slot for good, and with none left the next open
      of a ramdisk file panics. */
  lemma BadLoadsFill(states: seq<State>, events: seq<Event>, i: nat, t: nat)
    requires IsRun(states, events) && Booted(states[0]) && i < |states| && BadLoads(events[..i]) >= NUM_FILES - 1
    requires Enabled(states[i], OpenEvent(t, Ramdisk)) && FreeFd(states[i].fds[t], 0) < |states[i].fds[t]|
    ensures Step(states[i], OpenEvent(t, Ramdisk)).Panic?
  {
    hide Inv, IsRun, Booted, LeakedSlots, BadLoads, FreeSlot, FreeFd;
    RunLeaks(states, events, i);
    RunSafe(states, events, i, OpenEvent(t, Ramdisk));
    FullTable(states[i], t);
  }

  function FirstSlots(k: nat): (r: set<nat>)
    ensures |r| == k && forall n: nat :: n in r <==> n < k
  { if k == 0 then {} else FirstSlots(k - 1) + {k - 1} }

  lemma {:induction false} Subset(a: set<nat>, b: set<nat>)
    requires a <= b
    ensures |a| <= |b|
  {
    if a != {} {
      var x :| x in a;
      Subset(a - {x}, b - {x});
    }
  }

  /** A run that loses a slot: root spawns an executable that fails to load, and slot 1 is in use for good, held by
      nobody. */
  lemma LostSlot() returns (states: seq<State>, events: seq<Event>)
    ensures IsRun(states, events) && Booted(states[0]) && |states| == 3
    ensures events == [BootEvent(0, Some(0)), SpawnEvent(0, 1, BadElf)]
    ensures Leaked(states[2], 1)
  {
    var s0 := State(seq(NUM_FILES, i => if i == 0 then Stdio else Free), map[], {});
    events := [BootEvent(0, Some(0)), SpawnEvent(0, 1, BadElf)];
    var s1 := State(s0.tab, map[0 := KernelFds(Some(0))], {0});
    assert FreeSlot(s1.tab, 0) == 1 by { assert s1.tab[0] == Stdio && s1.tab[1] == Free; }
    var s2 := s1.(tab := s1.tab[1 := Tar]);
    states := [s0, s1, s2];
    assert StdioTable(s0.tab, 0);
    assert s0.fds[0 := KernelFds(Some(0))] == s1.fds && {} + {0} == s1.users;
    assert Steps(s0, events[0], s1) && Steps(s1, events[1], s2);
    assert forall i | 0 <= i < 2 :: Steps(states[i], events[i], states[i + 1]);
    assert forall fd | 0 <= fd < NUM_FDS :: s2.fds[0][fd] != Some(1);
  }

  // ---- In place ----------------------------------------------------------------------------------

  class FileSystem {
    var tab: seq<Slot>
    var fds: map<nat, Fds>
    /** The tasks that make system calls. */
    var users: set<nat>

    ghost function Now(): State
      reads this
    { State(tab, fds, users) }

    /** init_files and init_stdio: one file for the serial tty and one for each display. */
    constructor (displays: nat)
      requires 1 + displays <= NUM_FILES
      ensures Booted(Now()) && |tab| == 1024
      ensures forall i | 0 <= i < 1024 :: tab[i] == if i <= displays then Stdio else Free
    {
      tab, fds, users := seq(NUM_FILES, _ => Free), map[], {};
      new;
      for i := 0 to 1 + displays
        invariant fds == map[] && users == {} && |tab| == NUM_FILES
        invariant forall j | 0 <= j < NUM_FILES :: tab[j] == if j < i then Stdio else Free
      {
        assert tab[i] == Free;
        var slot := FileAlloc();
        tab := tab[slot.value := Stdio];
      }
      assert StdioTable(tab, displays);
    }

    /** file_alloc: takes the first free slot, or None where it panics. */
    method FileAlloc() returns (r: Option<nat>)
      modifies this`tab
      ensures r.None? <==> forall i | 0 <= i < |old(tab)| :: old(tab)[i] != Free
      ensures r.None? ==> tab == old(tab)
      ensures r.Some? ==> r.value < |tab| && r.value == FreeSlot(old(tab), 0) && tab == old(tab)[r.value := Blank]
    {
      for i := 0 to |tab|
        invariant tab == old(tab) && FreeSlot(tab, 0) == FreeSlot(tab, i)
      {
        if tab[i] == Free {
          tab := tab[i := Blank];
          return Some(i);
        }
      }
      return None;
    }

    /** find_free_fd. */
    method FindFreeFd(t: nat) returns (r: Option<nat>)
      requires t in fds
      ensures r.None? <==> forall i | 0 <= i < |fds[t]| :: fds[t][i].Some?
      ensures r.Some? ==> r.value < |fds[t]| && r.value == FreeFd(fds[t], 0)
    {
      for i := 0 to |fds[t]|
        invariant FreeFd(fds[t], 0) == FreeFd(fds[t], i)
      {
        if fds[t][i] == None { return Some(i); }
      }
      return None;
    }

    /** The files of task_spawn_kernel: three times the stdio file of the device, or none for /dev/null. */
    method SpawnKernel(t: nat, device: Option<nat>)
      requires Inv(Now()) && Enabled(Now(), BootEvent(t, device))
      modifies this
      ensures Inv(Now()) && Step(old(Now()), BootEvent(t, device)) == Ok(Now())
    {
      StepKeeps(Now(), BootEvent(t, device));
      hide Inv, KernelFds;
      fds := fds[t := KernelFds(device)];
      if device.Some? { users := users + {t}; }
      assert users == old(users) + if device.Some? then {t} else {};
    }

    /** sys_open after the path check: the new fd, or None for an error. False where file_alloc panics. */
    method OpenFile(t: nat, path: Path) returns (ok: bool, fd: Option<nat>)
      requires Inv(Now()) && Enabled(Now(), OpenEvent(t, path))
      modifies this
      ensures ok <==> !GivesUp(old(Now()), OpenEvent(t, path))
      ensures ok ==> Inv(Now()) && Step(old(Now()), OpenEvent(t, path)) == Ok(Now())
      ensures fd.None? ==> Now() == old(Now())
      ensures ok ==> (fd.None? <==> path.Nowhere? || forall i | 0 <= i < NUM_FDS :: old(fds)[t][i].Some?)
      ensures fd.Some? ==> fd.value < NUM_FDS && fd.value == FreeFd(old(fds)[t], 0)
    {
      StepKeeps(Now(), OpenEvent(t, path));
      assert |fds[t]| == NUM_FDS by { FdCount(Now(), t); }
      hide Inv;
      ok, fd := true, None;
      var free := FindFreeFd(t);
      if free.None? { return; }
      match path {
        case Nowhere => return;
        case Device(n) =>
          fds := fds[t := fds[t][free.value := Some(n)]];
          fd := free;
        case Ramdisk =>
          var slot := FileAlloc();
          if slot.None? { return false, None; }
          tab := tab[slot.value := Tar];
          assert tab == old(tab)[slot.value := Tar];
          fds := fds[t := fds[t][free.value := Some(slot.value)]];
          fd := free;
      }
    }

    /** file_close. False where it crashes. */
    method FileClose(n: nat) returns (ok: bool)
      modifies this`tab
      ensures CloseSlot(old(tab), n) == if ok then Some(tab) else None
    {
      if n >= |tab| || tab[n] == Free || tab[n] == Blank { return false; }
      if tab[n] == Tar { tab := tab[n := Free]; }
      return true;
    }

    /** sys_close: false for an fd that is not open or is stdin, stdout or stderr. A freed slot was in use nowhere
        else. */
    method CloseFile(t: nat, fd: nat) returns (ok: bool)
      requires Inv(Now()) && Enabled(Now(), CloseEvent(t, fd))
      modifies this
      ensures Inv(Now()) && Step(old(Now()), CloseEvent(t, fd)) == Ok(Now())
      ensures ok <==> 3 <= fd < NUM_FDS && old(fds)[t][fd].Some?
      ensures !ok ==> Now() == old(Now())
      ensures ok ==> fds == old(fds)[t := old(fds)[t][fd := None]]
    {
      StepKeeps(Now(), CloseEvent(t, fd));
      assert |fds[t]| == NUM_FDS by { FdCount(Now(), t); }
      hide Inv;
      if fd >= NUM_FDS || fds[t][fd] == None { return false; }
      if fd == 0 || fd == 1 || fd == 2 { return false; }
      var closed := FileClose(fds[t][fd].value);
      fds := fds[t := fds[t][fd := None]];
      return true;
    }

    /** free_task's loop over the fds (src/kernel/task.c:165-168), and the end of the task. */
    method FreeTask(t: nat)
      requires Inv(Now()) && t in fds
      modifies this
      ensures Inv(Now()) && Exit(old(Now()), t) == Ok(Now())
      ensures |tab| == |old(tab)| && forall n | 0 <= n < |tab| ::
        tab[n] == if old(tab)[n] == Tar && (exists fd: nat :: Holds(old(Now()), t, fd, n)) then Free else old(tab)[n]
    {
      ExitKeeps(Now(), t);
      assert |fds[t]| == NUM_FDS by { FdCount(Now(), t); }
      hide Inv, CloseSlot;
      for i := 0 to NUM_FDS
        invariant fds == old(fds) && users == old(users) && CloseFds(old(tab), fds[t], i) == Some(tab)
      {
        SomeBefore(old(tab), fds[t], i + 1);
        if fds[t][i].Some? { var ok := FileClose(fds[t][i].value); }
      }
      ClosedSlots(old(tab), fds[t], NUM_FDS);
      forall n | 0 <= n < |tab|
        ensures (exists fd: nat :: Holds(old(Now()), t, fd, n)) <==>
          (exists fd: nat :: fd < NUM_FDS && fds[t][fd] == Some(n))
      {
        if fd: nat :| Holds(old(Now()), t, fd, n) { assert fds[t][fd] == Some(n); }
        if fd: nat :| fd < NUM_FDS && fds[t][fd] == Some(n) { assert Holds(old(Now()), t, fd, n); }
      }
      fds := fds - {t};
      users := users - {t};
    }

    /** The files of task_spawn_user (src/kernel/task.c:53-110): the executable is opened for loading; if loading fails
        its slot stays taken, owned by nobody. Otherwise it is closed and the child gets copies of its parent's stdio
        files. A child whose arguments cannot be copied is freed again. False where the source panics. */
    method SpawnUser(p: nat, c: nat, load: Load) returns (ok: bool)
      requires Inv(Now()) && Enabled(Now(), SpawnEvent(p, c, load))
      modifies this
      ensures ok <==> !GivesUp(old(Now()), SpawnEvent(p, c, load))
      ensures ok ==> Inv(Now()) && Step(old(Now()), SpawnEvent(p, c, load)) == Ok(Now())
      ensures ok && (load == NotFound || load == BadArgs) ==> Now() == old(Now())
    {
      SpawnKeeps(Now(), p, c, load);
      StepKeeps(Now(), SpawnEvent(p, c, load));
      if load == NotFound { return true; }
      if load == NotRegular { return false; }
      var slot := FileAlloc();
      if slot.None? { return false; }
      tab := tab[slot.value := Tar];
      assert tab == old(tab)[slot.value := Tar];
      if load == BadElf { return true; }
      var closed := FileClose(slot.value);
      assert tab == old(tab);
      var stdio := fds[p];
      assert CanDup(tab, stdio[0]) && CanDup(tab, stdio[1]) && CanDup(tab, stdio[2]) by {
        assert StdioFd(old(Now()), p, 0) && StdioFd(old(Now()), p, 1) && StdioFd(old(Now()), p, 2);
      }
      hide Inv, Exit;
      fds := fds[c := ChildFds(stdio)];
      if load == BadArgs {
        assert Inv(Now()) by { ChildKeeps(old(Now()), p, c); }
        FreeTask(c);
        return true;
      }
      users := users + {c};
      return true;
    }
  }

  /** A child in the making, with its parent's stdio files. */
  lemma ChildKeeps(s: State, p: nat, c: nat)
    requires Inv(s) && p in s.users && p in s.fds && c !in s.fds && c !in s.users
    ensures |s.fds[p]| == NUM_FDS && Inv(s.(fds := s.fds[c := ChildFds(s.fds[p])]))
  {
    assert StdioFd(s, p, 0) && StdioFd(s, p, 1) && StdioFd(s, p, 2) && |s.fds[p]| == NUM_FDS;
    var fds := ChildFds(s.fds[p]);
    forall fd | 0 <= fd < NUM_FDS && fds[fd].Some? ensures CanDup(s.tab, fds[fd]) {
      assert fd == 0 || fd == 1 || fd == 2;
    }
    NewTaskKeeps(s, c, fds, s.users);
  }

  /** If the whole loop succeeds, so does every part of it. */
  lemma {:induction false} SomeBefore(tab: seq<Slot>, fds: Fds, n: nat)
    requires n <= |fds| && CloseFds(tab, fds, |fds|).Some?
    ensures CloseFds(tab, fds, n).Some?
    decreases |fds| - n
  { if n < |fds| { SomeBefore(tab, fds, n + 1); } }

  /** The loop frees exactly the ramdisk slots that the fds name. */
  lemma {:induction false} ClosedSlots(tab: seq<Slot>, fds: Fds, n: nat)
    requires n <= |fds| && CloseFds(tab, fds, n).Some?
    ensures var tab' := CloseFds(tab, fds, n).value;
      |tab'| == |tab| && forall m | 0 <= m < |tab| ::
        tab'[m] == if tab[m] == Tar && (exists fd: nat :: fd < n && fds[fd] == Some(m)) then Free else tab[m]
  {
    if n > 0 {
      ClosedSlots(tab, fds, n - 1);
      var tab1, tab' := CloseFds(tab, fds, n - 1).value, CloseFds(tab, fds, n).value;
      forall m | 0 <= m < |tab|
        ensures |tab'| == |tab|
        ensures tab'[m]
             == if tab[m] == Tar && (exists fd: nat :: fd < n && fds[fd] == Some(m)) then Free else tab[m]
      {
        if fds[n - 1] == Some(m) { assert exists fd: nat :: fd < n && fds[fd] == Some(m); }
        else if fd: nat :| fd < n && fds[fd] == Some(m) { assert fd < n - 1; }
      }
    }
  }
}
