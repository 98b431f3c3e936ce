/**
 Whole runs of the kernel from boot (src/kernel/scheduler.c:132-161): the parts agree in every state, and the pages
 follow the scheduler.
 */
module WholeRuns {
  import opened Common
  import opened TaskMemory
  import opened Elf
  import opened Spawn
  import opened WholeKernel
  import Sched
  import Runs
  import Files
  import Tty
  import Args
  import PageRuns

  // ---- Boot ----------------------------------------------------------------------------------------

  /** filetab after init_stdio and the first n calls of task_spawn_kernel. */
  function BootFiles(displays: nat, n: nat): Files.State {
    if n == 0 then
      Files.State(seq(Files.NUM_FILES, i => if i <= displays then Files.Stdio else Files.Free), map[], {})
    else
      var f, stdin := BootFiles(displays, n - 1), Runs.BootStdin(n - 1);
      Files.State(f.tab, f.fds[n - 1 := Files.KernelFds(stdin)], f.users + if stdin.Some? then {n - 1} else {})
  }

  lemma NoFilesYet(displays: nat)
    requires displays < Files.NUM_FILES
    ensures Files.Inv(BootFiles(displays, 0)) && Files.StdioTable(BootFiles(displays, 0).tab, displays)
  {}

  lemma FileOfDevice(tab: seq<Files.Slot>, displays: nat, t: nat)
    requires Files.StdioTable(tab, displays) && t < Runs.BootCount(displays)
    ensures Runs.BootStdin(t).Some? ==> Files.CanDup(tab, Runs.BootStdin(t))
  {}

  /** The files of boot: every task has the fds of its device. */
  ghost predicate BootFds(f: Files.State, n: nat) {
    && f.users <= f.fds.Keys && (forall t: nat :: t in f.fds <==> t < n)
    && forall t | t in f.fds :: f.fds[t] == Files.KernelFds(Runs.BootStdin(t))
  }

  lemma {:induction false} BootFilesOk(displays: nat, n: nat)
    requires n <= Runs.BootCount(displays) && displays < Files.NUM_FILES
    ensures var f := BootFiles(displays, n);
      Files.Inv(f) && Files.StdioTable(f.tab, displays) && BootFds(f, n)
  {
    hide Files.Inv, Files.KernelFds, Files.StdioTable, Runs.BootStdin, Runs.BootCount;
    if n == 0 { NoFilesYet(displays); } else {
      BootFilesOk(displays, n - 1);
      var f := BootFiles(displays, n - 1);
      FileOfDevice(f.tab, displays, n - 1);
      Files.BootTaskKeeps(f, n - 1, Runs.BootStdin(n - 1));
    }
  }

  /** What init_scheduler leaves, with nothing typed. */
  function BootMachine(displays: nat): Machine {
    Machine(Runs.BootKernel(displays), BootFiles(displays, Runs.BootCount(displays)), map[])
  }

  lemma BootKernelFacts(displays: nat)
    ensures var k := Runs.BootKernel(displays);
      && Sched.Inv(k) && k.ready == map[] && (forall t: nat :: t in k.tasks <==> t < Runs.BootCount(displays))
      && forall t | t in k.tasks :: k.tasks[t].stdin == Runs.BootStdin(t)
  {
    Runs.BootKernelBooted(displays);
    Runs.BootInv(Runs.BootKernel(displays));
    hide Sched.Inv, Runs.Booted;
  }

  lemma FirstFd(stdin: Option<nat>)
    ensures |Files.KernelFds(stdin)| == Files.NUM_FDS && Files.KernelFds(stdin)[0] == stdin
  {}

  lemma BootJoined(displays: nat)
    requires displays < Files.NUM_FILES
    ensures Joined(BootMachine(displays))
  {
    hide Files.Inv, Sched.Inv, BootFiles, Runs.BootKernel, Runs.BootStdin, Runs.BootCount, Files.KernelFds, Tty.HasLine,
        Files.StdioTable;
    var n := Runs.BootCount(displays);
    BootFilesOk(displays, n);
    BootKernelFacts(displays);
    var m := BootMachine(displays);
    forall t | t in m.k.tasks ensures t in m.f.fds && |m.f.fds[t]| == Files.NUM_FDS && StdinOk(m, t) {
      FirstFd(Runs.BootStdin(t));
    }
    NothingTyped();
  }

  /** After boot every tty is the stdin of exactly one task, a root task, and the fds 0 to 2 of that task are the stdio
      file of that tty. */
  lemma OneReaderPerTty(displays: nat, tty: nat) returns (t: nat)
    requires displays < Files.NUM_FILES && tty <= displays
    ensures var m := BootMachine(displays);
      && t in m.k.tasks && m.k.tasks[t].stdin == Some(tty) && Files.CanDup(m.f.tab, Some(tty))
      && (forall u | u in m.k.tasks && m.k.tasks[u].stdin == Some(tty) :: u == t)
      && t in m.f.users && forall fd: nat | fd < 3 :: Files.Holds(m.f, t, fd, tty)
  {
    hide Files.Inv, Files.StdioTable, Sched.Inv, Files.KernelFds, BootFiles, Runs.BootKernel, Runs.BootStdin,
        Files.CanDup, Runs.BootCount;
    var n := Runs.BootCount(displays);
    t := RootOf(displays, tty);
    BootFilesOk(displays, n);
    BootKernelFacts(displays);
    FdsOfDevice(Some(tty));
    RootsAreUsers(displays, n, t);
    FileOfDevice(BootFiles(displays, n).tab, displays, t);
  }

  lemma RootOf(displays: nat, tty: nat) returns (t: nat)
    requires tty <= displays
    ensures t < Runs.BootCount(displays) && forall u :: Runs.BootStdin(u) == Some(tty) <==> u == t
  { t := if tty == 0 then 0 else tty + 2; }

  lemma {:induction false} RootsAreUsers(displays: nat, n: nat, t: nat)
    requires t < n && Runs.BootStdin(t).Some?
    ensures t in BootFiles(displays, n).users
  { if t < n - 1 { RootsAreUsers(displays, n - 1, t); } }

  lemma FdsOfDevice(stdin: Option<nat>)
    ensures forall fd: nat | fd < 3 :: Files.KernelFds(stdin)[fd] == stdin
    ensures |Files.KernelFds(stdin)| == 16 && forall fd | 3 <= fd < 16 :: Files.KernelFds(stdin)[fd] == None
  {}

  /** The other tasks of boot, which are the idle task and the renderer, have no stdin and no open file. */
  lemma OthersReadNothing(displays: nat, t: nat)
    requires displays < Files.NUM_FILES && t in BootMachine(displays).k.tasks
    ensures var m := BootMachine(displays);
      && m.k.idle == 1 && t in m.f.fds
      && (m.k.tasks[t].stdin == None <==> t == 1 || t == 2)
      && (m.k.tasks[t].stdin.Some? ==> m.k.tasks[t].stdin.value <= displays)
      && (t == 1 || t == 2 ==> forall fd | 0 <= fd < |m.f.fds[t]| :: m.f.fds[t][fd] == None)
  {
    BootFilesOk(displays, Runs.BootCount(displays));
    BootKernelFacts(displays);
    FdsOfDevice(Runs.BootStdin(t));
    hide Files.Inv, Files.StdioTable, Sched.Inv, Files.KernelFds, BootFiles;
  }

  // ---- Runs ----------------------------------------------------------------------------------------

  ghost predicate Steps(m: Machine, e: Event, m': Machine) { Enabled(m, e) && Step(m, e) == Some(m') }

  ghost predicate IsRun(displays: nat, ms: seq<Machine>, es: seq<Event>) {
    && displays < Files.NUM_FILES && Runs.BootCount(displays) <= MAX_TASKS
    && |ms| == |es| + 1 && ms[0] == BootMachine(displays)
    && forall i | 0 <= i < |es| :: Steps(ms[i], es[i], ms[i + 1])
  }

  /** In every state of every run from boot the scheduler, the files and the ttys agree, and whatever happens next, the
      kernel stops only where it gives up by design. */
  lemma {:induction false} RunSafe(displays: nat, ms: seq<Machine>, es: seq<Event>, i: nat, e: Event)
    requires IsRun(displays, ms, es) && i < |ms|
    ensures Joined(ms[i])
    ensures Enabled(ms[i], e) ==> (Step(ms[i], e).None? <==> GivesUp(ms[i], e))
  {
    hide Joined, Step, Enabled, GivesUp, BootMachine;
    if i == 0 { BootJoined(displays); } else {
      RunSafe(displays, ms, es, i - 1, e);
      assert Steps(ms[i - 1], es[i - 1], ms[i]);
      StepKeeps(ms[i - 1], es[i - 1]);
    }
    if Enabled(ms[i], e) { StepKeeps(ms[i], e); }
  }

  // ---- Pages ---------------------------------------------------------------------------------------

  function ReapPages(ts: seq<nat>): seq<PageRuns.Event> {
    seq(|ts|, i requires 0 <= i < |ts| => PageRuns.ReapEvent(ts[i]))
  }

  function SpawnPages(e: Event): seq<PageRuns.Event> {
    if !e.SpawnTask? || e.exe.Special? then []
    else [PageRuns.SpawnEvent(if e.exe.Image? then Some(e.exe.program) else None, e.args)]
  }

  /** What an event is for the pages: the spawn, and then the freeing of the tasks that the scheduler reaps. */
  function PageEvents(m: Machine, e: Event): seq<PageRuns.Event> { SpawnPages(e) + ReapPages(Reaped(m, e)) }

  function BootPages(n: nat): seq<PageRuns.Event> { if n == 0 then [] else BootPages(n - 1) + [PageRuns.KernelEvent] }

  /** The page events of boot and of the first n events. */
  function PagesUpTo(displays: nat, ms: seq<Machine>, es: seq<Event>, n: nat): seq<PageRuns.Event>
    requires n <= |es| && |ms| == |es| + 1
  {
    if n == 0 then BootPages(Runs.BootCount(displays))
    else PagesUpTo(displays, ms, es, n - 1) + PageEvents(ms[n - 1], es[n - 1])
  }

  lemma {:induction false} LiveConcat(live: set<nat>, a: seq<PageRuns.Event>, b: seq<PageRuns.Event>)
    ensures PageRuns.LiveAfter(live, a + b) == PageRuns.LiveAfter(PageRuns.LiveAfter(live, a), b)
  {
    hide PageRuns.After;
    if |b| == 0 { assert a + b == a; } else {
      assert (a + b)[..|a + b| - 1] == a + b[..|b| - 1];
      LiveConcat(live, a, b[..|b| - 1]);
    }
  }

  lemma {:induction false} ReapsLive(live: set<nat>, ts: seq<nat>)
    ensures PageRuns.LiveAfter(live, ReapPages(ts)) == live - (set t | t in ts)
  {
    if |ts| > 0 {
      var front := ts[..|ts| - 1];
      ReapsLive(live, front);
      assert ReapPages(ts)[..|ts| - 1] == ReapPages(front);
      assert ts == front + [ts[|ts| - 1]];
    }
  }

  lemma OneLive(live: set<nat>, e: PageRuns.Event)
    ensures PageRuns.LiveAfter(live, [e]) == PageRuns.After(live, e)
  {
    assert [e][..0] == [];
    assert PageRuns.LiveAfter(live, []) == live;
  }

  /** The page events of one event take the slots in use from the tasks before to the tasks after. */
  lemma StepPages(m: Machine, e: Event)
    requires Joined(m) && Enabled(m, e) && Step(m, e).Some?
    ensures PageRuns.LiveAfter(m.k.tasks.Keys, PageEvents(m, e)) == Step(m, e).value.k.tasks.Keys
    ensures (exists x :: x in SpawnPages(e) && PageRuns.NeedsSlot(x)) ==> FirstFree(m.k.tasks.Keys, 0) < MAX_TASKS
  {
    hide Joined, Reaped, FirstFree, Enabled;
    var live := m.k.tasks.Keys;
    LiveConcat(live, SpawnPages(e), ReapPages(Reaped(m, e)));
    if |SpawnPages(e)| > 0 { OneLive(live, SpawnPages(e)[0]); }
    ReapsLive(PageRuns.LiveAfter(live, SpawnPages(e)), Reaped(m, e));
    if e.SpawnTask? && e.exe.Missing? {
      MissingReapsNothing(m, e);
    } else {
      StepParts(m, e);
      SchedPart(m, e);
      SpawnAdds(m, e);
    }
  }

  lemma MissingReapsNothing(m: Machine, e: Event)
    requires e.SpawnTask? && e.exe.Missing?
    ensures Reaped(m, e) == []
  {}

  lemma StepParts(m: Machine, e: Event)
    requires Joined(m) && Enabled(m, e) && Step(m, e).Some? && !(e.SpawnTask? && e.exe.Missing?)
    ensures !NoSlotLeft(m, e) && Step(m, e).value.k == SchedStep(m, e).k && SchedStep(m, e).Ok?
    ensures SchedEvent(m, e).Some? ==> Sched.Enabled(m.k, SchedEvent(m, e).value)
    ensures !(e.SpawnTask? && e.exe.Special?)
  {
    hide Joined, FileStep, SchedStep, Enabled, Reaped;
    PartsAgree(m, e);
    SpecialGivesUp(m, e);
  }

  lemma SpecialGivesUp(m: Machine, e: Event)
    ensures e.SpawnTask? && e.exe.Special? ==> GivesUp(m, e)
  {}

  lemma SpawnAdds(m: Machine, e: Event)
    requires Enabled(m, e) && !NoSlotLeft(m, e) && !(e.SpawnTask? && (e.exe.Missing? || e.exe.Special?))
    ensures PageRuns.LiveAfter(m.k.tasks.Keys, SpawnPages(e)) == m.k.tasks.Keys + Added(m, e)
    ensures e.SpawnTask? ==> FirstFree(m.k.tasks.Keys, 0) < MAX_TASKS
  {
    hide FirstFree;
    FreeBound(m.k.tasks.Keys);
    if e.SpawnTask? { OneLive(m.k.tasks.Keys, SpawnPages(e)[0]); }
    NoOtherSlots(m, e);
  }

  lemma FreeBound(live: set<nat>)
    ensures FirstFree(live, 0) <= MAX_TASKS
  {}

  lemma NoOtherSlots(m: Machine, e: Event)
    ensures e.Key? || e.Open? || e.Close? ==> Added(m, e) == {}
  {}

  lemma {:induction false} FirstFreeAbove(live: set<nat>, n: nat, i: nat)
    requires i <= n < MAX_TASKS && forall t: nat :: t in live <==> t < n
    ensures FirstFree(live, i) == n
    decreases n - i
  { if i < n { FirstFreeAbove(live, n, i + 1); } }

  lemma {:induction false} BootPagesLive(n: nat)
    requires n <= MAX_TASKS
    ensures forall t: nat :: t in PageRuns.LiveAfter({}, BootPages(n)) <==> t < n
  {
    if n > 0 {
      BootPagesLive(n - 1);
      FirstFreeAbove(PageRuns.LiveAfter({}, BootPages(n - 1)), n - 1, 0);
      LiveConcat({}, BootPages(n - 1), [PageRuns.KernelEvent]);
      OneLive(PageRuns.LiveAfter({}, BootPages(n - 1)), PageRuns.KernelEvent);
    }
  }

  /** In every state of every run the slots in use by the pages are the scheduler's tasks. */
  lemma {:induction false} PagesFollow(displays: nat, ms: seq<Machine>, es: seq<Event>, n: nat)
    requires IsRun(displays, ms, es) && n <= |es|
    ensures PageRuns.LiveAfter({}, PagesUpTo(displays, ms, es, n)) == ms[n].k.tasks.Keys
  {
    hide Step, Enabled, Joined, PageEvents, PageRuns.LiveAfter, Runs.BootCount;
    if n == 0 {
      BootKernelFacts(displays);
      BootPagesLive(Runs.BootCount(displays));
    } else {
      PagesFollow(displays, ms, es, n - 1);
      RunSafe(displays, ms, es, n - 1, es[n - 1]);
      assert Steps(ms[n - 1], es[n - 1], ms[n]);
      StepPages(ms[n - 1], es[n - 1]);
      LiveConcat({}, PagesUpTo(displays, ms, es, n - 1), PageEvents(ms[n - 1], es[n - 1]));
    }
  }

  /** The page events before event j of a spawn or of boot leave a slot free, if it needs one. */
  ghost predicate SlotLeft(events: seq<PageRuns.Event>, j: nat)
    requires j < |events|
  { PageRuns.NeedsSlot(events[j]) ==> FirstFree(PageRuns.LiveAfter({}, events[..j]), 0) < MAX_TASKS }

  lemma {:induction false} BootSlotLeft(n: nat, j: nat)
    requires n <= MAX_TASKS && j < |BootPages(n)|
    ensures SlotLeft(BootPages(n), j)
  {
    var front := BootPages(n - 1);
    assert |front| == n - 1 by { BootPagesCount(n - 1); }
    if j < |front| {
      BootSlotLeft(n - 1, j);
      assert BootPages(n)[..j] == front[..j];
    } else {
      assert BootPages(n)[..j] == front;
      BootPagesLive(n - 1);
      FirstFreeAbove(PageRuns.LiveAfter({}, front), n - 1, 0);
    }
  }

  lemma {:induction false} BootPagesCount(n: nat)
    ensures |BootPages(n)| == n
  { if n > 0 { BootPagesCount(n - 1); } }

  /** No spawn of the run finds the task pool full. */
  lemma {:induction false} AlwaysSlotLeft(displays: nat, ms: seq<Machine>, es: seq<Event>, n: nat, j: nat)
    requires IsRun(displays, ms, es) && n <= |es| && j < |PagesUpTo(displays, ms, es, n)|
    ensures SlotLeft(PagesUpTo(displays, ms, es, n), j)
  {
    hide Step, Enabled, Joined, Reaped, PageRuns.LiveAfter, Runs.BootCount, FirstFree;
    if n == 0 { BootSlotLeft(Runs.BootCount(displays), j); } else {
      var front := PagesUpTo(displays, ms, es, n - 1);
      var all := PagesUpTo(displays, ms, es, n);
      if j < |front| {
        AlwaysSlotLeft(displays, ms, es, n - 1, j);
        assert all[..j] == front[..j];
      } else {
        RunSafe(displays, ms, es, n - 1, es[n - 1]);
        assert Steps(ms[n - 1], es[n - 1], ms[n]);
        StepPages(ms[n - 1], es[n - 1]);
        PagesFollow(displays, ms, es, n - 1);
        var e := all[j];
        if PageRuns.NeedsSlot(e) {
          assert e == PageEvents(ms[n - 1], es[n - 1])[j - |front|];
          OnlySpawnsNeed(ms[n - 1], es[n - 1], j - |front|);
          assert all[..j] == front;
        }
      }
    }
  }

  lemma OnlySpawnsNeed(m: Machine, e: Event, j: nat)
    requires j < |PageEvents(m, e)| && PageRuns.NeedsSlot(PageEvents(m, e)[j])
    ensures j == 0 && |SpawnPages(e)| > 0 && PageEvents(m, e)[j] == SpawnPages(e)[0]
  { hide Reaped; }

  /** Images and arguments within the preconditions of the loader. */
  predicate GoodSpawn(e: Event) {
    e.SpawnTask? ==> Args.Fits(e.args) && (e.exe.Image? ==> GoodImage(e.exe.program.segs))
  }

  lemma {:induction false} GoodPages(displays: nat, ms: seq<Machine>, es: seq<Event>, n: nat, j: nat)
    requires n <= |es| && |ms| == |es| + 1 && j < |PagesUpTo(displays, ms, es, n)|
    requires forall i | 0 <= i < n :: GoodSpawn(es[i])
    ensures PageRuns.GoodEvent(PagesUpTo(displays, ms, es, n)[j])
  {
    hide Reaped, GoodImage, Args.Fits;
    if n == 0 { KernelPages(Runs.BootCount(displays), j); } else if j < |PagesUpTo(displays, ms, es, n - 1)| {
      GoodPages(displays, ms, es, n - 1, j);
    } else {
      assert GoodSpawn(es[n - 1]);
    }
  }

  lemma {:induction false} KernelPages(n: nat, j: nat)
    requires j < |BootPages(n)|
    ensures BootPages(n)[j].KernelEvent?
  { if j < |BootPages(n)| - 1 { KernelPages(n - 1, j); } }

  /** The pages of a run from boot: the events that the scheduler's run means for the pages are carried out on an empty
      task pool. Unless the heap is used up, all of them succeed; afterwards the tasks with memory are the scheduler's
      tasks, every allocated page is a present task's or was nobody's from the start, and every task finds what the
      spawn that made it put into its memory. */
  method Follow(pool: TaskPool, displays: nat, ms: seq<Machine>, es: seq<Event>) returns (end: PageRuns.Ending)
    requires pool.Valid() && pool.tasks == map[] && IsRun(displays, ms, es)
    requires forall i | 0 <= i < |es| :: GoodSpawn(es[i])
    modifies pool, pool.vm, pool.vm.heap.allocMap
    ensures end.Done? || (end.NoMemoryAt? && pool.Exhausted())
    ensures end.Done? ==>
      && pool.Valid() && pool.tasks.Keys == ms[|es|].k.tasks.Keys == ms[|es|].f.fds.Keys
      && pool.vm.heap.Allocated() == old(pool.vm.heap.Allocated()) + PageRuns.AllOwned(PageRuns.Snapshot(pool))
      && PageRuns.AllFind(pool.vm.ops, PageRuns.Snapshot(pool),
                          PageRuns.MadeBy({}, PagesUpTo(displays, ms, es, |es|)))
  {
    hide Joined, Step, Enabled, PageRuns.AllFind, PageRuns.Kept, PageRuns.MadeBy, PageRuns.LiveAfter,
        PageRuns.GoodEvent, FirstFree, BootMachine, PageEvents, IsRun;
    assert |ms| == |es| + 1 by { RunLength(displays, ms, es); }
    var events := PagesUpTo(displays, ms, es, |es|);
    forall j | 0 <= j < |events| ensures PageRuns.GoodEvent(events[j]) { GoodPages(displays, ms, es, |es|, j); }
    NothingOwned(PageRuns.Snapshot(pool));
    assert pool.tasks.Keys == {};
    end := PageRuns.RunHistory(pool, events);
    if end.NoSlotAt? { AlwaysSlotLeft(displays, ms, es, |es|, end.n); }
    if end.Done? {
      PagesFollow(displays, ms, es, |es|);
      RunSafe(displays, ms, es, |es|, Close(0));
      SameKeys(ms[|es|]);
    }
  }

  lemma RunLength(displays: nat, ms: seq<Machine>, es: seq<Event>)
    requires IsRun(displays, ms, es)
    ensures |ms| == |es| + 1
  {}

  lemma SameKeys(m: Machine)
    requires Joined(m)
    ensures m.f.fds.Keys == m.k.tasks.Keys
  {}

  lemma NothingOwned(s: PageRuns.Memory)
    requires s.tasks == map[]
    ensures PageRuns.Unowned(s) == s.alloc
  {}
}
