/** Whole runs of the kernel: safety, the spawn/exit handshake, and freedom from starvation. */
module Runs {
  import opened Common
  import opened Sched

  // ---- Boot ---------------------------------------------------------------------------------

  /** What init_scheduler leaves: kernel threads that have not run, the idle thread among them, and a first thread to
      run. */
  ghost predicate Booted(k: Kernel) {
    && RingOk(k) && UidsOk(k) && k.exits == map[]
    && (forall t | t in k.tasks :: BootTask(k, t))
    && k.tasks[k.idle].stdin == None
  }

  ghost predicate BootTask(k: Kernel, t: Tid)
    requires t in k.tasks
  {
    var x := k.tasks[t];
    && x.uid < k.nextUid && x.state == Ready && x.reason == Awake
    && x.parent == None && x.waiting == None && !x.pending && x.pc == Fresh
  }

  lemma BootInv(k: Kernel)
    requires Booted(k)
    ensures Inv(k)
  {
    hide NoDups;
    assert BootTask(k, k.cur) && BootTask(k, k.idle);
    forall t | t in k.tasks ensures TaskOk(k, t) { assert BootTask(k, t); }
  }

  /** The tasks of init_scheduler, by slot: the root task of the serial tty, the idle task and, with a display, the
      renderer and the root task of each display. The i-th display has tty i + 1; the serial tty is 0. */
  function BootStdin(t: Tid): Option<nat> { if t == 0 then Some(0) else if t >= 3 then Some(t - 2) else None }

  function BootCount(displays: nat): nat { if displays == 0 then 2 else 3 + displays }

  function NewBootTask(t: Tid): Task { Task(t, Ready, Awake, None, None, 0, false, BootStdin(t), Fresh) }

  function BootTasks(n: nat): (r: map<Tid, Task>)
    ensures forall t: Tid :: t in r <==> t < n
    ensures forall t | t in r :: r[t] == NewBootTask(t)
  { if n == 0 then map[] else BootTasks(n - 1)[n - 1 := NewBootTask(n - 1)] }

  /** list_add puts each new task first. */
  function BootRing(n: nat): (r: seq<Tid>)
    ensures |r| == n && forall i | 0 <= i < n :: r[i] == n - 1 - i
    ensures forall t: Tid :: t in r <==> t < n
  { if n == 0 then [] else [n - 1] + BootRing(n - 1) }

  /** The kernel when the root task is switched to. */
  function BootKernel(displays: nat): Kernel {
    var n := BootCount(displays);
    Kernel(BootRing(n), BootTasks(n), 0, 1, 0, map[], n, map[])
  }

  lemma BootKernelBooted(displays: nat)
    ensures Booted(BootKernel(displays))
  {
    var k := BootKernel(displays);
    assert 0 in k.tasks && 1 in k.tasks;
    forall t | t in k.tasks ensures BootTask(k, t) {}
  }

  // ---- Runs ------------------------------------------------------------------------------------

  /** A run: states[i] takes the enabled step events[i] to states[i + 1]. */
  ghost predicate IsRun(states: seq<Kernel>, events: seq<Event>) {
    && |states| == |events| + 1
    && forall i | 0 <= i < |events| :: Steps(states[i], events[i], states[i + 1])
  }

  ghost predicate Steps(k: Kernel, e: Event, k': Kernel) { Enabled(k, e) && Step(k, e) == Ok(k') }

  /** Scheduler run safety: along every run from boot the invariant holds, and whatever happens next, no assertion
      of the scheduler, of sleep, of spawn or of exit fails. */
  lemma {:induction false} RunSafe(states: seq<Kernel>, events: seq<Event>, i: nat, e: Event)
    requires IsRun(states, events) && Booted(states[0]) && i < |states|
    ensures Inv(states[i])
    ensures Enabled(states[i], e) ==> Step(states[i], e).Ok?
  {
    hide Booted, Inv, Step, Enabled;
    if i == 0 { BootInv(states[0]); } else {
      RunSafe(states, events, i - 1, e);
      assert Steps(states[i - 1], events[i - 1], states[i]);
      StepKeeps(states[i - 1], events[i - 1]);
    }
    if Enabled(states[i], e) { StepKeeps(states[i], e); }
  }

  /** What run safety means: the current thread is linked and ready, its page table is the one loaded and its task
      lives, the idle thread is ready, and no live task's parent is a freed task. */
  lemma RunFacts(states: seq<Kernel>, events: seq<Event>, i: nat, t: Tid)
    requires IsRun(states, events) && Booted(states[0]) && i < |states|
    ensures var k := states[i];
      && k.cur in k.ring && k.cur in k.tasks && k.tasks[k.cur].state == Ready && k.loaded == k.cur
      && k.idle in k.tasks && k.tasks[k.idle].state == Ready
      && (t in k.ring <==> t in k.tasks)
      && (t in k.tasks && k.tasks[t].parent.Some? ==> k.tasks[t].parent.value in k.tasks)
  {
    hide Step, Enabled, Booted;
    RunSafe(states, events, i, Timer);
    if t in states[i].tasks { assert TaskOk(states[i], t); }
  }

  /** A task has a waiting child exactly while it sleeps on its own waiting_child, and then the child lives, has not
      exited, and is its own. */
  lemma WaitingExactlyWhileAsleep(states: seq<Kernel>, events: seq<Event>, i: nat, t: Tid)
    requires IsRun(states, events) && Booted(states[0]) && i < |states| && t in states[i].tasks
    ensures var k := states[i]; var x := k.tasks[t];
      && (x.waiting.Some? <==> x.state == Sleeping && x.reason == WaitChild(t))
      && (x.waiting.Some? ==> x.waiting.value in k.tasks && k.tasks[x.waiting.value].parent == Some(t)
                              && k.tasks[x.waiting.value].state != Zombie)
  {
    hide Step, Enabled, Booted;
    RunSafe(states, events, i, Timer);
    assert TaskOk(states[i], t);
  }

  /** No lost wake-up: while a line is ready on a tty, no thread is asleep on it. */
  lemma NoLostWakeup(states: seq<Kernel>, events: seq<Event>, i: nat, t: Tid, tty: nat)
    requires IsRun(states, events) && Booted(states[0]) && i < |states| && t in states[i].tasks
    ensures DataReady(states[i], tty) ==>
      !(states[i].tasks[t].state == Sleeping && states[i].tasks[t].reason == OnTty(tty))
  {
    hide Step, Enabled, Booted;
    RunSafe(states, events, i, Timer);
    assert TaskOk(states[i], t);
  }

  // ---- The handshake ---------------------------------------------------------------------------

  /** The code the current thread exits with in this step, if it does. */
  function ExitCodeOf(k: Kernel, e: Event): Option<nat>
    requires Enabled(k, e)
  {
    if e.ExitEvent? then Some(e.code)
    else if e.Resume? && k.tasks[k.cur].pc != Fresh && k.tasks[k.cur].pending then Some(0)
    else None
  }

  lemma ScheduleHistory(k: Kernel)
    ensures Schedule(k).Ok? ==> Schedule(k).k.exits == k.exits
  {}

  lemma StepHistory(k: Kernel, e: Event)
    requires Inv(k) && Enabled(k, e) && Step(k, e).Ok?
    ensures Step(k, e).k.exits ==
      match ExitCodeOf(k, e)
      case Some(code) => k.exits[k.tasks[k.cur].uid := code]
      case None => k.exits
  {
    hide Schedule, Inv;
    match e
    case Timer => ScheduleHistory(SetTask(k, k.cur, k.tasks[k.cur].(pc := Ticked)));
    case ExitEvent(code) => ExitHistory(k, code);
    case SpawnFails =>
    case SpawnEvent(slot, mode) => SpawnHistory(k, slot, mode);
    case Read(tty) => ReadHistory(k, tty);
    case LineEnd(tty, redraw) => IdleHistory(EndLine(Redraw(k, redraw), tty));
    case InterruptKey(tty) => IdleHistory(Interrupt(k, tty));
    case OtherByte(redraw) => IdleHistory(Redraw(k, redraw));
    case RedrawDone => SleepHistory(k, OnDisplay, InRedraw);
    case WakeDisplay => IdleHistory(Wakeup(k, OnDisplay));
    case Resume => ResumeHistory(k);
  }

  lemma IdleHistory(k: Kernel)
    requires k.cur in k.tasks
    ensures IfIdle(k).Ok? ==> IfIdle(k).k.exits == k.exits
  { hide Schedule; ScheduleHistory(SetTask(k, k.cur, k.tasks[k.cur].(pc := Yielded))); }

  lemma SleepHistory(k: Kernel, r: Reason, pc: Pc)
    requires k.cur in k.tasks
    ensures Sleep(k, r, pc).Ok? ==> Sleep(k, r, pc).k.exits == k.exits
  { hide Schedule; ScheduleHistory(SetTask(k, k.cur, k.tasks[k.cur].(state := Sleeping, reason := r, pc := pc))); }

  lemma ReadHistory(k: Kernel, tty: nat)
    requires k.cur in k.tasks
    ensures ReadTty(k, tty).Ok? ==> ReadTty(k, tty).k.exits == k.exits
  { hide Sleep; SleepHistory(k, OnTty(tty), InRead(tty)); }

  lemma SpawnHistory(k: Kernel, slot: Tid, mode: SpawnMode)
    requires k.cur in k.tasks && slot !in k.tasks
    ensures SpawnUser(k, slot, mode).Ok? ==> SpawnUser(k, slot, mode).k.exits == k.exits
  {
    hide Schedule, SpawnUser;
    SpawnIsSchedule(k, slot, mode);
    ScheduleHistory(Forked(k, slot, if mode == Wait then WaitingParent(k, slot) else k.tasks[k.cur].(pc := Yielded)));
  }

  lemma ExitHistory(k: Kernel, code: nat)
    requires Inv(k) && Exit(k, code).Ok?
    ensures Exit(k, code).k.exits == k.exits[k.tasks[k.cur].uid := code]
  {
    hide Schedule, TaskOk, NoDups, UidsOk, Exit;
    ExitIsSchedule(k, code);
    ScheduleHistory(Exited(k, code));
  }

  lemma ResumeHistory(k: Kernel)
    requires Inv(k) && k.tasks[k.cur].pc != Outside && ResumeStep(k).Ok?
    ensures var x := k.tasks[k.cur];
      ResumeStep(k).k.exits == if x.pc != Fresh && x.pending then k.exits[x.uid := 0] else k.exits
  {
    hide Exit, ReadTty, TaskOk, NoDups, UidsOk, IfIdle;
    var x := k.tasks[k.cur];
    IdleHistory(k);
    if x.pc == Fresh {} else if x.pending { ExitHistory(k, 0); } else if x.pc.InRead? { ReadHistory(k, x.pc.tty); }
  }

  /** Every recorded exit code was passed to task_exit by the task it is recorded for. */
  lemma {:induction false} ExitsHappened(states: seq<Kernel>, events: seq<Event>, i: nat, u: nat) returns (j: nat)
    requires IsRun(states, events) && Booted(states[0]) && i < |states| && u in states[i].exits
    ensures j < i && j < |events| && Enabled(states[j], events[j])
    ensures states[j].tasks[states[j].cur].uid == u && ExitCodeOf(states[j], events[j]) == Some(states[i].exits[u])
  {
    hide Inv, Step;
    RunSafe(states, events, i, Timer);
    if i == 0 { assert false; } else {
      RunSafe(states, events, i - 1, Timer);
      assert Steps(states[i - 1], events[i - 1], states[i]);
      var k, e := states[i - 1], events[i - 1];
      StepHistory(k, e);
      if ExitCodeOf(k, e).Some? && k.tasks[k.cur].uid == u { j := i - 1; }
      else { j := ExitsHappened(states, events, i - 1, u); }
    }
  }

  /** The spawn/exit handshake: when a waiting task_spawn_user goes on and is not killed, the value it returns is the
      code with which the very child it waited for exited, earlier in the run. */
  lemma WaitReturnsExitCode(states: seq<Kernel>, events: seq<Event>, i: nat) returns (j: nat)
    requires IsRun(states, events) && Booted(states[0]) && i < |states|
    requires var k := states[i]; k.cur in k.tasks && k.tasks[k.cur].pc.InSpawn?
    ensures j < i && j < |events| && Enabled(states[j], events[j])
    ensures var x := states[i].tasks[states[i].cur];
      states[j].tasks[states[j].cur].uid == x.pc.uid && ExitCodeOf(states[j], events[j]) == Some(x.exitCode)
  {
    hide Step;
    RunSafe(states, events, i, Timer);
    var k := states[i];
    assert TaskOk(k, k.cur);
    j := ExitsHappened(states, events, i, k.tasks[k.cur].pc.uid);
  }

  /** A task that has exited is never current again. */
  lemma {:induction false} ExitedNeverRuns(states: seq<Kernel>, events: seq<Event>, i: nat, j: nat, u: nat)
    requires IsRun(states, events) && Booted(states[0]) && i <= j < |states| && u in states[i].exits
    ensures u in states[j].exits && states[j].cur in states[j].tasks && states[j].tasks[states[j].cur].uid != u
    decreases j
  {
    hide Step;
    RunSafe(states, events, j, Timer);
    assert TaskOk(states[j], states[j].cur);
    if i < j {
      ExitedNeverRuns(states, events, i, j - 1, u);
      RunSafe(states, events, j - 1, Timer);
      assert Steps(states[j - 1], events[j - 1], states[j]);
      StepHistory(states[j - 1], events[j - 1]);
    }
  }
}
