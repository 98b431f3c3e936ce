/**
 The parts together: the scheduler's tasks, the files, the ttys and the pages of one kernel. Every event is handled by
 the parts it concerns; the theorems say that they never disagree about which tasks there are, what a tty has ready,
 and who has been freed.
 */
module WholeKernel {
  import opened Common
  import opened TaskMemory
  import opened Elf
  import opened Spawn
  import Sched
  import Runs
  import Fairness
  import Files
  import Tty
  import Args
  import PageRuns

  /** The tasks, the files, and the bytes typed on each tty since it was last read. */
  datatype Machine = Machine(k: Sched.Kernel, f: Files.State, typed: map<nat, seq<nat>>)

  function TypedAt(m: Machine, tty: nat): seq<nat> { if tty in m.typed then m.typed[tty] else [] }

  // ---- Events --------------------------------------------------------------------------------------

  /** What a spawn names: nothing, a directory or device, or a regular file. */
  datatype Exe = Missing | Special | Image(program: Program)

  /** Run is an event that concerns the scheduler and the ttys only. */
  datatype Event =
    | Run(x: Sched.Event)
    | Key(tty: nat, byte: nat, redraw: bool)
    | Open(path: Files.Path)
    | Close(fd: nat)
    | SpawnTask(exe: Exe, args: seq<Args.Arg>, mode: Sched.SpawnMode)

  /** How the spawn fares for the files. */
  function LoadOf(exe: Exe, args: seq<Args.Arg>): Files.Load {
    match exe
    case Missing => Files.NotFound
    case Special => Files.NotRegular
    case Image(program) =>
      if !program.headerOk then Files.BadElf else if !ArgsOk(args) then Files.BadArgs else Files.Loaded
  }

  /** A spawn fares for the files as it does for the pages. */
  lemma LoadMeans(exe: Exe, args: seq<Args.Arg>)
    ensures LoadOf(exe, args) == Files.NotFound <==> exe.Missing?
    ensures LoadOf(exe, args) == Files.NotRegular <==> exe.Special?
    ensures LoadOf(exe, args) == Files.BadElf <==> exe.Image? && !exe.program.headerOk
    ensures LoadOf(exe, args) == Files.BadArgs <==>
      exe.Image? && exe.program.headerOk && exists i | 0 <= i < |args| :: args[i].None?
    ensures LoadOf(exe, args) == Files.Loaded <==>
      exe.Image? && PageRuns.Succeeds(PageRuns.SpawnEvent(Some(exe.program), args))
  {}

  /** tty_new_data: what the byte is for the scheduler. */
  function KeyEvent(tty: nat, byte: nat, redraw: bool): Sched.Event {
    if Tty.Norm(byte) == Tty.LF then Sched.LineEnd(tty, redraw)
    else if byte == Tty.INTR then Sched.InterruptKey(tty)
    else Sched.OtherByte(redraw)
  }

  /** Carriage return (13) and line feed (10) end a line, control-C (3) interrupts, and every other byte only echoes. */
  lemma KeyMeans(tty: nat, byte: nat, redraw: bool)
    ensures KeyEvent(tty, byte, redraw) ==
      if byte == 13 || byte == 10 then Sched.LineEnd(tty, redraw)
      else if byte == 3 then Sched.InterruptKey(tty)
      else Sched.OtherByte(redraw)
  {}

  /** The slot that create_empty_task takes. */
  function NextSlot(m: Machine): nat { FirstFree(m.k.tasks.Keys, 0) }

  function SchedEvent(m: Machine, e: Event): Option<Sched.Event> {
    match e
    case Run(x) => Some(x)
    case Key(tty, byte, redraw) => Some(KeyEvent(tty, byte, redraw))
    case SpawnTask(exe, args, mode) =>
      Some(if LoadOf(exe, args) == Files.Loaded then Sched.SpawnEvent(NextSlot(m), mode) else Sched.SpawnFails)
    case _ => None
  }

  function FileEvent(m: Machine, e: Event): Option<Files.Event> {
    match e
    case Open(path) => Some(Files.OpenEvent(m.k.cur, path))
    case Close(fd) => Some(Files.CloseEvent(m.k.cur, fd))
    case SpawnTask(exe, args, _) => Some(Files.SpawnEvent(m.k.cur, NextSlot(m), LoadOf(exe, args)))
    case _ => None
  }

  /** System calls are made by the current task, outside the kernel, if it is one that makes them. */
  predicate Enabled(m: Machine, e: Event) {
    match e
    case Run(x) =>
      && Sched.Enabled(m.k, x)
      && !x.SpawnEvent? && !x.SpawnFails? && !x.LineEnd? && !x.InterruptKey? && !x.OtherByte?
    case Key(tty, byte, redraw) => Sched.Enabled(m.k, KeyEvent(tty, byte, redraw))
    case Open(path) =>
      Sched.Enabled(m.k, Sched.SpawnFails) && m.k.cur in m.f.users
      && (path.Device? ==> Files.CanDup(m.f.tab, Some(path.slot)))
    case _ => Sched.Enabled(m.k, Sched.SpawnFails) && m.k.cur in m.f.users
  }

  // ---- Steps ---------------------------------------------------------------------------------------

  function Filter(ring: seq<nat>, dead: set<nat>): (r: seq<nat>)
    ensures forall t :: t in r <==> t in ring && t in dead
  {
    if |ring| == 0 then []
    else (if ring[0] in dead then [ring[0]] else []) + Filter(ring[1..], dead)
  }

  /** The tasks that reap_zombies frees in this event, in its order. */
  function Reaped(m: Machine, e: Event): seq<nat> {
    var x := SchedEvent(m, e);
    if x.Some? && Sched.Enabled(m.k, x.value) && Fairness.CallsScheduler(m.k, x.value) then
      var k := Fairness.Before(m.k, x.value); Filter(k.ring, Sched.Dead(k))
    else []
  }

  /** free_task's file part, for each of them. */
  function ExitAll(f: Files.State, ts: seq<nat>): Files.Result
    decreases |ts|
  {
    if |ts| == 0 then Files.Ok(f)
    else if ts[0] !in f.fds then Files.Panic
    else
      var r := Files.Exit(f, ts[0]);
      if r.Panic? then r else ExitAll(r.s, ts[1..])
  }

  /** The tty from which this event takes a line. */
  function TakenFrom(k: Sched.Kernel, x: Sched.Event): Option<nat> {
    if x.Read? && Sched.DataReady(k, x.tty) then Some(x.tty)
    else if x.Resume? && k.cur in k.tasks && k.tasks[k.cur].pc.InRead? && !k.tasks[k.cur].pending
            && Sched.DataReady(k, k.tasks[k.cur].pc.tty) then Some(k.tasks[k.cur].pc.tty)
    else None
  }

  function TypedAfter(m: Machine, e: Event): map<nat, seq<nat>> {
    match e
    case Key(tty, byte, _) => m.typed[tty := TypedAt(m, tty) + [byte]]
    case Run(x) => var t := TakenFrom(m.k, x); if t.Some? then m.typed[t.value := []] else m.typed
    case _ => m.typed
  }

  function FileStep(m: Machine, e: Event): Files.Result {
    var x := FileEvent(m, e);
    if x.None? then Files.Ok(m.f)
    else if !Files.Enabled(m.f, x.value) then Files.Panic
    else Files.Step(m.f, x.value)
  }

  function SchedStep(m: Machine, e: Event): Sched.Result {
    var x := SchedEvent(m, e);
    if x.None? then Sched.Ok(m.k)
    else if !Sched.Enabled(m.k, x.value) then Sched.Panic
    else Sched.Step(m.k, x.value)
  }

  /** The spawn needs a slot of the task pool, and there is none. */
  predicate NoSlotLeft(m: Machine, e: Event) { e.SpawnTask? && !e.exe.Missing? && NextSlot(m) == MAX_TASKS }

  /** One event in all parts; None where any of them fails an assertion or panics. */
  function Step(m: Machine, e: Event): Option<Machine> {
    if e.SpawnTask? && e.exe.Missing? then Some(m)
    else if NoSlotLeft(m, e) then None
    else
      var f, k := FileStep(m, e), SchedStep(m, e);
      if f.Panic? || k.Panic? then None
      else
        var f' := ExitAll(f.s, Reaped(m, e));
        if f'.Panic? then None else Some(Machine(k.k, f'.s, TypedAfter(m, e)))
  }

  /** Where the kernel gives up by design: no slot left in the task pool or in the file table, or something else than a
      regular file is to be run. */
  predicate GivesUp(m: Machine, e: Event) {
    match e
    case Open(path) => Files.GivesUp(m.f, Files.OpenEvent(m.k.cur, path))
    case SpawnTask(exe, args, _) =>
      NoSlotLeft(m, e) || Files.GivesUp(m.f, Files.SpawnEvent(m.k.cur, NextSlot(m), LoadOf(exe, args)))
    case _ => false
  }

  // ---- The joint invariant -------------------------------------------------------------------------

  /** A task's stdin is its fd 0. */
  ghost predicate StdinOk(m: Machine, t: nat)
    requires t in m.k.tasks && t in m.f.fds && |m.f.fds[t]| == Files.NUM_FDS
  { m.k.tasks[t].stdin == m.f.fds[t][0] }

  ghost predicate TtyOk(m: Machine, tty: nat) { Sched.DataReady(m.k, tty) <==> Tty.HasLine(TypedAt(m, tty)) }

  /** The parts agree. */
  ghost predicate Joined(m: Machine) {
    && Sched.Inv(m.k) && Files.Inv(m.f)
    && m.f.fds.Keys == m.k.tasks.Keys && m.f.users <= m.f.fds.Keys
    && (forall t | t in m.k.tasks :: |m.f.fds[t]| == Files.NUM_FDS && StdinOk(m, t))
    && forall tty: nat :: TtyOk(m, tty)
  }

  // ---- What an event does to the scheduler's tasks ---------------------------------------------------

  function NewSlot(x: Sched.Event): set<nat> { if x.SpawnEvent? then {x.slot} else {} }

  function ReadyAfter(k: Sched.Kernel, x: Sched.Event): map<nat, bool> {
    var t := TakenFrom(k, x);
    if x.LineEnd? then k.ready[x.tty := true] else if t.Some? then k.ready[t.value := false] else k.ready
  }

  /** The same tasks, with the same stdin. */
  ghost predicate SameTasks(k: Sched.Kernel, m: Sched.Kernel) {
    && m.tasks.Keys == k.tasks.Keys && m.cur == k.cur && m.idle == k.idle
    && forall t | t in k.tasks :: m.tasks[t].stdin == k.tasks[t].stdin
  }

  lemma ExitedFacts(k: Sched.Kernel, code: nat)
    requires k.cur in k.tasks
    ensures SameTasks(k, Sched.Exited(k, code)) && Sched.Exited(k, code).ready == k.ready
  {
    hide Sched.Notify;
    NotifyFacts(k, code);
  }

  lemma NotifyFacts(k: Sched.Kernel, code: nat)
    requires k.cur in k.tasks
    ensures SameTasks(k, Sched.Notify(k, k.cur, code))
    ensures Sched.Notify(k, k.cur, code).ready == k.ready && Sched.Notify(k, k.cur, code).ring == k.ring
  {}

  /** An interrupt before run_scheduler_if_idle. */
  lemma InterruptFacts(k: Sched.Kernel, tty: nat, redraw: bool)
    ensures SameTasks(k, Sched.Redraw(k, redraw)) && Sched.Redraw(k, redraw).ready == k.ready
    ensures SameTasks(k, Sched.EndLine(k, tty)) && Sched.EndLine(k, tty).ready == k.ready[tty := true]
    ensures SameTasks(k, Sched.Interrupt(k, tty)) && Sched.Interrupt(k, tty).ready == k.ready
  {}

  lemma ChangedFacts(k: Sched.Kernel, m: Sched.Kernel, x: Sched.Task)
    requires SameTasks(k, m) && m.cur in m.tasks && x.stdin == m.tasks[m.cur].stdin
    ensures SameTasks(k, Sched.SetTask(m, m.cur, x))
  {}

  lemma ForkedFacts(k: Sched.Kernel, slot: nat, parent: Sched.Task)
    requires k.cur in k.tasks && slot !in k.tasks && parent.stdin == k.tasks[k.cur].stdin
    ensures var m := Sched.Forked(k, slot, parent);
      && m.tasks.Keys == k.tasks.Keys + {slot} && m.cur == k.cur && m.ready == k.ready
      && (forall t | t in k.tasks :: m.tasks[t].stdin == k.tasks[t].stdin)
      && m.tasks[slot].stdin == k.tasks[k.cur].stdin && m.tasks[slot].state == Sched.Ready
  {}

  lemma YieldedFacts(k: Sched.Kernel, k1: Sched.Kernel)
    requires SameTasks(k, k1) && k.cur in k1.tasks
    ensures var m := Sched.SetTask(k1, k.cur, k1.tasks[k.cur].(pc := Sched.Yielded));
      SameTasks(k, m) && m.ready == k1.ready
  {}

  lemma SameTasksTrans(k: Sched.Kernel, k1: Sched.Kernel, k2: Sched.Kernel)
    requires SameTasks(k, k1) && SameTasks(k1, k2)
    ensures SameTasks(k, k2)
  {}

  lemma CurStays(k: Sched.Kernel, k1: Sched.Kernel)
    requires SameTasks(k, k1) && k.cur in k.tasks
    ensures k.cur in k1.tasks
  {}

  lemma BeforeInterrupt(k: Sched.Kernel, x: Sched.Event)
    requires Sched.Enabled(k, x) && (x.LineEnd? || x.InterruptKey? || x.OtherByte? || x.WakeDisplay?)
    ensures SameTasks(k, Fairness.Before(k, x))
    ensures Fairness.Before(k, x).ready == if x.LineEnd? then k.ready[x.tty := true] else k.ready
  {
    hide Sched.Redraw, Sched.EndLine, Sched.Interrupt, Sched.Wakeup, Sched.SetTask, SameTasks;
    var k1 := match x
      case LineEnd(tty, redraw) => Sched.EndLine(Sched.Redraw(k, redraw), tty)
      case InterruptKey(tty) => Sched.Interrupt(k, tty)
      case OtherByte(redraw) => Sched.Redraw(k, redraw)
      case _ => Sched.Wakeup(k, Sched.OnDisplay);
    match x {
      case LineEnd(tty, redraw) =>
        InterruptFacts(k, tty, redraw);
        InterruptFacts(Sched.Redraw(k, redraw), tty, redraw);
        SameTasksTrans(k, Sched.Redraw(k, redraw), k1);
      case InterruptKey(tty) => InterruptFacts(k, tty, false);
      case OtherByte(redraw) => InterruptFacts(k, 0, redraw);
      case _ => WakeFacts(k);
    }
    CurStays(k, k1);
    YieldedFacts(k, k1);
  }

  lemma WakeFacts(k: Sched.Kernel)
    ensures SameTasks(k, Sched.Wakeup(k, Sched.OnDisplay)) && Sched.Wakeup(k, Sched.OnDisplay).ready == k.ready
  {}

  lemma BeforeCall(k: Sched.Kernel, x: Sched.Event)
    requires Sched.Enabled(k, x) && !x.SpawnEvent?
    requires !x.LineEnd? && !x.InterruptKey? && !x.OtherByte? && !x.WakeDisplay?
    ensures SameTasks(k, Fairness.Before(k, x)) && Fairness.Before(k, x).ready == k.ready
  {
    hide Sched.Exited;
    ExitedFacts(k, if x.ExitEvent? then x.code else 0);
  }

  lemma BeforeSpawn(k: Sched.Kernel, x: Sched.Event)
    requires Sched.Enabled(k, x) && x.SpawnEvent?
    ensures var m := Fairness.Before(k, x);
      && m.tasks.Keys == k.tasks.Keys + {x.slot} && m.ready == k.ready
      && (forall t | t in k.tasks :: m.tasks[t].stdin == k.tasks[t].stdin)
      && m.tasks[x.slot].stdin == k.tasks[k.cur].stdin && m.tasks[x.slot].state == Sched.Ready
  {
    hide Sched.Forked;
    ForkedFacts(k, x.slot, if x.mode == Sched.Wait then Sched.WaitingParent(k, x.slot)
                           else k.tasks[k.cur].(pc := Sched.Yielded));
  }

  /** Up to the call of scheduler(): the tasks, their stdin, and what the ttys have ready. */
  lemma BeforeFacts(k: Sched.Kernel, x: Sched.Event)
    requires Sched.Enabled(k, x)
    ensures var m := Fairness.Before(k, x);
      && m.tasks.Keys == k.tasks.Keys + NewSlot(x) && m.cur == k.cur
      && (forall t | t in k.tasks :: m.tasks[t].stdin == k.tasks[t].stdin)
      && (x.SpawnEvent? ==> m.tasks[x.slot].stdin == k.tasks[k.cur].stdin && m.tasks[x.slot].state == Sched.Ready)
      && m.ready == (if x.LineEnd? then k.ready[x.tty := true] else k.ready)
      && m.ring == if x.SpawnEvent? then [x.slot] + k.ring else k.ring
  {
    Fairness.BeforeRing(k, x);
    if x.SpawnEvent? { BeforeSpawn(k, x); }
    else if x.LineEnd? || x.InterruptKey? || x.OtherByte? || x.WakeDisplay? { BeforeInterrupt(k, x); }
    else { BeforeCall(k, x); }
    hide Fairness.Before;
  }

  /** scheduler() leaves the living as they are. */
  lemma ScheduleFacts(k: Sched.Kernel)
    requires Sched.Schedule(k).Ok?
    ensures var k' := Sched.Schedule(k).k;
      && k'.tasks.Keys == k.tasks.Keys - Sched.Dead(k) && k'.ready == k.ready
      && forall t | t in k'.tasks :: k'.tasks[t].stdin == k.tasks[t].stdin
  { hide Sched.Without, Sched.Pick; }

  /** A step that does not call scheduler(). */
  lemma QuietFacts(k: Sched.Kernel, x: Sched.Event)
    requires Sched.Enabled(k, x) && !Fairness.CallsScheduler(k, x) && Sched.Step(k, x).Ok?
    ensures var k' := Sched.Step(k, x).k;
      && k'.tasks.Keys == k.tasks.Keys && k'.ready == ReadyAfter(k, x)
      && forall t | t in k.tasks :: k'.tasks[t].stdin == k.tasks[t].stdin
  {
    hide Sched.Schedule, Sched.Redraw, Sched.EndLine, Sched.Interrupt, Sched.Wakeup;
    if x.LineEnd? || x.InterruptKey? || x.OtherByte? || x.WakeDisplay? { QuietInterrupt(k, x); }
  }

  lemma QuietInterrupt(k: Sched.Kernel, x: Sched.Event)
    requires Sched.Enabled(k, x) && (x.LineEnd? || x.InterruptKey? || x.OtherByte? || x.WakeDisplay?)
    requires !Fairness.CallsScheduler(k, x)
    ensures var r := Sched.Step(k, x);
      && r.Ok? && SameTasks(k, r.k) && r.k.ready == if x.LineEnd? then k.ready[x.tty := true] else k.ready
  {
    hide Sched.Redraw, Sched.EndLine, Sched.Interrupt, Sched.Wakeup, SameTasks, Sched.Schedule;
    match x {
      case LineEnd(tty, redraw) =>
        InterruptFacts(k, tty, redraw);
        InterruptFacts(Sched.Redraw(k, redraw), tty, redraw);
        SameTasksTrans(k, Sched.Redraw(k, redraw), Sched.EndLine(Sched.Redraw(k, redraw), tty));
        CurStays(k, Sched.EndLine(Sched.Redraw(k, redraw), tty));
        SameCur(k, Sched.EndLine(Sched.Redraw(k, redraw), tty));
      case InterruptKey(tty) => InterruptFacts(k, tty, false); SameCur(k, Sched.Interrupt(k, tty));
      case OtherByte(redraw) => InterruptFacts(k, 0, redraw); SameCur(k, Sched.Redraw(k, redraw));
      case WakeDisplay => WakeFacts(k); SameCur(k, Sched.Wakeup(k, Sched.OnDisplay));
    }
  }

  lemma SameCur(k: Sched.Kernel, k1: Sched.Kernel)
    requires SameTasks(k, k1)
    ensures k1.cur == k.cur && k1.idle == k.idle
  {}

  /** The dead of an event. */
  ghost function DeadAt(k: Sched.Kernel, x: Sched.Event): set<nat>
    requires Sched.Enabled(k, x)
  { if Fairness.CallsScheduler(k, x) then Sched.Dead(Fairness.Before(k, x)) else {} }

  lemma StepFacts(k: Sched.Kernel, x: Sched.Event)
    requires Sched.Enabled(k, x) && Sched.Step(k, x).Ok?
    ensures var k' := Sched.Step(k, x).k;
      && k'.tasks.Keys == k.tasks.Keys + NewSlot(x) - DeadAt(k, x) && k'.ready == ReadyAfter(k, x)
      && (forall t | t in k.tasks && t in k'.tasks :: k'.tasks[t].stdin == k.tasks[t].stdin)
      && (x.SpawnEvent? ==> x.slot in k'.tasks && k'.tasks[x.slot].stdin == k.tasks[k.cur].stdin)
    ensures DeadAt(k, x) <= k.tasks.Keys && k.cur !in DeadAt(k, x)
  {
    hide Sched.Step, Fairness.Before, Sched.Schedule;
    if Fairness.CallsScheduler(k, x) {
      BeforeFacts(k, x);
      Fairness.StepIsSchedule(k, x);
      ScheduleFacts(Fairness.Before(k, x));
      TakesNothing(k, x);
    } else {
      QuietFacts(k, x);
      NoSpawnQuiet(k, x);
    }
  }

  lemma TakesNothing(k: Sched.Kernel, x: Sched.Event)
    requires Sched.Enabled(k, x) && Fairness.CallsScheduler(k, x)
    ensures TakenFrom(k, x).None?
  {}

  lemma NoSpawnQuiet(k: Sched.Kernel, x: Sched.Event)
    requires Sched.Enabled(k, x) && !Fairness.CallsScheduler(k, x)
    ensures !x.SpawnEvent?
  {}

  // ---- Reaping ---------------------------------------------------------------------------------------

  predicate Distinct(ts: seq<nat>) { forall i, j | 0 <= i < j < |ts| :: ts[i] != ts[j] }

  lemma {:induction false} FilterDistinct(ring: seq<nat>, dead: set<nat>)
    requires Sched.NoDups(ring)
    ensures Distinct(Filter(ring, dead))
  {
    if |ring| > 0 {
      Sched.TailNoDups(ring);
      FilterDistinct(ring[1..], dead);
      var rest := Filter(ring[1..], dead);
      forall j | 0 <= j < |rest| ensures rest[j] != ring[0] { assert rest[j] in rest; }
    }
  }

  /** The dead, each once: exactly those that leave the scheduler's tasks. */
  lemma ReapedFacts(m: Machine, e: Event)
    requires Sched.Inv(m.k) && SchedEvent(m, e).Some? && Sched.Enabled(m.k, SchedEvent(m, e).value)
    ensures Distinct(Reaped(m, e))
    ensures forall t :: t in Reaped(m, e) <==> t in DeadAt(m.k, SchedEvent(m, e).value)
  {
    var x := SchedEvent(m, e).value;
    if Fairness.CallsScheduler(m.k, x) {
      BeforeFacts(m.k, x);
      assert Sched.NoDups(m.k.ring) && forall t :: t in m.k.ring <==> t in m.k.tasks;
      if x.SpawnEvent? { Sched.ConsNoDups(m.k.ring, x.slot); }
      FilterDistinct(Fairness.Before(m.k, x).ring, DeadAt(m.k, x));
    }
  }

  /** The file part of freeing tasks: their fds go, and nobody else's. */
  lemma {:induction false} ExitAllKeeps(f: Files.State, ts: seq<nat>)
    requires Files.Inv(f) && Distinct(ts) && forall t | t in ts :: t in f.fds
    ensures ExitAll(f, ts).Ok? && Files.Inv(ExitAll(f, ts).s)
    ensures var f' := ExitAll(f, ts).s;
      && (forall t :: t in f'.fds <==> t in f.fds && t !in ts)
      && (forall t | t in f'.fds :: f'.fds[t] == f.fds[t])
      && (forall t :: t in f'.users <==> t in f.users && t !in ts)
    decreases |ts|
  {
    hide Files.Inv, Files.CloseFds;
    if |ts| > 0 {
      Files.ExitKeeps(f, ts[0]);
      var f1, rest := Files.Exit(f, ts[0]).s, ts[1..];
      assert forall i | 0 <= i < |rest| :: rest[i] == ts[i + 1];
      forall t | t in rest ensures t in f1.fds {}
      ExitAllKeeps(f1, rest);
      assert forall t :: t in ts <==> t == ts[0] || t in rest;
    }
  }

  // ---- What an event does to the files before the reaping ----------------------------------------------

  lemma SpawnEnabled(m: Machine, e: Event)
    requires Joined(m) && Enabled(m, e) && e.SpawnTask? && !NoSlotLeft(m, e) && !e.exe.Missing?
    ensures Files.Enabled(m.f, FileEvent(m, e).value) && Sched.Enabled(m.k, SchedEvent(m, e).value)
    ensures NextSlot(m) !in m.k.tasks
  { hide Sched.Inv, Files.Inv; }

  /** Opening and closing change no task's fd 0. */
  lemma CallFds(f: Files.State, x: Files.Event)
    requires Files.Enabled(f, x) && (x.OpenEvent? || x.CloseEvent?) && Files.Step(f, x).Ok?
    requires (forall t | t in f.fds :: |f.fds[t]| == Files.NUM_FDS) && x.t in f.fds && f.fds[x.t][0].Some?
    ensures var f' := Files.Step(f, x).s;
      && f'.fds.Keys == f.fds.Keys && f'.users == f.users
      && forall t | t in f.fds :: |f'.fds[t]| == Files.NUM_FDS && f'.fds[t][0] == f.fds[t][0]
  { hide Files.CloseSlot, Files.FreeSlot; }

  lemma UserFds(m: Machine)
    requires Joined(m) && m.k.cur in m.f.users
    ensures (forall t | t in m.f.fds :: |m.f.fds[t]| == Files.NUM_FDS)
    ensures m.k.cur in m.f.fds && m.f.fds[m.k.cur][0].Some?
  { assert Files.StdioFd(m.f, m.k.cur, 0); }

  lemma FdsOfStep(m: Machine, e: Event)
    requires Joined(m) && Enabled(m, e) && (e.Open? || e.Close?)
    ensures FileStep(m, e).Panic? <==> GivesUp(m, e)
    ensures FileStep(m, e).Ok? ==>
      var f := FileStep(m, e).s;
      && Files.Inv(f) && f.fds.Keys == m.f.fds.Keys && f.users == m.f.users
      && forall t | t in f.fds :: |f.fds[t]| == Files.NUM_FDS && f.fds[t][0] == m.f.fds[t][0]
  {
    UserFds(m);
    hide Files.Inv, Sched.Inv, Files.Step, TtyOk, StdinOk;
    Files.StepKeeps(m.f, FileEvent(m, e).value);
    if FileStep(m, e).Ok? { CallFds(m.f, FileEvent(m, e).value); }
  }

  lemma SpawnFds(f: Files.State, p: nat, c: nat, load: Files.Load)
    requires p in f.fds && |f.fds[p]| == Files.NUM_FDS && c !in f.fds
    requires Files.Spawn(f, p, c, load).Ok? && (load == Files.BadArgs ==> Files.Spawn(f, p, c, load).s == f)
    ensures var f', added := Files.Spawn(f, p, c, load).s, if load == Files.Loaded then {c} else {};
      && f'.fds.Keys == f.fds.Keys + added && f'.users == f.users + added
      && (forall t | t in f.fds :: f'.fds[t] == f.fds[t])
      && forall t | t in added :: |f'.fds[t]| == Files.NUM_FDS && f'.fds[t][0] == f.fds[p][0]
  { hide Files.Exit, Files.FreeSlot; }

  lemma FdsOfSpawn(m: Machine, e: Event)
    requires Joined(m) && Enabled(m, e) && e.SpawnTask? && !NoSlotLeft(m, e) && !e.exe.Missing?
    ensures FileStep(m, e).Panic? <==> GivesUp(m, e)
    ensures FileStep(m, e).Ok? ==>
      var f, added := FileStep(m, e).s, if LoadOf(e.exe, e.args) == Files.Loaded then {NextSlot(m)} else {};
      && Files.Inv(f) && f.fds.Keys == m.f.fds.Keys + added && f.users == m.f.users + added
      && (forall t | t in m.f.fds :: f.fds[t] == m.f.fds[t])
      && forall t | t in added :: |f.fds[t]| == Files.NUM_FDS && f.fds[t][0] == m.f.fds[m.k.cur][0]
  {
    var c, load := NextSlot(m), LoadOf(e.exe, e.args);
    UserFds(m);
    SpawnEnabled(m, e);
    hide Files.Inv, Sched.Inv, Files.Spawn, TtyOk, StdinOk, NextSlot, LoadOf;
    Files.StepKeeps(m.f, FileEvent(m, e).value);
    Files.SpawnKeeps(m.f, m.k.cur, c, load);
    if FileStep(m, e).Ok? { SpawnFds(m.f, m.k.cur, c, load); }
  }

  // ---- Every event -----------------------------------------------------------------------------------

  /** Before the reaping: the file part and the scheduler part succeed unless the kernel gives up, and agree. */
  lemma PartsAgree(m: Machine, e: Event)
    requires Joined(m) && Enabled(m, e) && !NoSlotLeft(m, e) && !(e.SpawnTask? && e.exe.Missing?)
    ensures FileStep(m, e).Panic? <==> GivesUp(m, e)
    ensures SchedEvent(m, e).Some? ==> Sched.Enabled(m.k, SchedEvent(m, e).value)
    ensures FileStep(m, e).Ok? ==>
      var f, added := FileStep(m, e).s, Added(m, e);
      && Files.Inv(f) && f.fds.Keys == m.f.fds.Keys + added && f.users <= m.f.users + added
      && (forall t | t in m.f.fds :: |f.fds[t]| == Files.NUM_FDS && f.fds[t][0] == m.f.fds[t][0])
      && (forall t | t in added :: |f.fds[t]| == Files.NUM_FDS && f.fds[t][0] == m.f.fds[m.k.cur][0])
  {
    hide Sched.Inv, Files.Inv, Files.Step;
    match e
    case Open(_) => FdsOfStep(m, e);
    case Close(_) => FdsOfStep(m, e);
    case SpawnTask(_, _, _) => SpawnEnabled(m, e); FdsOfSpawn(m, e);
    case _ =>
  }

  /** After the event the ttys have ready what was typed. */
  lemma TtysAgree(m: Machine, e: Event, k': Sched.Kernel, tty: nat)
    requires TtyOk(m, tty) && Enabled(m, e)
    requires k'.ready == if SchedEvent(m, e).Some? then ReadyAfter(m.k, SchedEvent(m, e).value) else m.k.ready
    ensures forall f :: TtyOk(Machine(k', f, TypedAfter(m, e)), tty)
  {
    hide Tty.HasLine;
    NothingTyped();
    if e.Key? { Tty.Typed(TypedAt(m, e.tty), e.byte); }
  }

  lemma NothingTyped()
    ensures !Tty.HasLine([])
  {}

  /** No event stops the kernel unless it gives up by design, and the parts agree again. In particular the tasks that
      the scheduler reaps are those whose files are freed, no fd of theirs is closed twice, and a line is ready on a tty
      exactly when one was typed and not yet read. */
  lemma StepKeeps(m: Machine, e: Event)
    requires Joined(m) && Enabled(m, e)
    ensures Step(m, e).None? <==> GivesUp(m, e)
    ensures Step(m, e).Some? ==> Joined(Step(m, e).value)
  {
    hide Sched.Inv, Files.Inv, FileStep, Sched.Step, Files.Step, Reaped;
    if e.SpawnTask? && e.exe.Missing? {
      MissingIsFine(m, e);
    } else if !NoSlotLeft(m, e) {
      PartsAgree(m, e);
      if FileStep(m, e).Ok? { StepJoins(m, e); }
    }
  }

  lemma MissingIsFine(m: Machine, e: Event)
    requires e.SpawnTask? && e.exe.Missing?
    ensures !GivesUp(m, e)
  {}

  /** The parts agree again, once the dead have left them. */
  lemma JoinUp(m: Machine, f: Files.State, m': Machine, added: set<nat>, dead: set<nat>)
    requires Joined(m) && m.k.cur in m.k.tasks && StdinOk(m, m.k.cur)
    requires Sched.Inv(m'.k) && Files.Inv(m'.f) && forall tty: nat :: TtyOk(m', tty)
    requires f.fds.Keys == m.f.fds.Keys + added && f.users <= m.f.users + added
    requires forall t | t in m.f.fds :: |f.fds[t]| == Files.NUM_FDS && f.fds[t][0] == m.f.fds[t][0]
    requires forall t | t in added :: |f.fds[t]| == Files.NUM_FDS && f.fds[t][0] == m.f.fds[m.k.cur][0]
    requires forall t :: t in m'.f.fds <==> t in f.fds && t !in dead
    requires forall t | t in m'.f.fds :: m'.f.fds[t] == f.fds[t]
    requires forall t :: t in m'.f.users <==> t in f.users && t !in dead
    requires m'.k.tasks.Keys == m.k.tasks.Keys + added - dead
    requires forall t | t in m.k.tasks && t in m'.k.tasks :: m'.k.tasks[t].stdin == m.k.tasks[t].stdin
    requires forall t | t in added && t !in dead :: t in m'.k.tasks && m'.k.tasks[t].stdin == m.k.tasks[m.k.cur].stdin
    requires added !! m.k.tasks.Keys
    ensures Joined(m')
  {
    hide Sched.Inv, Files.Inv, TtyOk;
    forall t | t in m'.k.tasks ensures t in m'.f.fds && |m'.f.fds[t]| == Files.NUM_FDS && StdinOk(m', t) {
      if t in m.k.tasks { assert StdinOk(m, t); }
    }
  }

  function Added(m: Machine, e: Event): set<nat> {
    var x := SchedEvent(m, e); if x.Some? then NewSlot(x.value) else {}
  }

  /** The scheduler's part of an event. */
  lemma SchedPart(m: Machine, e: Event)
    requires Joined(m) && (SchedEvent(m, e).Some? ==> Sched.Enabled(m.k, SchedEvent(m, e).value))
    ensures SchedStep(m, e).Ok?
    ensures var k' := SchedStep(m, e).k;
      && Sched.Inv(k') && k'.tasks.Keys == m.k.tasks.Keys + Added(m, e) - (set t | t in Reaped(m, e))
      && (forall t | t in m.k.tasks && t in k'.tasks :: k'.tasks[t].stdin == m.k.tasks[t].stdin)
      && (forall t | t in Added(m, e) :: t in k'.tasks && k'.tasks[t].stdin == m.k.tasks[m.k.cur].stdin)
      && k'.ready == (if SchedEvent(m, e).Some? then ReadyAfter(m.k, SchedEvent(m, e).value) else m.k.ready)
    ensures Distinct(Reaped(m, e)) && (forall t | t in Reaped(m, e) :: t in m.k.tasks) && Added(m, e) !! m.k.tasks.Keys
  {
    hide Sched.Inv, Sched.Step, Reaped, Fairness.CallsScheduler, Fairness.Before, Sched.Enabled, ReadyAfter, DeadAt,
        Files.Inv;
    var x := SchedEvent(m, e);
    CurTask(m);
    if x.Some? {
      Sched.StepKeeps(m.k, x.value);
      StepFacts(m.k, x.value);
      ReapedFacts(m, e);
      SlotIsNew(m.k, x.value);
    } else {
      NoneReaped(m, e);
    }
  }

  lemma StepIs(m: Machine, e: Event)
    requires !NoSlotLeft(m, e) && !(e.SpawnTask? && e.exe.Missing?) && FileStep(m, e).Ok? && SchedStep(m, e).Ok?
    requires ExitAll(FileStep(m, e).s, Reaped(m, e)).Ok?
    ensures Step(m, e) ==
      Some(Machine(SchedStep(m, e).k, ExitAll(FileStep(m, e).s, Reaped(m, e)).s, TypedAfter(m, e)))
  { hide FileStep, SchedStep, Reaped, ExitAll, TypedAfter; }

  lemma StepJoins(m: Machine, e: Event)
    requires Joined(m) && Enabled(m, e) && !NoSlotLeft(m, e) && !(e.SpawnTask? && e.exe.Missing?) && FileStep(m, e).Ok?
    ensures Step(m, e).Some? && Joined(Step(m, e).value)
  {
    hide Sched.Inv, Files.Inv, FileStep, SchedStep, Reaped, TypedAfter, ReadyAfter, TtyOk, ExitAll, Enabled, Step,
        SchedEvent, NoSlotLeft, Sched.Enabled;
    PartsAgree(m, e);
    CurTask(m);
    SchedPart(m, e);
    var f, dead := FileStep(m, e).s, Reaped(m, e);
    ExitAllKeeps(f, dead);
    StepIs(m, e);
    var m' := Step(m, e).value;
    forall tty: nat ensures TtyOk(m', tty) {
      assert TtyOk(m, tty);
      TtysAgree(m, e, m'.k, tty);
    }
    JoinUp(m, f, m', Added(m, e), set t | t in dead);
  }

  lemma SlotIsNew(k: Sched.Kernel, x: Sched.Event)
    requires Sched.Enabled(k, x)
    ensures NewSlot(x) !! k.tasks.Keys
  {}

  lemma CurTask(m: Machine)
    requires Joined(m)
    ensures m.k.cur in m.k.tasks && StdinOk(m, m.k.cur)
  { assert Sched.RingOk(m.k); }

  lemma NoneReaped(m: Machine, e: Event)
    requires SchedEvent(m, e).None?
    ensures Reaped(m, e) == []
  {}

  /** For a tty whose device has got the bytes typed, data_ready is what the scheduler's model says. */
  lemma DeviceReady(m: Machine, tty: nat, d: Tty.Device)
    requires Joined(m) && d.Valid() && d.since == TypedAt(m, tty)
    ensures d.dataReady <==> Sched.DataReady(m.k, tty)
  {
    hide Sched.Inv, Files.Inv;
    assert TtyOk(m, tty);
  }
}
