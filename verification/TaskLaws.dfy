/**
 What one step means for each task, and what follows for runs: who is woken, who is reaped, and who is killed by ctrl-C
 (src/kernel/sleep.c, task.c, scheduler.c).
 */
module TaskLaws {
  import opened Common
  import opened Sched
  import opened Runs
  import opened Fairness

  // ---- Tasks other than the current one, up to the call of scheduler() --------------------------------

  /** The current task exits in this step. */
  predicate Exits(k: Kernel, e: Event) {
    k.cur in k.tasks && (e.ExitEvent? || (e.Resume? && k.tasks[k.cur].pc != Fresh && k.tasks[k.cur].pending))
  }

  function CodeOf(e: Event): nat { if e.ExitEvent? then e.code else 0 }

  /** A task that is not current is changed by an event only if the event wakes it or marks it. */
  function Bystander(k: Kernel, e: Event, x: Task): Task {
    if Exits(k, e) && x.waiting == Some(k.cur) then
      x.(waiting := None, exitCode := CodeOf(e), state := Ready, reason := Awake)
    else match e
      case LineEnd(tty, redraw) => WakeTask(if redraw then WakeTask(x, OnDisplay) else x, OnTty(tty))
      case OtherByte(redraw) => if redraw then WakeTask(x, OnDisplay) else x
      case WakeDisplay => WakeTask(x, OnDisplay)
      case InterruptKey(tty) => if x.state == Ready && x.stdin == Some(tty) then x.(pending := true) else x
      case _ => x
  }

  /** What an event leaves of a task's identity. */
  predicate SameIdentity(x: Task, y: Task) { x.uid == y.uid && x.stdin == y.stdin && x.parent == y.parent }

  lemma BeforeExit(k: Kernel, e: Event, t: Tid)
    requires Inv(k) && Enabled(k, e) && Exits(k, e) && t in k.tasks
    ensures var m := Before(k, e);
      && m.tasks.Keys == k.tasks.Keys && m.nextUid == k.nextUid
      && (t != k.cur ==> m.tasks[t] == Bystander(k, e, k.tasks[t]))
      && (t == k.cur ==> SameIdentity(m.tasks[t], k.tasks[t]) && m.tasks[t].pending == k.tasks[t].pending)
  {
    hide Inv, Exited;
    NotIdle(k, e);
    ExitedTasks(k, CodeOf(e), t);
  }

  lemma NotIdle(k: Kernel, e: Event)
    requires Inv(k) && Enabled(k, e) && Exits(k, e)
    ensures k.cur != k.idle
  {}

  lemma BeforeKey(k: Kernel, e: Event, t: Tid)
    requires Enabled(k, e) && (e.LineEnd? || e.OtherByte? || e.WakeDisplay? || e.InterruptKey?) && t in k.tasks
    ensures var m := Before(k, e);
      && m.tasks.Keys == k.tasks.Keys && m.nextUid == k.nextUid
      && (t != k.cur ==> m.tasks[t] == Bystander(k, e, k.tasks[t]))
      && (t == k.cur ==> SameIdentity(m.tasks[t], k.tasks[t])
                         && m.tasks[t].pending == Bystander(k, e, k.tasks[t]).pending)
  {
    match e
    case LineEnd(_, _) =>
    case OtherByte(_) =>
    case WakeDisplay =>
    case InterruptKey(_) =>
  }

  lemma BeforeSpawn(k: Kernel, e: Event, t: Tid)
    requires Enabled(k, e) && e.SpawnEvent? && t in k.tasks
    ensures var m := Before(k, e);
      && m.tasks.Keys == k.tasks.Keys + {e.slot} && m.nextUid == k.nextUid + 1
      && (t != k.cur ==> m.tasks[t] == Bystander(k, e, k.tasks[t]))
      && (t == k.cur ==> SameIdentity(m.tasks[t], k.tasks[t]) && m.tasks[t].pending == k.tasks[t].pending)
      && m.tasks[e.slot].uid == k.nextUid && !m.tasks[e.slot].pending && m.tasks[e.slot].parent == Some(k.cur)
      && m.tasks[e.slot].stdin == k.tasks[k.cur].stdin && m.tasks[e.slot].state == Ready
  {}

  lemma BeforeOther(k: Kernel, e: Event, t: Tid)
    requires Enabled(k, e) && !Exits(k, e) && t in k.tasks && CallsScheduler(k, e)
    requires !e.LineEnd? && !e.OtherByte? && !e.WakeDisplay? && !e.InterruptKey? && !e.SpawnEvent?
    ensures var m := Before(k, e);
      && m.tasks.Keys == k.tasks.Keys && m.nextUid == k.nextUid
      && (t != k.cur ==> m.tasks[t] == Bystander(k, e, k.tasks[t]))
      && (t == k.cur ==> SameIdentity(m.tasks[t], k.tasks[t]) && m.tasks[t].pending == k.tasks[t].pending)
  { hide Exited; }

  /** The same for a step that does not call scheduler(). */
  lemma QuietTask(k: Kernel, e: Event, t: Tid)
    requires Inv(k) && Enabled(k, e) && !CallsScheduler(k, e) && t in k.tasks && Step(k, e).Ok?
    ensures var k' := Step(k, e).k;
      && k'.tasks.Keys == k.tasks.Keys && k'.nextUid == k.nextUid && k'.cur == k.cur
      && (t != k.cur ==> k'.tasks[t] == Bystander(k, e, k.tasks[t]))
      && (t == k.cur ==> SameIdentity(k'.tasks[t], k.tasks[t])
                         && k'.tasks[t].pending == Bystander(k, e, k.tasks[t]).pending)
  {
    hide Inv, Schedule;
    if e.LineEnd? || e.OtherByte? || e.WakeDisplay? || e.InterruptKey? { QuietKey(k, e, t); }
  }

  lemma QuietKey(k: Kernel, e: Event, t: Tid)
    requires Enabled(k, e) && (e.LineEnd? || e.OtherByte? || e.WakeDisplay? || e.InterruptKey?)
    requires !CallsScheduler(k, e) && t in k.tasks
    ensures Step(k, e).Ok? && var k' := Step(k, e).k;
      && k'.tasks.Keys == k.tasks.Keys && k'.nextUid == k.nextUid && k'.cur == k.cur
      && k'.tasks[t] == Bystander(k, e, k.tasks[t])
  {
    hide Schedule;
    match e
    case LineEnd(_, _) =>
    case OtherByte(_) =>
    case WakeDisplay =>
    case InterruptKey(_) =>
  }

  lemma BeforeTask(k: Kernel, e: Event, t: Tid)
    requires Inv(k) && Enabled(k, e) && CallsScheduler(k, e) && t in k.tasks
    ensures var m := Before(k, e);
      && m.cur == k.cur && t in m.tasks
      && m.tasks.Keys == k.tasks.Keys + (if e.SpawnEvent? then {e.slot} else {})
      && m.nextUid == k.nextUid + (if e.SpawnEvent? then 1 else 0)
      && (t != k.cur ==> m.tasks[t] == Bystander(k, e, k.tasks[t]))
      && (t == k.cur ==> SameIdentity(m.tasks[t], k.tasks[t])
                         && m.tasks[t].pending == Bystander(k, e, k.tasks[t]).pending)
  {
    hide Inv, Before, Enabled, CallsScheduler, Bystander, Exits;
    BeforeRing(k, e);
    if !e.InterruptKey? { NotMarked(k, e, t); }
    if Exits(k, e) { ExitsOnly(k, e); BeforeExit(k, e, t); }
    else if e.LineEnd? || e.OtherByte? || e.WakeDisplay? || e.InterruptKey? { BeforeKey(k, e, t); }
    else if e.SpawnEvent? { BeforeSpawn(k, e, t); }
    else { BeforeOther(k, e, t); }
  }

  lemma ExitsOnly(k: Kernel, e: Event)
    requires Exits(k, e)
    ensures e.ExitEvent? || e.Resume?
  {}

  lemma NotMarked(k: Kernel, e: Event, t: Tid)
    requires t in k.tasks && !e.InterruptKey?
    ensures Bystander(k, e, k.tasks[t]).pending == k.tasks[t].pending
  {}

  // ---- One step ----------------------------------------------------------------------------------------

  /** scheduler() frees the dead and clears the parents that were freed. */
  lemma AfterSchedule(m: Kernel)
    requires Schedule(m).Ok?
    ensures var k' := Schedule(m).k;
      && k'.tasks.Keys == m.tasks.Keys - Dead(m) && k'.nextUid == m.nextUid
      && forall t | t in k'.tasks :: k'.tasks[t] == Orphan(m.tasks[t], Dead(m))
  { hide Without, Pick; }

  /** The parent a task has after a step in which the tasks now gone were freed. */
  function ParentAfter(parent: Option<Tid>, k': Kernel): Option<Tid> {
    if parent.Some? && parent.value !in k'.tasks then None else parent
  }

  lemma BystanderZombie(k: Kernel, e: Event, t: Tid)
    requires Inv(k) && t in k.tasks
    ensures Bystander(k, e, k.tasks[t]).state == Zombie <==> k.tasks[t].state == Zombie
    ensures SameIdentity(Bystander(k, e, k.tasks[t]), k.tasks[t])
    ensures k.tasks[t].parent.Some? ==> k.tasks[t].parent.value in k.tasks
  { assert TaskOk(k, t); }

  /** A task other than the current one: it is freed exactly if it is a zombie when scheduler() is called; else it is
      changed as its event says, and loses its parent exactly if that is freed. */
  lemma StepTask(k: Kernel, e: Event, t: Tid)
    requires Inv(k) && Enabled(k, e) && Step(k, e).Ok? && t in k.tasks && t != k.cur
    ensures var k', b := Step(k, e).k, Bystander(k, e, k.tasks[t]);
      && (t in k'.tasks <==> !(CallsScheduler(k, e) && k.tasks[t].state == Zombie))
      && (t in k'.tasks ==> k'.tasks[t] == b.(parent := ParentAfter(k.tasks[t].parent, k')))
  {
    hide Inv, Step, Before, Schedule, Enabled, CallsScheduler, Bystander;
    BystanderZombie(k, e, t);
    var p := k.tasks[t].parent;
    if CallsScheduler(k, e) {
      StepIsSchedule(k, e);
      BeforeTask(k, e, t);
      AfterSchedule(Before(k, e));
    } else {
      QuietTask(k, e, t);
    }
  }

  /** The current task stays, and keeps its identity. */
  lemma StepCur(k: Kernel, e: Event)
    requires Inv(k) && Enabled(k, e) && Step(k, e).Ok?
    ensures k.cur in k.tasks && k.cur in Step(k, e).k.tasks
    ensures var k', x := Step(k, e).k, k.tasks[k.cur]; var y := k'.tasks[k.cur];
      && y.uid == x.uid && y.stdin == x.stdin && y.parent == ParentAfter(x.parent, k')
      && y.pending == Bystander(k, e, x).pending
  {
    hide Inv, Step, Before, Schedule, Enabled, CallsScheduler, Bystander;
    assert k.cur in k.tasks by { CurIsTask(k); }
    BystanderZombie(k, e, k.cur);
    if CallsScheduler(k, e) {
      StepIsSchedule(k, e);
      BeforeTask(k, e, k.cur);
      AfterSchedule(Before(k, e));
    } else {
      QuietTask(k, e, k.cur);
    }
  }

  lemma CurIsTask(k: Kernel)
    requires Inv(k)
    ensures k.cur in k.tasks
  {}

  /** A new task is the one spawned, and has a number of its own. */
  lemma StepNew(k: Kernel, e: Event, t: Tid)
    requires Inv(k) && Enabled(k, e) && Step(k, e).Ok? && t in Step(k, e).k.tasks
    ensures k.nextUid <= Step(k, e).k.nextUid
    ensures var x := Step(k, e).k.tasks[t];
      t !in k.tasks ==> e.SpawnEvent? && t == e.slot && x.uid == k.nextUid && !x.pending
                        && x.parent == Some(k.cur) && x.stdin == k.tasks[k.cur].stdin
  {
    hide Inv, Step, Before, Schedule, Enabled, Bystander, SameIdentity;
    StepCur(k, e);
    if CallsScheduler(k, e) {
      StepIsSchedule(k, e);
      BeforeTask(k, e, k.cur);
      AfterSchedule(Before(k, e));
      if e.SpawnEvent? { BeforeSpawn(k, e, k.cur); }
    } else {
      QuietTask(k, e, k.cur);
    }
  }

  // ---- Laws of one step --------------------------------------------------------------------------------

  /** After a call of scheduler() the only zombie left is the thread that called it; and nobody but zombies is freed. */
  lemma ZombiesAreReaped(k: Kernel, e: Event, t: Tid)
    requires Inv(k) && Enabled(k, e) && Step(k, e).Ok?
    ensures var k' := Step(k, e).k;
      && (CallsScheduler(k, e) && t in k'.tasks && k'.tasks[t].state == Zombie ==> t == k.cur)
      && (t in k.tasks && t !in k'.tasks ==> k.tasks[t].state == Zombie && t != k.cur)
  {
    hide Inv, Step, Enabled, CallsScheduler, Bystander;
    StepCur(k, e);
    if t in k.tasks && t != k.cur { StepTask(k, e, t); BystanderZombie(k, e, t); }
    else if t !in k.tasks && t in Step(k, e).k.tasks { NewIsReady(k, e, t); }
  }

  lemma NewIsReady(k: Kernel, e: Event, t: Tid)
    requires Inv(k) && Enabled(k, e) && Step(k, e).Ok? && t in Step(k, e).k.tasks && t !in k.tasks
    ensures Step(k, e).k.tasks[t].state == Ready
  {
    hide Inv, Step, Before, Schedule, Enabled, Bystander, SameIdentity;
    StepNew(k, e, t);
    StepCur(k, e);
    SpawnCalls(k, e);
    StepIsSchedule(k, e);
    AfterSchedule(Before(k, e));
    BeforeSpawn(k, e, k.cur);
  }

  lemma SpawnCalls(k: Kernel, e: Event)
    requires e.SpawnEvent? && k.cur in k.tasks
    ensures CallsScheduler(k, e)
  {}

  /** What wakes a sleeping thread: the end of a line on its tty, something new on the display, or the exit of the child
      it waits for. */
  predicate WakesUp(k: Kernel, e: Event, x: Task) {
    match x.reason
    case OnTty(tty) => e.LineEnd? && e.tty == tty
    case OnDisplay => e.WakeDisplay? || ((e.LineEnd? || e.OtherByte?) && e.redraw)
    case WaitChild(_) => Exits(k, e) && x.waiting == Some(k.cur)
    case Awake => false
  }

  /** A sleeping thread is woken by its own reason and by nothing else. */
  lemma WokenExactlyBy(k: Kernel, e: Event, t: Tid)
    requires Inv(k) && Enabled(k, e) && Step(k, e).Ok? && t in k.tasks && k.tasks[t].state == Sleeping
    ensures t in Step(k, e).k.tasks
    ensures Step(k, e).k.tasks[t].state == if WakesUp(k, e, k.tasks[t]) then Ready else Sleeping
  {
    assert t != k.cur && TaskOk(k, t);
    hide Inv, Step, Enabled, CallsScheduler, TaskOk;
    StepTask(k, e, t);
    WakesUpIs(k, e, k.tasks[t]);
  }

  lemma WakesUpIs(k: Kernel, e: Event, x: Task)
    requires x.state == Sleeping && (Exits(k, e) && x.waiting == Some(k.cur) ==> x.reason.WaitChild?)
    ensures Bystander(k, e, x).state == if WakesUp(k, e, x) then Ready else Sleeping
  {}

  /** Nobody but the current thread goes to sleep or exits. */
  lemma OthersStayUp(k: Kernel, e: Event, t: Tid)
    requires Inv(k) && Enabled(k, e) && Step(k, e).Ok? && t in k.tasks && t != k.cur && k.tasks[t].state == Ready
    ensures t in Step(k, e).k.tasks && Step(k, e).k.tasks[t].state == Ready
  {
    assert TaskOk(k, t);
    hide Inv, Step, Enabled, CallsScheduler;
    StepTask(k, e, t);
  }

  /** A living task keeps its stdin, and its parent for as long as that lives. */
  lemma FamilyStays(k: Kernel, e: Event, t: Tid)
    requires Inv(k) && Enabled(k, e) && Step(k, e).Ok? && t in k.tasks && t in Step(k, e).k.tasks
    ensures var k' := Step(k, e).k;
      && k'.tasks[t].uid == k.tasks[t].uid && k'.tasks[t].stdin == k.tasks[t].stdin
      && k'.tasks[t].parent == ParentAfter(k.tasks[t].parent, k')
  {
    hide Inv, Step, Enabled, CallsScheduler, Bystander;
    StepCur(k, e);
    BystanderZombie(k, e, t);
    if t != k.cur { StepTask(k, e, t); }
  }

  // ---- The current thread --------------------------------------------------------------------------------

  /** What the current thread falls asleep on in this step, if it does: a tty without data, the display, its child. */
  function SleepsOn(k: Kernel, e: Event): Reason
    requires k.cur in k.tasks
  {
    var x := k.tasks[k.cur];
    if Exits(k, e) then Awake
    else match e
      case Read(tty) => if DataReady(k, tty) then Awake else OnTty(tty)
      case Resume => if x.pc.InRead? && !DataReady(k, x.pc.tty) then OnTty(x.pc.tty) else Awake
      case RedrawDone => OnDisplay
      case SpawnEvent(_, mode) => if mode == Wait then WaitChild(k.cur) else Awake
      case _ => Awake
  }

  /** Who calls scheduler(): a timer interrupt always, a spawn, an exit, and whoever falls asleep. */
  lemma WhoSchedules(k: Kernel, e: Event)
    requires Inv(k) && Enabled(k, e)
    ensures e.Timer? || e.SpawnEvent? || Exits(k, e) || SleepsOn(k, e) != Awake ==> CallsScheduler(k, e)
    ensures k.cur == k.idle && (e.LineEnd? || e.InterruptKey? || e.OtherByte? || e.WakeDisplay?) ==>
      CallsScheduler(k, e)
    ensures k.cur == k.idle && e.Resume? && k.tasks[k.cur].pc == Ticked ==> CallsScheduler(k, e)
    ensures CallsScheduler(k, e) ==>
      e.Timer? || e.SpawnEvent? || Exits(k, e) || SleepsOn(k, e) != Awake || k.cur == k.idle
  { assert TaskOk(k, k.cur); }

  lemma CurBefore(k: Kernel, e: Event)
    requires Inv(k) && Enabled(k, e) && CallsScheduler(k, e)
    ensures var m := Before(k, e);
      && k.cur in m.tasks
      && m.tasks[k.cur].state == (if Exits(k, e) then Zombie else if SleepsOn(k, e) == Awake then Ready else Sleeping)
      && m.tasks[k.cur].reason == SleepsOn(k, e)
  {
    assert TaskOk(k, k.cur);
    if Exits(k, e) { CurExited(k, e); } else { hide Exited; }
  }

  lemma CurExited(k: Kernel, e: Event)
    requires Inv(k) && Enabled(k, e) && Exits(k, e)
    ensures var m := Before(k, e);
      k.cur in m.tasks && m.tasks[k.cur].state == Zombie && m.tasks[k.cur].reason == Awake
  {
    assert TaskOk(k, k.cur);
    hide Inv, Exited;
    NotIdle(k, e);
    ExitedTasks(k, CodeOf(e), k.cur);
  }

  lemma CurQuiet(k: Kernel, e: Event)
    requires Inv(k) && Enabled(k, e) && !CallsScheduler(k, e) && Step(k, e).Ok?
    ensures var k' := Step(k, e).k;
      k.cur in k'.tasks && k'.tasks[k.cur].state == Ready && k'.tasks[k.cur].reason == Awake && k'.cur == k.cur
    ensures !Exits(k, e) && SleepsOn(k, e) == Awake
  {
    assert TaskOk(k, k.cur);
    hide Inv, Schedule;
    CurQuietState(k, e);
  }

  lemma CurQuietState(k: Kernel, e: Event)
    requires Enabled(k, e) && !CallsScheduler(k, e) && Step(k, e).Ok? && k.cur in k.tasks
    requires k.tasks[k.cur].state == Ready && k.tasks[k.cur].reason == Awake
    ensures var k' := Step(k, e).k;
      k.cur in k'.tasks && k'.tasks[k.cur].state == Ready && k'.tasks[k.cur].reason == Awake && k'.cur == k.cur
    ensures !Exits(k, e) && (k.tasks[k.cur].pc == Fresh || !e.Resume? || SleepsOn(k, e) == Awake)
  {
    hide Schedule;
    if e.LineEnd? || e.OtherByte? || e.WakeDisplay? || e.InterruptKey? { QuietKey(k, e, k.cur); }
  }

  /** The current thread after a step: a zombie if it exits, asleep on what it waits for, or ready. */
  lemma CurrentAfter(k: Kernel, e: Event)
    requires Inv(k) && Enabled(k, e) && Step(k, e).Ok?
    ensures k.cur in k.tasks && k.cur in Step(k, e).k.tasks
    ensures var y := Step(k, e).k.tasks[k.cur];
      && y.state == (if Exits(k, e) then Zombie else if SleepsOn(k, e) == Awake then Ready else Sleeping)
      && y.reason == SleepsOn(k, e)
  {
    hide Inv, Step, Before, Schedule, Enabled, CallsScheduler, SleepsOn, Exits;
    StepCur(k, e);
    if CallsScheduler(k, e) {
      StepIsSchedule(k, e);
      CurBefore(k, e);
      AfterSchedule(Before(k, e));
    } else {
      CurQuiet(k, e);
    }
  }

  /** Round robin: a thread that calls scheduler() is not picked again while another thread than idle is ready. */
  lemma AnotherRuns(k: Kernel, e: Event, t: Tid)
    requires Inv(k) && Enabled(k, e) && CallsScheduler(k, e) && Step(k, e).Ok?
    requires t in Step(k, e).k.tasks && Step(k, e).k.tasks[t].state == Ready && t != k.cur && t != k.idle
    ensures Step(k, e).k.cur != k.cur
  {
    hide Inv, Step, Enabled, CallsScheduler;
    StepIsSchedule(k, e);
    BeforeRing(k, e);
    BeforeCore(k, e);
    var m := Before(k, e);
    var r := Reap(m);
    assert Step(k, e).k == r.(cur := Pick(r), loaded := Pick(r)) by { ScheduleIs(m); }
    ReapRingHolds(k, e);
    PickOther(r, t);
  }

  lemma ScheduleIs(m: Kernel)
    requires Schedule(m).Ok?
    ensures Schedule(m).k == Reap(m).(cur := Pick(Reap(m)), loaded := Pick(Reap(m)))
  {}

  lemma BeforeCore(k: Kernel, e: Event)
    requires Inv(k) && Enabled(k, e) && CallsScheduler(k, e)
    ensures var m := Before(k, e);
      NoDups(m.ring) && k.cur in m.ring && m.cur == k.cur && m.idle == k.idle
  {
    BeforeRing(k, e);
    if e.SpawnEvent? { ConsNoDups(k.ring, e.slot); }
  }

  lemma ReapRingHolds(k: Kernel, e: Event)
    requires Inv(k) && Enabled(k, e) && CallsScheduler(k, e) && Step(k, e).Ok?
    ensures var r := Reap(Before(k, e));
      && NoDups(r.ring) && r.cur == k.cur && r.idle == k.idle && k.cur in r.ring
      && forall t | t in r.tasks :: t in r.ring
  {
    hide Step, Before, Enabled, CallsScheduler;
    StepKeeps(k, e);
    StepIsSchedule(k, e);
    BeforeCore(k, e);
    var m := Before(k, e);
    ScheduleIs(m);
    WithoutNoDups(m.ring, Dead(m));
    assert k.cur !in Dead(m);
    assert RingOk(Step(k, e).k);
  }

  lemma PickOther(r: Kernel, t: Tid)
    requires NoDups(r.ring) && r.cur in r.ring && t in r.ring && t != r.cur && Runnable(r, t)
    ensures Pick(r) != r.cur
  {
    var pc, pt := Pos(r.ring, r.cur), Pos(r.ring, t);
    assert Runnable(r, r.ring[pt]);
    var i, j := FirstFrom(r, pc + 1), FirstFrom(r, 0);
    assert pt > pc ==> i <= pt;
    assert pt < pc ==> j <= pt;
  }

  // ---- Signals -------------------------------------------------------------------------------------------

  /** ctrl-C on a tty meets this task: it is ready, and the tty is its stdin. */
  predicate HitBy(k: Kernel, e: Event, t: Tid) {
    e.InterruptKey? && t in k.tasks && k.tasks[t].state == Ready && k.tasks[t].stdin == Some(e.tty)
  }

  lemma PendingAfter(k: Kernel, e: Event, x: Task)
    requires k.cur in k.tasks
    ensures Bystander(k, e, x).pending <==> x.pending || (e.InterruptKey? && x.state == Ready && x.stdin == Some(e.tty))
  {}

  /** In one step a signal becomes pending exactly for the tasks ctrl-C meets, and stays pending. */
  lemma PendingStep(k: Kernel, e: Event, t: Tid)
    requires Inv(k) && Enabled(k, e) && Step(k, e).Ok? && t in Step(k, e).k.tasks
    ensures t in k.tasks ==>
      (Step(k, e).k.tasks[t].pending <==> k.tasks[t].pending || HitBy(k, e, t))
    ensures t in k.tasks ==> Step(k, e).k.tasks[t].uid == k.tasks[t].uid
    ensures t !in k.tasks ==> !Step(k, e).k.tasks[t].pending && Step(k, e).k.tasks[t].uid == k.nextUid
  {
    hide Inv, Step, Enabled, CallsScheduler, Bystander;
    StepCur(k, e);
    if t in k.tasks {
      FamilyStays(k, e, t);
      PendingAfter(k, e, k.tasks[t]);
      if t != k.cur { StepTask(k, e, t); }
    } else {
      StepNew(k, e, t);
    }
  }

  lemma NothingPending(k: Kernel, t: Tid)
    requires Booted(k) && t in k.tasks
    ensures !k.tasks[t].pending
  { assert BootTask(k, t); }

  /** In every run, a signal is pending only for a task that ctrl-C on its own stdin met earlier, while it was ready. */
  lemma {:induction false} PendingComesFromKey(states: seq<Kernel>, events: seq<Event>, i: nat, t: Tid) returns (j: nat)
    requires IsRun(states, events) && Booted(states[0]) && i < |states|
    requires t in states[i].tasks && states[i].tasks[t].pending
    ensures j < i && j < |events| && HitBy(states[j], events[j], t) && states[j].tasks[t].uid == states[i].tasks[t].uid
  {
    hide Inv, Step, Enabled, HitBy, Booted;
    if i == 0 {
      j := 0;
      NothingPending(states[0], t);
    } else {
      var k, e := states[i - 1], events[i - 1];
      RunSafe(states, events, i - 1, e);
      assert Steps(k, e, states[i]);
      PendingStep(k, e, t);
      if HitBy(k, e, t) { j := i - 1; } else { j := PendingComesFromKey(states, events, i - 1, t); }
    }
  }

  /** Who is killed by a signal: a thread that exits on its way out of scheduler() without calling exit had ctrl-C typed
      on its own stdin, earlier in the run and while it was ready. */
  lemma KilledByKey(states: seq<Kernel>, events: seq<Event>, i: nat) returns (j: nat)
    requires IsRun(states, events) && Booted(states[0]) && i < |events|
    requires Enabled(states[i], events[i]) && events[i].Resume? && ExitCodeOf(states[i], events[i]).Some?
    ensures var t := states[i].cur;
      && j < i && HitBy(states[j], events[j], t) && t in states[i].tasks
      && states[j].tasks[t].uid == states[i].tasks[t].uid
  {
    hide Step;
    RunSafe(states, events, i, events[i]);
    j := PendingComesFromKey(states, events, i, states[i].cur);
  }

  /** The task of a number is in the same slot from its making on. */
  lemma {:induction false} SameTaskBefore(states: seq<Kernel>, events: seq<Event>, j: nat, i: nat, t: Tid)
    requires IsRun(states, events) && Booted(states[0]) && j <= i < |states| && t in states[i].tasks
    requires states[i].tasks[t].uid < states[j].nextUid
    ensures t in states[j].tasks && states[j].tasks[t].uid == states[i].tasks[t].uid
    ensures states[j].tasks[t].pending ==> states[i].tasks[t].pending
    decreases i
  {
    hide Inv, Step, Enabled;
    if j < i {
      var k, e := states[i - 1], events[i - 1];
      RunSafe(states, events, i - 1, e);
      assert Steps(k, e, states[i]);
      NumbersGrow(states, events, j, i - 1);
      PendingStep(k, e, t);
      SameTaskBefore(states, events, j, i - 1, t);
    }
  }

  lemma {:induction false} NumbersGrow(states: seq<Kernel>, events: seq<Event>, j: nat, i: nat)
    requires IsRun(states, events) && Booted(states[0]) && j <= i < |states|
    ensures states[j].nextUid <= states[i].nextUid
    decreases i
  {
    hide Inv, Step, Enabled;
    if j < i {
      NumbersGrow(states, events, j, i - 1);
      RunSafe(states, events, i - 1, events[i - 1]);
      assert Steps(states[i - 1], events[i - 1], states[i]);
      StepCur(states[i - 1], events[i - 1]);
      StepNew(states[i - 1], events[i - 1], states[i - 1].cur);
    }
  }

  /** Whom ctrl-C kills: a task it meets exits with code 0 the next time it comes out of scheduler(), whatever happens
      in between, unless it has not run yet (then it does so the time after). */
  lemma KeyKills(states: seq<Kernel>, events: seq<Event>, j: nat, i: nat, t: Tid)
    requires IsRun(states, events) && Booted(states[0]) && j < i < |events| && HitBy(states[j], events[j], t)
    requires t in states[i].tasks && states[i].tasks[t].uid == states[j].tasks[t].uid
    requires states[i].cur == t && events[i] == Resume && states[i].tasks[t].pc != Fresh
    ensures var u := states[i].tasks[t].uid; u in states[i + 1].exits && states[i + 1].exits[u] == 0
  {
    hide Step;
    RunSafe(states, events, j, events[j]);
    RunSafe(states, events, j + 1, events[i]);
    RunSafe(states, events, i, events[i]);
    assert Steps(states[j], events[j], states[j + 1]) && Steps(states[i], events[i], states[i + 1]);
    assert TaskOk(states[j], t);
    hide Inv, Enabled;
    NumbersGrow(states, events, j, j + 1);
    SameTaskBefore(states, events, j + 1, i, t);
    PendingStep(states[j], events[j], t);
    StepHistory(states[i], events[i]);
  }
}
