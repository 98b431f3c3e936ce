/**
 Tasks, the scheduler, sleep/wakeup, spawn/exit (src/kernel/task.c, scheduler.c, sleep.c) as a
 state machine. A step is what the kernel does with interrupts off between two points at which
 user code or the idle thread can be interrupted; a failed assertion or a panic is `Panic`.
 */
module Sched {
  import opened Common

  type Tid = nat

  datatype ThreadState = Ready | Sleeping | Zombie

  /** sleep_reason: the address a thread sleeps on. */
  datatype Reason = Awake | WaitChild(of: Tid) | OnTty(tty: nat) | OnDisplay

  /** Where a thread goes on when it is switched to: outside the kernel (only the current thread is), at its
      first instruction, or after the call of scheduler() it made from a timer interrupt (Ticked), where
      run_scheduler_if_idle is still to come, from run_scheduler_if_idle itself or a spawn (Yielded), from
      the sleep of a waiting spawn, of a tty read or of the renderer, or from task_exit. */
  datatype Pc =
    | Outside | Fresh | Ticked | Yielded | InSpawn(child: Tid, uid: nat) | InRead(tty: nat) | InRedraw | InExit

  /** task_t with its thread. uid tells apart the tasks that use one slot of the pool one after the other. */
  datatype Task = Task(uid: nat, state: ThreadState, reason: Reason, parent: Option<Tid>, waiting: Option<Tid>,
                       exitCode: nat, pending: bool, stdin: Option<nat>, pc: Pc)

  /** The kernel: task_list in order, the valid slots of the task pool, cur_thread, idle_task, the task whose page
      table is loaded, data_ready of each tty; and a history: the next uid and the code each ended task exited with. */
  datatype Kernel = Kernel(ring: seq<Tid>, tasks: map<Tid, Task>, cur: Tid, idle: Tid, loaded: Tid,
                           ready: map<nat, bool>, nextUid: nat, exits: map<nat, nat>)

  datatype Result = Ok(k: Kernel) | Panic

  // ---- The search -------------------------------------------------------------------

  predicate Runnable(k: Kernel, t: Tid) { t != k.idle && t in k.tasks && k.tasks[t].state == Ready }

  /** The first index from i on that holds a runnable thread, or the length of the ring. */
  function FirstFrom(k: Kernel, i: nat): (j: nat)
    requires i <= |k.ring|
    ensures i <= j <= |k.ring|
    ensures forall m | i <= m < j :: !Runnable(k, k.ring[m])
    ensures j < |k.ring| ==> Runnable(k, k.ring[j])
    decreases |k.ring| - i
  {
    if i == |k.ring| || Runnable(k, k.ring[i]) then i else FirstFrom(k, i + 1)
  }

  /** The position of t in the ring. */
  function Pos(ring: seq<Tid>, t: Tid): (i: nat)
    requires t in ring
    ensures i < |ring| && ring[i] == t
  {
    if ring[0] == t then 0 else 1 + Pos(ring[1..], t)
  }

  /** find_runnable_thread: from the current thread to the end, then from the front, then idle. */
  function Pick(k: Kernel): Tid
    requires k.cur in k.ring
  {
    var i := FirstFrom(k, Pos(k.ring, k.cur) + 1);
    if i < |k.ring| then k.ring[i]
    else var j := FirstFrom(k, 0); if j < |k.ring| then k.ring[j] else k.idle
  }

  // ---- Reaping ----------------------------------------------------------------------

  /** The zombies reap_zombies frees. */
  function Dead(k: Kernel): set<Tid> { set t | t in k.tasks && t != k.cur && k.tasks[t].state == Zombie }

  function Without(ring: seq<Tid>, dead: set<Tid>): (r: seq<Tid>)
    ensures forall t :: t in r <==> t in ring && t !in dead
  {
    if |ring| == 0 then []
    else if ring[0] in dead then Without(ring[1..], dead)
    else [ring[0]] + Without(ring[1..], dead)
  }

  function Orphan(t: Task, dead: set<Tid>): Task {
    if t.parent.Some? && t.parent.value in dead then t.(parent := None) else t
  }

  /** reap_zombies: the dead leave the list and the pool, and their children lose their parent. */
  function Reap(k: Kernel): Kernel {
    var dead := Dead(k);
    k.(ring := Without(k.ring, dead), tasks := map t | t in k.tasks && t !in dead :: Orphan(k.tasks[t], dead))
  }

  /** scheduler() up to the context switch. */
  function Schedule(k: Kernel): Result {
    var k1 := Reap(k);
    if k1.cur !in k1.ring then Panic
    else
      var next := Pick(k1);
      if next !in k1.tasks || k1.tasks[next].state != Ready then Panic
      else Ok(k1.(cur := next, loaded := next))
  }

  // ---- sleep, wakeup, exit -----------------------------------------------------------

  function SetTask(k: Kernel, t: Tid, x: Task): Kernel { k.(tasks := k.tasks[t := x]) }

  /** wakeup(resource). */
  function WakeTask(x: Task, r: Reason): Task {
    if x.state == Sleeping && x.reason == r then x.(reason := Awake, state := Ready) else x
  }

  function Wakeup(k: Kernel, r: Reason): Kernel {
    k.(tasks := map t | t in k.tasks :: WakeTask(k.tasks[t], r))
  }

  /** sleep(resource) up to the context switch; pc says what follows. */
  function Sleep(k: Kernel, r: Reason, pc: Pc): Result
    requires k.cur in k.tasks
  {
    Schedule(SetTask(k, k.cur, k.tasks[k.cur].(state := Sleeping, reason := r, pc := pc)))
  }

  /** The parent waits for t. */
  predicate Awaited(k: Kernel, t: Tid)
    requires t in k.tasks
  {
    var p := k.tasks[t].parent;
    p.Some? && p.value in k.tasks && k.tasks[p.value].state == Sleeping && k.tasks[p.value].waiting == Some(t)
  }

  /** task_exit before it calls scheduler(). */
  function Notify(k: Kernel, t: Tid, code: nat): Kernel
    requires t in k.tasks
  {
    if Awaited(k, t) then
      var p := k.tasks[t].parent.value;
      Wakeup(SetTask(k, p, k.tasks[p].(waiting := None, exitCode := code)), WaitChild(p))
    else k
  }

  function Exit(k: Kernel, code: nat): Result
    requires k.cur in k.tasks
  {
    var k1 := Notify(k, k.cur, code);
    if k.cur !in k1.tasks then Panic
    else
      var x := k1.tasks[k.cur];
      Schedule(SetTask(k1, k.cur, x.(state := Zombie, pc := InExit)).(exits := k1.exits[x.uid := code]))
  }

  // ---- spawn --------------------------------------------------------------------------

  datatype SpawnMode = Wait | NoWait

  /** task_spawn_user after the child is built in a free slot; a failed build changes nothing here. */
  function SpawnUser(k: Kernel, slot: Tid, mode: SpawnMode): Result
    requires k.cur in k.tasks && slot !in k.tasks
  {
    var parent := k.tasks[k.cur];
    var child := Task(k.nextUid, Ready, Awake, Some(k.cur), None, 0, false, parent.stdin, Fresh);
    var k1 := SetTask(k, slot, child).(ring := [slot] + k.ring, nextUid := k.nextUid + 1);
    match mode
    case NoWait => Schedule(SetTask(k1, k.cur, parent.(pc := Yielded)))
    case Wait =>
      Sleep(SetTask(k1, k.cur, parent.(waiting := Some(slot), state := Sleeping)), WaitChild(k.cur),
            InSpawn(slot, child.uid))
  }

  // ---- tty -----------------------------------------------------------------------------

  /** task_interrupt_by_tty: marks the ready threads that read this tty. */
  function Interrupt(k: Kernel, tty: nat): Kernel {
    k.(tasks := map t | t in k.tasks ::
         var x := k.tasks[t]; if x.state == Ready && x.stdin == Some(tty) then x.(pending := true) else x)
  }

  predicate DataReady(k: Kernel, tty: nat) { tty in k.ready && k.ready[tty] }

  /** tty_readin: takes a line that is ready, or sleeps. */
  function ReadTty(k: Kernel, tty: nat): Result
    requires k.cur in k.tasks
  {
    if DataReady(k, tty) then Ok(SetTask(k, k.cur, k.tasks[k.cur].(pc := Outside)).(ready := k.ready[tty := false]))
    else Sleep(k, OnTty(tty), InRead(tty))
  }

  /** The echo on the active display wakes the renderer. */
  function Redraw(k: Kernel, redraw: bool): Kernel { if redraw then Wakeup(k, OnDisplay) else k }

  /** The end of a line wakes the tty's readers. */
  function EndLine(k: Kernel, tty: nat): Kernel { Wakeup(k.(ready := k.ready[tty := true]), OnTty(tty)) }

  /** run_scheduler_if_idle, at the end of every interrupt. */
  function IfIdle(k: Kernel): Result
    requires k.cur in k.tasks
  {
    if k.cur == k.idle then Schedule(SetTask(k, k.cur, k.tasks[k.cur].(pc := Yielded))) else Ok(k)
  }

  // ---- steps -----------------------------------------------------------------------------

  /** What can happen. A keyboard byte is a line end, the interrupt character, or any other byte; redraw says that its
      echo goes to the active display. WakeDisplay is output, or a switch of displays. */
  datatype Event =
    | Timer
    | ExitEvent(code: nat)
    | SpawnFails
    | SpawnEvent(slot: Tid, mode: SpawnMode)
    | Read(tty: nat)
    | LineEnd(tty: nat, redraw: bool)
    | InterruptKey(tty: nat)
    | OtherByte(redraw: bool)
    | RedrawDone
    | WakeDisplay
    | Resume

  /** A thread that was just switched to goes on; everything else happens to a thread outside the kernel.
      The idle thread makes no calls. A spawn takes a free slot. */
  predicate Enabled(k: Kernel, e: Event) {
    && k.cur in k.tasks
    && (e.Resume? <==> k.tasks[k.cur].pc != Outside)
    && (k.cur == k.idle ==> e.Timer? || e.LineEnd? || e.InterruptKey? || e.OtherByte? || e.WakeDisplay? || e.Resume?)
    && (e.SpawnEvent? ==> e.slot !in k.tasks)
  }

  /** The rest of the kernel path of a thread that scheduler() returned to: signals first, then the assertions
      of sleep and of its caller. */
  function ResumeStep(k: Kernel): Result
    requires k.cur in k.tasks
  {
    var x := k.tasks[k.cur];
    if x.pc == Fresh then Ok(SetTask(k, k.cur, x.(pc := Outside)))
    else if x.pending then Exit(k, 0)
    else match x.pc
      case Yielded => Ok(SetTask(k, k.cur, x.(pc := Outside)))
      case Ticked =>
        if k.cur == k.idle then IfIdle(k) else Ok(SetTask(k, k.cur, x.(pc := Outside)))
      case InSpawn(_, _) =>
        if x.state == Ready && x.reason == Awake && x.waiting == None then Ok(SetTask(k, k.cur, x.(pc := Outside)))
        else Panic
      case InRead(tty) =>
        if x.state == Ready && x.reason == Awake then ReadTty(k, tty) else Panic
      case InRedraw =>
        if x.state == Ready && x.reason == Awake then Ok(SetTask(k, k.cur, x.(pc := Outside))) else Panic
      case _ => Panic
  }

  function Step(k: Kernel, e: Event): Result
    requires Enabled(k, e)
  {
    match e
    case Timer => Schedule(SetTask(k, k.cur, k.tasks[k.cur].(pc := Ticked)))
    case ExitEvent(code) => Exit(k, code)
    case SpawnFails => Ok(k)
    case SpawnEvent(slot, mode) => SpawnUser(k, slot, mode)
    case Read(tty) => ReadTty(k, tty)
    case LineEnd(tty, redraw) => IfIdle(EndLine(Redraw(k, redraw), tty))
    case InterruptKey(tty) => IfIdle(Interrupt(k, tty))
    case OtherByte(redraw) => IfIdle(Redraw(k, redraw))
    case RedrawDone => Sleep(k, OnDisplay, InRedraw)
    case WakeDisplay => IfIdle(Wakeup(k, OnDisplay))
    case Resume => ResumeStep(k)
  }

  // ---- the invariant -------------------------------------------------------------------------

  ghost predicate NoDups(ring: seq<Tid>) { forall i, j | 0 <= i < j < |ring| :: ring[i] != ring[j] }

  /** task_list holds exactly the live tasks, once each; the current thread is one of them and its page table is
      loaded. */
  ghost predicate RingOk(k: Kernel) {
    && NoDups(k.ring) && (forall t :: t in k.ring <==> t in k.tasks)
    && k.cur in k.tasks && k.idle in k.tasks && k.loaded == k.cur
  }

  /** What a thread sleeps on is what it will go on with. */
  ghost predicate SleepOk(k: Kernel, t: Tid)
    requires t in k.tasks
  {
    var x := k.tasks[t];
    && (x.state == Sleeping ==>
          || (x.pc.InSpawn? && x.reason == WaitChild(t))
          || (x.pc.InRead? && x.reason == OnTty(x.pc.tty) && !DataReady(k, x.pc.tty))
          || (x.pc.InRedraw? && x.reason == OnDisplay))
    && (x.state != Sleeping ==> x.reason == Awake)
    && (x.state == Zombie <==> x.pc.InExit?)
    && (x.pc == Outside ==> t == k.cur)
  }

  /** The handshake: a task waits for a child exactly while it sleeps in spawn, and then the child lives and is its own;
      once woken, it holds the code that child exited with. */
  ghost predicate SpawnOk(k: Kernel, t: Tid)
    requires t in k.tasks
  {
    var x := k.tasks[t];
    && (x.waiting.Some? <==> x.state == Sleeping && x.pc.InSpawn?)
    && (x.waiting.Some? ==>
          var c := x.waiting.value;
          && x.pc.child == c && c in k.tasks && k.tasks[c].uid == x.pc.uid && k.tasks[c].parent == Some(t)
          && k.tasks[c].state != Zombie)
    && (x.pc.InSpawn? && x.state == Ready ==> x.pc.uid in k.exits && x.exitCode == k.exits[x.pc.uid])
  }

  /** No live task's parent is a freed task; history covers past tasks only. */
  ghost predicate FamilyOk(k: Kernel, t: Tid)
    requires t in k.tasks
  {
    var x := k.tasks[t];
    && (x.parent.Some? ==> x.parent.value in k.tasks && x.parent.value != t)
    && x.uid < k.nextUid && (x.uid in k.exits <==> x.state == Zombie)
  }

  ghost predicate TaskOk(k: Kernel, t: Tid)
    requires t in k.tasks
  { SleepOk(k, t) && SpawnOk(k, t) && FamilyOk(k, t) }

  ghost predicate IdleOk(k: Kernel)
    requires k.idle in k.tasks
  {
    var x := k.tasks[k.idle];
    && x.state == Ready && x.stdin == None && !x.pending
    && (x.pc == Outside || x.pc == Fresh || x.pc == Ticked || x.pc == Yielded)
  }

  ghost predicate UidsOk(k: Kernel) {
    && (forall t, u | t in k.tasks && u in k.tasks && t != u :: k.tasks[t].uid != k.tasks[u].uid)
    && (forall n | n in k.exits :: n < k.nextUid)
  }

  /** Holds wherever scheduler() may be called. */
  ghost predicate CoreInv(k: Kernel) {
    && RingOk(k) && IdleOk(k) && UidsOk(k)
    && forall t | t in k.tasks :: TaskOk(k, t)
  }

  /** Holds between steps: moreover the current thread is ready. */
  ghost predicate Inv(k: Kernel) { CoreInv(k) && k.tasks[k.cur].state == Ready }

  // ---- The search finds a ready thread -------------------------------------------------------

  lemma PickIsReady(k: Kernel)
    requires k.cur in k.ring && k.idle in k.tasks && k.tasks[k.idle].state == Ready
    ensures Pick(k) in k.tasks && k.tasks[Pick(k)].state == Ready
    ensures Pick(k) == k.idle || (Pick(k) in k.ring && Runnable(k, Pick(k)))
  {}

  // ---- Reaping keeps the invariant ---------------------------------------------------------

  lemma {:induction false} WithoutNoDups(ring: seq<Tid>, dead: set<Tid>)
    requires NoDups(ring)
    ensures NoDups(Without(ring, dead))
  {
    if |ring| > 0 {
      TailNoDups(ring);
      WithoutNoDups(ring[1..], dead);
      var r := Without(ring[1..], dead);
      if ring[0] !in dead {
        assert ring[0] !in ring[1..];
        forall j | 0 <= j < |r| ensures r[j] != ring[0] { assert r[j] in ring[1..]; }
      }
    }
  }

  lemma TailNoDups(ring: seq<Tid>)
    requires NoDups(ring) && |ring| > 0
    ensures NoDups(ring[1..]) && ring[0] !in ring[1..]
  {
    forall i, j | 0 <= i < j < |ring[1..]| ensures ring[1..][i] != ring[1..][j] {
      assert ring[1..][i] == ring[i + 1] && ring[1..][j] == ring[j + 1];
    }
  }

  lemma ReapTask(k: Kernel, t: Tid)
    requires CoreInv(k) && t in Reap(k).tasks
    ensures TaskOk(Reap(k), t)
  {
    hide NoDups, UidsOk, Without;
    var x := k.tasks[t];
    assert TaskOk(k, t);
    if x.waiting.Some? { assert TaskOk(k, x.waiting.value); }
  }

  lemma ReapRing(k: Kernel)
    requires RingOk(k) && k.tasks[k.idle].state == Ready
    ensures RingOk(Reap(k)) && Reap(k).cur == k.cur && k.cur in Reap(k).ring
  {
    WithoutNoDups(k.ring, Dead(k));
    assert k.cur !in Dead(k) && k.idle !in Dead(k);
  }

  lemma ReapUids(k: Kernel)
    requires UidsOk(k) && k.idle in k.tasks && IdleOk(k)
    ensures UidsOk(Reap(k)) && k.idle in Reap(k).tasks && IdleOk(Reap(k))
  {
    hide Without;
    var k' := Reap(k);
    assert forall t | t in k'.tasks :: k'.tasks[t].uid == k.tasks[t].uid;
  }

  lemma ReapKeeps(k: Kernel)
    requires CoreInv(k)
    ensures CoreInv(Reap(k)) && Reap(k).cur == k.cur && k.cur in Reap(k).ring
    ensures forall t | t in Reap(k).tasks ::
      Reap(k).tasks[t].pc == k.tasks[t].pc && Reap(k).tasks[t].state == k.tasks[t].state
  {
    hide TaskOk, RingOk, UidsOk, IdleOk, Without;
    assert k.idle in k.tasks && k.cur in k.tasks && k.tasks[k.idle].state == Ready by { CoreFacts(k); }
    ReapRing(k);
    ReapUids(k);
    forall t | t in Reap(k).tasks ensures TaskOk(Reap(k), t) { ReapTask(k, t); }
  }

  lemma CoreFacts(k: Kernel)
    requires CoreInv(k)
    ensures k.idle in k.tasks && k.cur in k.tasks && k.tasks[k.idle].state == Ready && k.cur in k.ring
  {}

  /** From wherever scheduler() is called, no assertion fails, and the thread switched to is ready. */
  lemma ScheduleOk(k: Kernel)
    requires CoreInv(k) && k.tasks[k.cur].pc != Outside
    ensures Schedule(k).Ok? && Inv(Schedule(k).k) && Schedule(k).k.cur == Pick(Reap(k))
    ensures Schedule(k).k == Reap(k).(cur := Pick(Reap(k)), loaded := Pick(Reap(k)))
  {
    ReapKeeps(k);
    var k1 := Reap(k);
    PickIsReady(k1);
    var k2 := k1.(cur := Pick(k1), loaded := Pick(k1));
    forall t | t in k2.tasks ensures TaskOk(k2, t) {
      assert TaskOk(k1, t);
      assert k1.tasks[t].pc == k.tasks[t].pc && TaskOk(k, t);
    }
  }

  // ---- Changing one task ---------------------------------------------------------------------

  /** A task may change its pc, and nothing others depend on, while it is current and ready. */
  lemma SetPc(k: Kernel, pc: Pc)
    requires Inv(k) && (pc == Outside || pc == Ticked || pc == Yielded)
    ensures var k' := SetTask(k, k.cur, k.tasks[k.cur].(pc := pc)); Inv(k')
  {
    hide TaskOk;
    var k' := SetTask(k, k.cur, k.tasks[k.cur].(pc := pc));
    forall t | t in k'.tasks ensures TaskOk(k', t) { SetPcTask(k, pc, t); }
  }

  lemma SetPcTask(k: Kernel, pc: Pc, t: Tid)
    requires Inv(k) && (pc == Outside || pc == Ticked || pc == Yielded) && t in k.tasks
    ensures TaskOk(SetTask(k, k.cur, k.tasks[k.cur].(pc := pc)), t)
  {
    hide NoDups, UidsOk;
    assert TaskOk(k, t);
  }

  lemma YieldOk(k: Kernel, pc: Pc)
    requires Inv(k) && (pc == Ticked || pc == Yielded)
    ensures var r := Schedule(SetTask(k, k.cur, k.tasks[k.cur].(pc := pc))); r.Ok? && Inv(r.k)
  {
    SetPc(k, pc);
    ScheduleOk(SetTask(k, k.cur, k.tasks[k.cur].(pc := pc)));
  }

  lemma IfIdleOk(k: Kernel)
    requires Inv(k)
    ensures IfIdle(k).Ok? && Inv(IfIdle(k).k)
  { if k.cur == k.idle { YieldOk(k, Yielded); } }

  /** Going to sleep on a tty without data, or on the display. */
  lemma SleepKeeps(k: Kernel, r: Reason, pc: Pc)
    requires Inv(k) && k.cur != k.idle
    requires (r.OnTty? && pc == InRead(r.tty) && !DataReady(k, r.tty)) || (r == OnDisplay && pc == InRedraw)
    ensures Sleep(k, r, pc).Ok? && Inv(Sleep(k, r, pc).k)
  {
    hide TaskOk;
    var k' := SetTask(k, k.cur, k.tasks[k.cur].(state := Sleeping, reason := r, pc := pc));
    forall t | t in k'.tasks ensures TaskOk(k', t) { SleepTask(k, r, pc, t); }
    ScheduleOk(k');
  }

  lemma SleepTask(k: Kernel, r: Reason, pc: Pc, t: Tid)
    requires Inv(k) && t in k.tasks
    requires (r.OnTty? && pc == InRead(r.tty) && !DataReady(k, r.tty)) || (r == OnDisplay && pc == InRedraw)
    ensures TaskOk(SetTask(k, k.cur, k.tasks[k.cur].(state := Sleeping, reason := r, pc := pc)), t)
  {
    hide NoDups, UidsOk;
    assert TaskOk(k, t);
    assert TaskOk(k, k.cur);
  }

  lemma ReadKeeps(k: Kernel, tty: nat)
    requires Inv(k) && k.cur != k.idle
    ensures ReadTty(k, tty).Ok? && Inv(ReadTty(k, tty).k)
  {
    if DataReady(k, tty) {
      SetPc(k, Outside);
      var k1 := SetTask(k, k.cur, k.tasks[k.cur].(pc := Outside));
      var k' := k1.(ready := k.ready[tty := false]);
      forall t | t in k'.tasks ensures TaskOk(k', t) { assert TaskOk(k1, t); }
    } else {
      SleepKeeps(k, OnTty(tty), InRead(tty));
    }
  }

  // ---- Interrupts ------------------------------------------------------------------------------

  lemma LineEndKeeps(k: Kernel, tty: nat)
    requires Inv(k)
    ensures Inv(EndLine(k, tty))
  {
    hide TaskOk;
    var k' := EndLine(k, tty);
    forall t | t in k'.tasks ensures TaskOk(k', t) { LineEndTask(k, tty, t); }
  }

  lemma LineEndTask(k: Kernel, tty: nat, t: Tid)
    requires Inv(k) && t in k.tasks
    ensures TaskOk(EndLine(k, tty), t)
  {
    hide NoDups, UidsOk;
    assert TaskOk(k, t);
    if k.tasks[t].waiting.Some? { assert TaskOk(k, k.tasks[t].waiting.value); }
  }

  lemma WakeDisplayKeeps(k: Kernel)
    requires Inv(k)
    ensures Inv(Wakeup(k, OnDisplay))
  {
    hide TaskOk;
    var k' := Wakeup(k, OnDisplay);
    forall t | t in k'.tasks ensures TaskOk(k', t) { WakeDisplayTask(k, t); }
  }

  lemma WakeDisplayTask(k: Kernel, t: Tid)
    requires Inv(k) && t in k.tasks
    ensures TaskOk(Wakeup(k, OnDisplay), t)
  {
    hide NoDups, UidsOk;
    assert TaskOk(k, t);
    if k.tasks[t].waiting.Some? { assert TaskOk(k, k.tasks[t].waiting.value); }
  }

  /** The echo wakes the renderer: nobody sleeps on the display before the scheduler runs. */
  lemma RedrawWakes(k: Kernel, t: Tid)
    requires t in k.tasks
    ensures var x := Redraw(k, true).tasks[t]; !(x.state == Sleeping && x.reason == OnDisplay)
    ensures k.tasks[t].state == Sleeping && k.tasks[t].reason == OnDisplay ==> Redraw(k, true).tasks[t].state == Ready
    ensures k.tasks[t].reason != OnDisplay ==> Redraw(k, true).tasks[t] == k.tasks[t]
    ensures Redraw(k, false) == k
  {}

  lemma InterruptKeeps(k: Kernel, tty: nat)
    requires Inv(k)
    ensures Inv(Interrupt(k, tty))
  {
    hide TaskOk;
    var k' := Interrupt(k, tty);
    forall t | t in k'.tasks ensures TaskOk(k', t) { InterruptTask(k, tty, t); }
  }

  lemma InterruptTask(k: Kernel, tty: nat, t: Tid)
    requires Inv(k) && t in k.tasks
    ensures TaskOk(Interrupt(k, tty), t)
  {
    hide NoDups, UidsOk;
    assert TaskOk(k, t);
    if k.tasks[t].waiting.Some? { assert TaskOk(k, k.tasks[t].waiting.value); }
  }

  // ---- Exit ---------------------------------------------------------------------------------------

  /** The state in which task_exit calls scheduler(). */
  function Exited(k: Kernel, code: nat): Kernel
    requires k.cur in k.tasks
  {
    var k1 := Notify(k, k.cur, code);
    if k.cur !in k1.tasks then k
    else var x := k1.tasks[k.cur];
      SetTask(k1, k.cur, x.(state := Zombie, pc := InExit)).(exits := k1.exits[x.uid := code])
  }

  /** task_exit changes the exiting task, and wakes its parent if that waits for it. */
  lemma ExitedTasks(k: Kernel, code: nat, t: Tid)
    requires Inv(k) && k.cur != k.idle && t in k.tasks
    ensures var k' := Exited(k, code); var x := k.tasks[t];
      && k'.tasks.Keys == k.tasks.Keys && k'.ring == k.ring && k'.exits == k.exits[k.tasks[k.cur].uid := code]
      && k'.cur == k.cur && k'.idle == k.idle && k'.loaded == k.loaded && k'.ready == k.ready && k'.nextUid == k.nextUid
      && k'.tasks[t] ==
           if t == k.cur then x.(state := Zombie, pc := InExit)
           else if x.waiting == Some(k.cur) then x.(waiting := None, exitCode := code, state := Ready, reason := Awake)
           else x
  {
    hide CoreInv, Awaited;
    assert k.cur in k.tasks by { CoreFacts(k); }
    AwaitedBy(k, t);
    if Awaited(k, k.cur) {
      ParentInPool(k);
      AwaitedBy(k, k.tasks[k.cur].parent.value);
    }
  }

  lemma ParentInPool(k: Kernel)
    requires k.cur in k.tasks && Awaited(k, k.cur)
    ensures k.tasks[k.cur].parent.Some? && k.tasks[k.cur].parent.value in k.tasks
  {}

  /** The task that waits for the current one is its parent, and sleeps on its own waiting_child. */
  lemma AwaitedBy(k: Kernel, t: Tid)
    requires Inv(k) && t in k.tasks
    ensures k.tasks[t].waiting == Some(k.cur) <==> Awaited(k, k.cur) && t == k.tasks[k.cur].parent.value
    ensures k.tasks[t].reason.WaitChild? ==> k.tasks[t].reason == WaitChild(t)
    ensures k.tasks[t].waiting == Some(k.cur) ==>
      k.tasks[t].state == Sleeping && k.tasks[t].reason == WaitChild(t) && t != k.cur
  {
    hide NoDups, UidsOk;
    assert TaskOk(k, t);
    assert TaskOk(k, k.cur);
  }

  lemma ExitedTask(k: Kernel, code: nat, t: Tid)
    requires Inv(k) && k.cur != k.idle && t in k.tasks
    ensures t in Exited(k, code).tasks && TaskOk(Exited(k, code), t)
  {
    hide SleepOk, SpawnOk, FamilyOk, Exited, CoreInv;
    CurInPool(k);
    assert t in Exited(k, code).tasks by { ExitedTasks(k, code, t); }
    ExitedSleepOk(k, code, t);
    ExitedSpawnOk(k, code, t);
    ExitedFamilyOk(k, code, t);
  }

  lemma CurInPool(k: Kernel)
    requires CoreInv(k)
    ensures k.cur in k.tasks
  {}

  lemma ExitedSleepOk(k: Kernel, code: nat, t: Tid)
    requires Inv(k) && k.cur != k.idle && t in k.tasks && t in Exited(k, code).tasks
    ensures SleepOk(Exited(k, code), t)
  {
    hide Exited, RingOk, UidsOk;
    ExitedTasks(k, code, t);
    assert TaskOk(k, t);
  }

  lemma ExitedSpawnOk(k: Kernel, code: nat, t: Tid)
    requires Inv(k) && k.cur != k.idle && t in k.tasks && t in Exited(k, code).tasks
    ensures SpawnOk(Exited(k, code), t)
  {
    hide Exited, NoDups;
    ExitedTasks(k, code, t);
    assert TaskOk(k, t);
    assert TaskOk(k, k.cur);
    var x := k.tasks[t];
    if x.waiting.Some? { ExitedTasks(k, code, x.waiting.value); assert TaskOk(k, x.waiting.value); }
  }

  lemma ExitedFamilyOk(k: Kernel, code: nat, t: Tid)
    requires Inv(k) && k.cur != k.idle && t in k.tasks && t in Exited(k, code).tasks
    ensures FamilyOk(Exited(k, code), t)
  {
    hide Exited, NoDups;
    ExitedTasks(k, code, t);
    assert TaskOk(k, t);
    if k.tasks[t].parent.Some? { ExitedTasks(k, code, k.tasks[t].parent.value); }
  }

  lemma ExitIsSchedule(k: Kernel, code: nat)
    requires k.cur in k.tasks
    ensures Exit(k, code) == Schedule(Exited(k, code))
  { hide Schedule; }

  lemma ExitedKeeps(k: Kernel, code: nat)
    requires Inv(k) && k.cur != k.idle
    ensures k.cur in Exited(k, code).tasks && CoreInv(Exited(k, code))
    ensures Exited(k, code).tasks[k.cur].pc == InExit && Exited(k, code).cur == k.cur
  {
    hide TaskOk, Exited;
    var k' := Exited(k, code);
    ExitedTasks(k, code, k.cur);
    ExitedTasks(k, code, k.idle);
    AwaitedBy(k, k.idle);
    forall t | t in k'.tasks ensures TaskOk(k', t) { ExitedTask(k, code, t); }
    forall t | t in k.tasks ensures k'.tasks[t].uid == k.tasks[t].uid { ExitedTasks(k, code, t); }
    assert UidsOk(k') by { assert k.tasks[k.cur].uid < k.nextUid by { CurUid(k); } }
  }

  lemma CurUid(k: Kernel)
    requires Inv(k)
    ensures k.tasks[k.cur].uid < k.nextUid
  { assert TaskOk(k, k.cur); }

  lemma ExitKeeps(k: Kernel, code: nat)
    requires Inv(k) && k.cur != k.idle
    ensures Exit(k, code).Ok? && Inv(Exit(k, code).k)
  {
    hide Exited, Exit, Schedule;
    ExitIsSchedule(k, code);
    ExitedKeeps(k, code);
    ScheduleOk(Exited(k, code));
  }

  // ---- Spawn ------------------------------------------------------------------------------------

  /** The state in which task_spawn_user calls scheduler(). */
  function Forked(k: Kernel, slot: Tid, parent': Task): Kernel
    requires k.cur in k.tasks
  {
    var child := Task(k.nextUid, Ready, Awake, Some(k.cur), None, 0, false, k.tasks[k.cur].stdin, Fresh);
    k.(tasks := k.tasks[slot := child][k.cur := parent'], ring := [slot] + k.ring, nextUid := k.nextUid + 1)
  }

  function WaitingParent(k: Kernel, slot: Tid): Task
    requires k.cur in k.tasks
  {
    k.tasks[k.cur].(waiting := Some(slot), state := Sleeping, reason := WaitChild(k.cur),
                    pc := InSpawn(slot, k.nextUid))
  }

  lemma SpawnIsSchedule(k: Kernel, slot: Tid, mode: SpawnMode)
    requires k.cur in k.tasks && slot !in k.tasks
    ensures SpawnUser(k, slot, mode) ==
      Schedule(Forked(k, slot, if mode == Wait then WaitingParent(k, slot) else k.tasks[k.cur].(pc := Yielded)))
  {
    hide Schedule;
    var parent' := if mode == Wait then WaitingParent(k, slot) else k.tasks[k.cur].(pc := Yielded);
    var parent := k.tasks[k.cur];
    var child := Task(k.nextUid, Ready, Awake, Some(k.cur), None, 0, false, parent.stdin, Fresh);
    assert k.tasks[slot := child][k.cur := parent.(waiting := Some(slot), state := Sleeping)][k.cur := parent']
        == k.tasks[slot := child][k.cur := parent'];
  }

  lemma ForkedTask(k: Kernel, slot: Tid, parent': Task, t: Tid)
    requires Inv(k) && slot !in k.tasks && t in Forked(k, slot, parent').tasks
    requires parent' == WaitingParent(k, slot) || parent' == k.tasks[k.cur].(pc := Yielded)
    ensures TaskOk(Forked(k, slot, parent'), t)
  {
    hide NoDups;
    assert TaskOk(k, k.cur);
    if t != slot { assert TaskOk(k, t); }
  }

  lemma ForkedRing(k: Kernel, slot: Tid, parent': Task)
    requires RingOk(k) && slot !in k.tasks
    ensures RingOk(Forked(k, slot, parent'))
  {
    ConsNoDups(k.ring, slot);
  }

  lemma ConsNoDups(ring: seq<Tid>, s: Tid)
    requires NoDups(ring) && s !in ring
    ensures NoDups([s] + ring)
  {
    var r := [s] + ring;
    forall i, j | 0 <= i < j < |r| ensures r[i] != r[j] {
      assert r[j] == ring[j - 1];
      if i > 0 { assert r[i] == ring[i - 1]; }
    }
  }

  lemma SpawnKeeps(k: Kernel, slot: Tid, mode: SpawnMode)
    requires Inv(k) && k.cur != k.idle && slot !in k.tasks
    ensures SpawnUser(k, slot, mode).Ok? && Inv(SpawnUser(k, slot, mode).k)
  {
    hide TaskOk, Schedule, SpawnUser, NoDups;
    var parent' := if mode == Wait then WaitingParent(k, slot) else k.tasks[k.cur].(pc := Yielded);
    var k' := Forked(k, slot, parent');
    SpawnIsSchedule(k, slot, mode);
    ForkedRing(k, slot, parent');
    forall t | t in k'.tasks ensures TaskOk(k', t) { ForkedTask(k, slot, parent', t); }
    assert UidsOk(k') by {
      forall t | t in k.tasks ensures k.tasks[t].uid < k.nextUid { UidBelow(k, t); }
    }
    ScheduleOk(k');
  }

  lemma UidBelow(k: Kernel, t: Tid)
    requires Inv(k) && t in k.tasks
    ensures k.tasks[t].uid < k.nextUid
  { assert TaskOk(k, t); }

  // ---- Every step -----------------------------------------------------------------------------------

  lemma ResumeKeeps(k: Kernel)
    requires Inv(k) && k.tasks[k.cur].pc != Outside
    ensures ResumeStep(k).Ok? && Inv(ResumeStep(k).k)
  {
    hide Exit, ReadTty, NoDups, UidsOk, IfIdle;
    var x := k.tasks[k.cur];
    assert TaskOk(k, k.cur);
    SetPc(k, Outside);
    IfIdleOk(k);
    if x.pc != Fresh && x.pending { ExitKeeps(k, 0); }
    else if x.pc.InRead? { ReadKeeps(k, x.pc.tty); }
  }

  /** Scheduler run safety: from a state of the invariant, no enabled step fails an assertion or panics, and the
      invariant holds again. */
  lemma StepKeeps(k: Kernel, e: Event)
    requires Inv(k) && Enabled(k, e)
    ensures Step(k, e).Ok? && Inv(Step(k, e).k)
  {
    hide Inv, Schedule, Exit, SpawnUser, ReadTty, IfIdle, ResumeStep, Wakeup, Interrupt, EndLine;
    match e
    case Timer => YieldOk(k, Ticked);
    case ExitEvent(code) => ExitKeeps(k, code);
    case SpawnFails =>
    case SpawnEvent(slot, mode) => SpawnKeeps(k, slot, mode);
    case Read(tty) => ReadKeeps(k, tty);
    case LineEnd(tty, redraw) =>
      WakeDisplayKeeps(k);
      LineEndKeeps(Redraw(k, redraw), tty);
      IfIdleOk(EndLine(Redraw(k, redraw), tty));
    case InterruptKey(tty) =>
      InterruptKeeps(k, tty);
      IfIdleOk(Interrupt(k, tty));
    case OtherByte(redraw) =>
      WakeDisplayKeeps(k);
      IfIdleOk(Redraw(k, redraw));
    case RedrawDone => SleepKeeps(k, OnDisplay, InRedraw);
    case WakeDisplay =>
      WakeDisplayKeeps(k);
      IfIdleOk(Wakeup(k, OnDisplay));
    case Resume => ResumeKeeps(k);
  }
}
