/**
 The loops of the scheduler as written (src/kernel/scheduler.c, sleep.c, task.c): each method works
 on cur_thread, task_list and the task pool in place, and is proved to take the step that
 `Sched` describes.
 */
module Scheduler {
  import opened Common
  import opened Sched
  import Runs
  import RingList

  type Link = RingList.Link

  /** The links that task_list goes through: the head, and those of the threads in order. */
  ghost function Chain(head: Link, links: map<Tid, Link>, ring: seq<Tid>): (s: seq<Link>)
    ensures |s| == |ring| + 1
  {
    [head] + seq(|ring|, i requires 0 <= i < |ring| => if ring[i] in links then links[ring[i]] else head)
  }

  lemma ChainMembers(head: Link, links: map<Tid, Link>, ring: seq<Tid>)
    ensures forall l | l in Chain(head, links, ring) :: l == head || l in links.Values
    ensures forall t | t in links && t !in ring && links[t] != head && (forall u | u in links :: links[u].owner == u) ::
      links[t] !in Chain(head, links, ring)
  {
    var s := Chain(head, links, ring);
    forall i | 0 < i < |s| ensures s[i] == head || (ring[i - 1] in links && s[i] == links[ring[i - 1]]) {}
  }

  /** Clearing the parents that are in dead. */
  ghost function Freed(tasks: map<Tid, Task>, dead: set<Tid>): map<Tid, Task> {
    map t | t in tasks && t !in dead :: Orphan(tasks[t], dead)
  }

  class KernelState {
    /** task_list, and the links in the slots of the task pool. */
    const head: Link
    const links: map<Tid, Link>
    /** The threads on task_list, in order. */
    ghost var ring: seq<Tid>
    var tasks: map<Tid, Task>
    var cur: Tid
    var idle: Tid
    var loaded: Tid
    var ready: map<nat, bool>
    /** History, not part of the source: the number of tasks so far, and the codes they exited with. */
    var nextUid: nat
    ghost var exits: map<nat, nat>

    ghost function State(): Kernel
      reads this
    {
      Kernel(ring, tasks, cur, idle, loaded, ready, nextUid, exits)
    }

    /** The links from task_list on form a well-formed ring through the threads of ring. */
    ghost predicate Linked()
      reads this`ring, Chain(head, links, ring)
    {
      && (forall t | t in links :: links[t].owner == t && links[t] != head)
      && (forall t | t in ring :: t in links)
      && RingList.Ring(Chain(head, links, ring))
    }

    /** task_list holds exactly the live tasks. */
    ghost predicate Listed()
      reads this, Chain(head, links, ring)
    {
      Linked() && NoDups(ring) && (forall t :: t in ring <==> t in tasks) && cur in tasks
    }

    /** The i-th link of the list, or the head at its end. */
    ghost function At(i: nat): Link
      reads this`ring
    { if i < |ring| && ring[i] in links then links[ring[i]] else head }

    /** Following next. */
    lemma Next(i: nat)
      requires Linked() && i <= |ring|
      ensures i < |ring| ==> At(i) != head && At(i).owner == ring[i] && At(i).next == At(i + 1)
      ensures head.next == At(0) && At(|ring|) == head
    {
      var s := Chain(head, links, ring);
      if i < |ring| { assert s[i + 1] == At(i); }
      if i + 1 < |ring| { assert s[i + 2] == At(i + 1); }
      if |ring| > 0 { assert s[1] == At(0); }
    }

    /** list_init(&task_list), with an empty task pool. */
    constructor (head: Link, links: map<Tid, Link>, idle: Tid)
      requires forall t | t in links :: links[t].owner == t && links[t] != head
      modifies head
      ensures Linked() && ring == [] && tasks == map[] && this.head == head && this.links == links && this.idle == idle
      ensures ready == map[] && nextUid == 0 && exits == map[]
    {
      this.head, this.links, ring := head, links, [];
      tasks, cur, this.idle, loaded, ready, nextUid, exits := map[], idle, idle, idle, map[], 0, map[];
      new;
      RingList.Init(head);
      assert Chain(head, links, []) == [head];
    }

    /** init_scheduler (src/kernel/scheduler.c:132-161): the root task, the idle task, and with displays the renderer
        and their root tasks, each by task_spawn_kernel; then the switch to the root task. */
    method InitScheduler(displays: nat)
      requires Linked() && ring == [] && tasks == map[] && ready == map[] && nextUid == 0 && exits == map[] && idle == 1
      requires forall t: Tid | t < Runs.BootCount(displays) :: t in links
      modifies this, head, links.Values
      ensures Linked() && State() == Runs.BootKernel(displays)
    {
      hide RingList.Ring, Linked, Chain, Runs.BootRing, Runs.BootTasks;
      NoBootTasks();
      SpawnKernel(Some(0));
      SpawnKernel(None);
      if displays > 0 { SpawnDisplays(displays); }
      label spawned:
      loaded := 0;
      cur := 0;
      SameLinks@spawned();
    }

    /** The renderer, and a root task for each display. */
    method SpawnDisplays(displays: nat)
      requires Linked() && nextUid == 2 && ring == Runs.BootRing(2) && tasks == Runs.BootTasks(2)
      requires forall t: Tid | t < 3 + displays :: t in links
      modifies this`ring, this`tasks, this`nextUid, head, links.Values
      ensures Linked() && nextUid == 3 + displays && ring == Runs.BootRing(nextUid) && tasks == Runs.BootTasks(nextUid)
    {
      hide RingList.Ring, Linked, Chain, Runs.BootRing, Runs.BootTasks;
      SpawnKernel(None);
      for i := 0 to displays
        invariant Linked() && nextUid == 3 + i && ring == Runs.BootRing(nextUid) && tasks == Runs.BootTasks(nextUid)
      {
        SpawnKernel(Some(i + 1));
      }
    }

    lemma NoBootTasks()
      ensures Runs.BootRing(0) == [] && Runs.BootTasks(0) == map[]
    {}

    /** task_spawn_kernel during boot, when no task has ended: the next slot is free, and it gets the next place. */
    method SpawnKernel(stdin: Option<nat>)
      requires Linked() && ring == Runs.BootRing(nextUid) && tasks == Runs.BootTasks(nextUid) && nextUid in links
      requires stdin == Runs.BootStdin(nextUid)
      modifies this`ring, this`tasks, this`nextUid, head, links.Values
      ensures Linked() && nextUid == old(nextUid) + 1
      ensures ring == Runs.BootRing(nextUid) && tasks == Runs.BootTasks(nextUid)
    {
      hide RingList.Ring, Linked, Chain;
      AddChild(nextUid, Task(nextUid, Ready, Awake, None, None, 0, false, stdin, Fresh));
    }

    /** list_add of a thread's link to task_list: the thread becomes the first of the list. */
    method AddFirst(t: Tid)
      requires Linked() && t in links && t !in ring
      modifies this`ring, head, links.Values
      ensures Linked() && ring == [t] + old(ring)
    {
      ghost var s := Chain(head, links, ring);
      assert links[t] in links.Values;
      ChainMembers(head, links, ring);
      RingList.Add(links[t], head, s);
      assert Chain(head, links, [t] + ring) == [head, links[t]] + s[1..];
      ring := [t] + ring;
    }

    /** list_del of the i-th thread's link. */
    method Remove(l: Link, ghost i: nat)
      requires Linked() && i < |ring| && l == At(i)
      modifies this`ring, head, links.Values
      ensures Linked() && ring == old(ring)[..i] + old(ring)[i + 1..]
    {
      ghost var s := Chain(head, links, ring);
      assert s[i + 1] == l;
      ChainMembers(head, links, ring);
      RingList.Del(l, s, i + 1);
      ghost var ring' := ring[..i] + ring[i + 1..];
      assert Chain(head, links, ring') == s[..i + 1] + s[i + 2..];
      forall t | t in ring' ensures t in links { assert t in ring; }
      ring := ring';
    }

    /** Changes the fields of one task. */
    method Put(t: Tid, x: Task)
      requires Linked()
      modifies this`tasks
      ensures Linked() && tasks == old(tasks)[t := x]
    {
      tasks := tasks[t := x];
      SameLinks();
    }

    /** list_for_each_from with the test of find_runnable_thread: the first runnable thread from a link to the head. */
    method ForEachFrom(from: Link, ghost start: nat) returns (r: Option<Tid>)
      requires Listed() && start <= |ring| && from == At(start)
      ensures Linked()
      ensures var j := FirstFrom(State(), start); r == if j < |ring| then Some(ring[j]) else None
    {
      hide NoDups, RingList.Ring, Linked, At, Chain;
      ghost var k := State();
      var pos := from;
      ghost var i := start;
      while pos != head
        invariant Linked() && State() == k && i <= |ring| && pos == At(i) && FirstFrom(k, start) == FirstFrom(k, i)
        decreases |ring| - i
      {
        EndIsHead();
        Next(i);
        var t := pos.owner;
        if t != idle && tasks[t].state == Ready { return Some(t); }
        pos, i := pos.next, i + 1;
      }
      OnlyEndIsHead(i);
      return None;
    }

    /** find_runnable_thread: from the current thread's link on, then all around from the head, then idle. */
    method FindRunnableThread() returns (next: Tid)
      requires Listed()
      ensures Linked() && next == Pick(State())
    {
      hide NoDups, Pos, RingList.Ring, Linked, At, Chain, FirstFrom;
      ghost var p := Pos(ring, cur);
      Next(p);
      LinkOf(p);
      var r := ForEachFrom(links[cur].next, p + 1);
      if r.Some? { return r.value; }
      Next(0);
      r := ForEachFrom(head.next, 0);
      if r.Some? { return r.value; }
      return idle;
    }

    /** The links are as they were. */
    twostate lemma SameLinks()
      requires old(Linked()) && ring == old(ring)
      requires forall l | l in Chain(head, links, ring) :: l.next == old(l.next) && l.prev == old(l.prev)
      ensures Linked()
    {}

    lemma EndIsHead()
      ensures At(|ring|) == head
    {}

    lemma OnlyEndIsHead(i: nat)
      requires Linked() && i <= |ring| && At(i) == head
      ensures i == |ring|
    { Next(i); }

    lemma LinkOf(i: nat)
      requires Linked() && i < |ring|
      ensures ring[i] in links && At(i) == links[ring[i]]
    {}

    /** free_task's loop over the list, and the release of the slot (src/kernel/task.c:159-163, 174). */
    method FreeTask(t: Tid, ghost tasks0: map<Tid, Task>, ghost dead: set<Tid>)
      requires Linked() && t in tasks && t !in ring && (forall u :: u in ring <==> u in tasks && u != t)
      requires tasks == Freed(tasks0, dead)
      modifies this`tasks
      ensures Linked() && tasks == Freed(tasks0, dead + {t})
    {
      hide RingList.Ring, Linked, At, Chain, Freed;
      ghost var before := tasks;
      Next(0);
      var pos := head.next;
      ghost var i := 0;
      while pos != head
        invariant Linked() && i <= |ring| && pos == At(i) && tasks.Keys == before.Keys
        invariant forall u | u in tasks :: tasks[u] == if u in ring[..i] then Orphan(before[u], {t}) else before[u]
        decreases |ring| - i
      {
        EndIsHead();
        Next(i);
        var u := pos.owner;
        assert ring[..i + 1] == ring[..i] + [u] && u in ring;
        if tasks[u].parent == Some(t) { Put(u, tasks[u].(parent := None)); }
        pos, i := pos.next, i + 1;
      }
      OnlyEndIsHead(i);
      assert ring[..|ring|] == ring;
      FreedMore(tasks0, dead, before, tasks, t);
      label freed:
      tasks := tasks - {t};
      SameLinks@freed();
    }

    /** One turn of reap_zombies: pos.next is read before the thread of pos may leave the list. */
    method ReapTurn(pos: Link, ghost k: Kernel, ghost dead: set<Tid>, ghost n: nat, ghost p: nat)
      returns (tmp: Link, ghost dead': set<Tid>, ghost p': nat)
      requires Linked() && Walking(k, ring, tasks, dead, n, p) && p < |ring| && pos == At(p) && cur == k.cur
      modifies this`ring, this`tasks, head, links.Values
      ensures Linked() && n < |k.ring| && p' <= |ring| && Walking(k, ring, tasks, dead', n + 1, p') && tmp == At(p')
    {
      hide Without, Freed, Dead, NoDups, Walking, RingList.Ring, Linked, Chain;
      Next(p);
      WalkFacts(k, ring, tasks, dead, n, p);
      tmp, dead', p' := pos.next, dead, p;
      var t := pos.owner;
      if t != cur && tasks[t].state == Zombie {
        RemoveStep(k, ring, tasks, dead, n, p);
        Remove(pos, p);
        FreeTask(t, k.tasks, dead);
        dead' := dead + {t};
      } else {
        KeepStep(k, ring, tasks, dead, n, p);
        p' := p + 1;
      }
    }

    /** reap_zombies: the list is walked while zombies are removed from it. */
    method ReapZombies()
      requires Listed()
      modifies this`ring, this`tasks, head, links.Values
      ensures Linked() && State() == Reap(old(State()))
    {
      hide Without, Freed, Dead, NoDups, Reap, Walking, RingList.Ring, Linked, Chain, At;
      ghost var k := State();
      ghost var dead := {};
      Next(0);
      var pos := head.next;
      ghost var n: nat, p: nat := 0, 0;
      WalkStart(k);
      while pos != head
        invariant n <= |k.ring| && p <= |ring| && Walking(k, ring, tasks, dead, n, p) && Linked() && pos == At(p)
        invariant cur == k.cur && idle == k.idle && loaded == k.loaded && ready == k.ready
        invariant nextUid == k.nextUid && exits == k.exits
        decreases |k.ring| - n
      {
        if p == |ring| { EndIsHead(); }
        pos, dead, p := ReapTurn(pos, k, dead, n, p);
        n := n + 1;
      }
      OnlyEndIsHead(p);
      WalkDone(k, ring, tasks, dead, n, p);
      ReapIs(k);
    }

    /** wakeup (src/kernel/sleep.c:18-31). */
    method WakeupAll(r: Reason)
      requires Listed()
      modifies this`tasks
      ensures Linked() && State() == Wakeup(old(State()), r)
    {
      hide Wakeup, WakeTask, NoDups;
      hide RingList.Ring, Linked, At, Chain;
      ghost var tasks0 := tasks;
      Next(0);
      var pos := head.next;
      ghost var i := 0;
      while pos != head
        invariant Linked() && i <= |ring| && pos == At(i) && tasks.Keys == tasks0.Keys
        invariant forall t | t in tasks :: tasks[t] == if t in ring[..i] then WakeTask(tasks0[t], r) else tasks0[t]
        decreases |ring| - i
      {
        EndIsHead();
        Next(i);
        var t := pos.owner;
        assert ring[..i + 1] == ring[..i] + [t] && t !in ring[..i] by { NotBefore(ring, i); }
        if tasks[t].state == Sleeping && tasks[t].reason == r {
          Put(t, tasks[t].(reason := Awake, state := Ready));
        }
        WakeTaskIs(tasks0[t], r);
        pos, i := pos.next, i + 1;
      }
      OnlyEndIsHead(i);
      assert ring[..|ring|] == ring;
      WakeupIs(old(State()), tasks, r);
    }

    /** scheduler() up to the context switch. False where an assertion of the source fails. */
    method CallScheduler() returns (ok: bool)
      requires Listed()
      modifies this`ring, this`tasks, this`cur, this`loaded, head, links.Values
      ensures Linked() && Schedule(old(State())) == if ok then Ok(State()) else Panic
    {
      hide RingList.Ring, Linked, At, Chain, NoDups, Reap, Pick;
      ReapZombies();
      ReapListed(old(State()));
      var next := FindRunnableThread();
      label found:
      if next !in tasks || tasks[next].state != Ready { return false; }
      loaded := next;
      cur := next;
      SameLinks@found();
      return true;
    }

    /** sleep (src/kernel/sleep.c:5-12) up to the context switch. */
    method SleepOn(r: Reason, pc: Pc) returns (ok: bool)
      requires Listed()
      modifies this`ring, this`tasks, this`cur, this`loaded, head, links.Values
      ensures Linked() && Sleep(old(State()), r, pc) == if ok then Ok(State()) else Panic
    {
      hide RingList.Ring, Linked, At, Chain, NoDups, Schedule;
      Put(cur, tasks[cur].(state := Sleeping, reason := r, pc := pc));
      ok := CallScheduler();
    }

    /** The first half of task_exit (src/kernel/task.c:178-182): a waiting parent gets the code and is woken. */
    method NotifyParent(code: nat)
      requires Listed()
      modifies this`tasks
      ensures Linked() && tasks.Keys == old(tasks).Keys && State() == Notify(old(State()), cur, code)
    {
      hide RingList.Ring, Linked, At, Chain, NoDups;
      var p := tasks[cur].parent;
      if p.Some? && p.value in tasks && tasks[p.value].state == Sleeping && tasks[p.value].waiting == Some(cur) {
        Put(p.value, tasks[p.value].(waiting := None, exitCode := code));
        WakeupAll(WaitChild(p.value));
      }
    }

    /** task_exit (src/kernel/task.c:177-185) of the current task, up to the context switch. */
    method TaskExit(code: nat) returns (ok: bool)
      requires Listed()
      modifies this`ring, this`tasks, this`cur, this`loaded, this`exits, head, links.Values
      ensures Linked() && Exit(old(State()), code) == if ok then Ok(State()) else Panic
    {
      hide RingList.Ring, Linked, At, Chain, NoDups, Schedule, Notify;
      NotifyParent(code);
      ghost var uid := tasks[cur].uid;
      Put(cur, tasks[cur].(state := Zombie, pc := InExit));
      label marked:
      exits := exits[uid := code];
      SameLinks@marked();
      ok := CallScheduler();
    }

    /** task_interrupt_by_tty (src/kernel/task.c:125-146). */
    method TaskInterruptByTty(tty: nat)
      requires Listed()
      modifies this`tasks
      ensures Linked() && State() == Interrupt(old(State()), tty)
    {
      hide Interrupt, NoDups;
      hide RingList.Ring, Linked, At, Chain;
      ghost var tasks0 := tasks;
      Next(0);
      var pos := head.next;
      ghost var i := 0;
      while pos != head
        invariant Linked() && i <= |ring| && pos == At(i) && tasks.Keys == tasks0.Keys
        invariant forall t | t in tasks :: tasks[t] == if t in ring[..i] then Marked(tasks0[t], tty) else tasks0[t]
        decreases |ring| - i
      {
        EndIsHead();
        Next(i);
        var t := pos.owner;
        assert ring[..i + 1] == ring[..i] + [t] && t !in ring[..i] by { NotBefore(ring, i); }
        if tasks[t].state == Ready && tasks[t].stdin == Some(tty) { Put(t, tasks[t].(pending := true)); }
        pos, i := pos.next, i + 1;
      }
      OnlyEndIsHead(i);
      assert ring[..|ring|] == ring;
      InterruptIs(old(State()), tasks, tty);
    }

    /** task_spawn_user (src/kernel/task.c:92-117) once the child is built in a free slot, up to the context switch. */
    method TaskSpawnUser(slot: Tid, mode: SpawnMode) returns (ok: bool)
      requires Listed() && slot !in tasks && slot in links
      modifies this`ring, this`tasks, this`cur, this`loaded, this`nextUid, head, links.Values
      ensures Linked() && SpawnUser(old(State()), slot, mode) == if ok then Ok(State()) else Panic
    {
      hide Schedule, NoDups, SpawnUser, RingList.Ring, Linked, At, Chain;
      SpawnIsSchedule(State(), slot, mode);
      ConsNoDups(ring, slot);
      var parent, childUid := tasks[cur], nextUid;
      AddChild(slot, Task(childUid, Ready, Awake, Some(cur), None, 0, false, parent.stdin, Fresh));
      if mode == NoWait {
        Put(cur, parent.(pc := Yielded));
      } else {
        Put(cur, parent.(waiting := Some(slot), state := Sleeping, reason := WaitChild(cur),
                         pc := InSpawn(slot, childUid)));
      }
      ok := CallScheduler();
    }

    /** The new task in its slot and on the list; history counts it. */
    method AddChild(slot: Tid, child: Task)
      requires Linked() && slot in links && slot !in ring
      modifies this`ring, this`tasks, this`nextUid, head, links.Values
      ensures Linked() && ring == [slot] + old(ring) && tasks == old(tasks)[slot := child]
        && nextUid == old(nextUid) + 1
    {
      hide RingList.Ring, Linked, Chain;
      Put(slot, child);
      AddFirst(slot);
      label added:
      nextUid := nextUid + 1;
      SameLinks@added();
    }
  }

  // ---- Proof steps -----------------------------------------------------------------------------

  lemma NotBefore(ring: seq<Tid>, i: nat)
    requires NoDups(ring) && i < |ring|
    ensures ring[..i + 1] == ring[..i] + [ring[i]] && ring[i] !in ring[..i]
  {}

  lemma {:induction false} PosIs(ring: seq<Tid>, t: Tid, i: nat)
    requires i < |ring| && ring[i] == t && t !in ring[..i]
    ensures t in ring && Pos(ring, t) == i
  {
    if i > 0 {
      assert ring[..i][0] == ring[0] && ring[0] != t;
      var tail := ring[1..];
      assert tail[i - 1] == t;
      assert t !in tail[..i - 1] by { assert forall j | 0 <= j < i - 1 :: tail[j] == ring[..i][j + 1]; }
      PosIs(tail, t, i - 1);
    }
  }

  lemma FreedMore(tasks0: map<Tid, Task>, dead: set<Tid>, before: map<Tid, Task>, after: map<Tid, Task>, t: Tid)
    requires before == Freed(tasks0, dead) && after.Keys == before.Keys && t in before
    requires forall u | u in after && u != t :: after[u] == Orphan(before[u], {t})
    ensures after - {t} == Freed(tasks0, dead + {t})
  {}

  /** reap_zombies has walked the first n threads of k.ring: the dead among them are gone, the cursor is behind the
      others. */
  ghost predicate Walking(k: Kernel, ring: seq<Tid>, tasks: map<Tid, Task>, dead: set<Tid>, n: nat, pos: nat) {
    && n <= |k.ring| && pos <= |ring|
    && ring == Without(k.ring[..n], dead) + k.ring[n..] && pos == |Without(k.ring[..n], dead)|
    && dead == (set t | t in Dead(k) && t in k.ring[..n])
    && tasks == Freed(k.tasks, dead)
    && NoDups(k.ring) && (forall t :: t in k.ring <==> t in k.tasks)
  }

  lemma WalkStart(k: Kernel)
    requires NoDups(k.ring) && (forall t :: t in k.ring <==> t in k.tasks)
    ensures Walking(k, k.ring, k.tasks, {}, 0, 0)
  {
    assert Freed(k.tasks, {}) == k.tasks;
    assert k.ring[..0] == [] && [] + k.ring[0..] == k.ring;
  }

  /** The thread under the cursor is the next one of the original list, still in the pool with its state. */
  lemma WalkFacts(k: Kernel, ring: seq<Tid>, tasks: map<Tid, Task>, dead: set<Tid>, n: nat, pos: nat)
    requires Walking(k, ring, tasks, dead, n, pos) && pos < |ring|
    ensures n < |k.ring| && ring[pos] == k.ring[n] && ring[pos] in tasks && ring[pos] in k.tasks && ring[pos] !in dead
    ensures tasks[ring[pos]].state == k.tasks[ring[pos]].state && tasks == Freed(k.tasks, dead)
  {
    NotBefore(k.ring, n);
  }

  lemma {:induction false} WithoutSame(ring: seq<Tid>, dead: set<Tid>, t: Tid)
    requires t !in ring
    ensures Without(ring, dead + {t}) == Without(ring, dead)
  { if |ring| > 0 { WithoutSame(ring[1..], dead, t); } }

  lemma {:induction false} WithoutLast(ring: seq<Tid>, t: Tid, dead: set<Tid>)
    ensures Without(ring + [t], dead) == Without(ring, dead) + (if t in dead then [] else [t])
  {
    if |ring| > 0 {
      assert (ring + [t])[1..] == ring[1..] + [t];
      WithoutLast(ring[1..], t, dead);
    } else {
      assert ring + [t] == [t];
    }
  }

  lemma RemoveStep(k: Kernel, ring: seq<Tid>, tasks: map<Tid, Task>, dead: set<Tid>, n: nat, pos: nat)
    requires Walking(k, ring, tasks, dead, n, pos) && pos < |ring| && n < |k.ring| && ring[pos] == k.ring[n]
    requires ring[pos] != k.cur && ring[pos] in k.tasks && k.tasks[ring[pos]].state == Zombie
    ensures var t := ring[pos]; var ring' := ring[..pos] + ring[pos + 1..];
      && |ring'| == |ring| - 1 && t !in ring' && (forall u :: u in ring' <==> u in tasks && u != t)
      && Walking(k, ring', Freed(k.tasks, dead + {t}), dead + {t}, n + 1, pos)
  {
    hide Without, Freed, NoDups, Dead;
    var t := k.ring[n];
    WalkFacts(k, ring, tasks, dead, n, pos);
    NotBefore(k.ring, n);
    WithoutLast(k.ring[..n], t, dead + {t});
    WithoutSame(k.ring[..n], dead, t);
    RemovedRing(k, ring, tasks, dead, n, pos);
    DeadMore(k, dead, n);
    CutAt(ring, Without(k.ring[..n], dead), k.ring, n);
  }

  /** The zombie under the cursor joins the dead. */
  lemma DeadMore(k: Kernel, dead: set<Tid>, n: nat)
    requires n < |k.ring| && dead == (set u | u in Dead(k) && u in k.ring[..n])
    requires k.ring[n] in k.tasks && k.tasks[k.ring[n]].state == Zombie && k.ring[n] != k.cur
    ensures dead + {k.ring[n]} == (set u | u in Dead(k) && u in k.ring[..n + 1])
  {
    assert k.ring[..n + 1] == k.ring[..n] + [k.ring[n]];
  }

  lemma CutAt(ring: seq<Tid>, front: seq<Tid>, all: seq<Tid>, n: nat)
    requires n < |all| && ring == front + all[n..]
    ensures ring[..|front|] + ring[|front| + 1..] == front + all[n + 1..]
  {}

  lemma RemovedRing(k: Kernel, ring: seq<Tid>, tasks: map<Tid, Task>, dead: set<Tid>, n: nat, pos: nat)
    requires Walking(k, ring, tasks, dead, n, pos) && pos < |ring| && n < |k.ring| && ring[pos] == k.ring[n]
    ensures var t := ring[pos]; var ring' := ring[..pos] + ring[pos + 1..];
      t !in ring' && forall u :: u in ring' <==> u in tasks && u != t
  {
    hide Freed, Dead, Without;
    var t := k.ring[n];
    var front := Without(k.ring[..n], dead);
    FreedKeys(k.tasks, dead);
    CutAt(ring, front, k.ring, n);
    NotBefore(k.ring, n);
    NotAfter(k.ring, n);
    forall u ensures u in front + k.ring[n + 1..] <==> u in tasks && u != t {
      SplitMembers(k.ring, n, u);
      assert u in front <==> u in k.ring[..n] && u !in dead;
    }
  }

  lemma FreedKeys(tasks: map<Tid, Task>, dead: set<Tid>)
    ensures Freed(tasks, dead).Keys == tasks.Keys - dead
  {}

  lemma NotAfter(ring: seq<Tid>, i: nat)
    requires NoDups(ring) && i < |ring|
    ensures ring[i] !in ring[i + 1..] && forall u | u in ring[..i] :: u !in ring[i + 1..]
  {}

  lemma SplitMembers(ring: seq<Tid>, i: nat, u: Tid)
    requires i < |ring|
    ensures u in ring <==> u in ring[..i] || u == ring[i] || u in ring[i + 1..]
  { assert ring == ring[..i] + [ring[i]] + ring[i + 1..]; }

  lemma KeepStep(k: Kernel, ring: seq<Tid>, tasks: map<Tid, Task>, dead: set<Tid>, n: nat, pos: nat)
    requires Walking(k, ring, tasks, dead, n, pos) && pos < |ring| && n < |k.ring| && ring[pos] == k.ring[n]
    requires ring[pos] == k.cur || (ring[pos] in k.tasks && k.tasks[ring[pos]].state != Zombie)
    ensures Walking(k, ring, tasks, dead, n + 1, pos + 1)
  {
    hide Without, Freed;
    NotBefore(k.ring, n);
    WithoutLast(k.ring[..n], k.ring[n], dead);
    var t := k.ring[n];
    assert t !in Dead(k);
    assert (set u | u in Dead(k) && u in k.ring[..n + 1]) == dead;
    assert k.ring[n..] == [t] + k.ring[n + 1..];
  }

  lemma ReapIs(k: Kernel)
    ensures Reap(k) == k.(ring := Without(k.ring, Dead(k)), tasks := Freed(k.tasks, Dead(k)))
  {}

  function Marked(x: Task, tty: nat): Task {
    if x.state == Ready && x.stdin == Some(tty) then x.(pending := true) else x
  }

  lemma InterruptIs(k: Kernel, tasks: map<Tid, Task>, tty: nat)
    requires tasks.Keys == k.tasks.Keys && forall t | t in tasks :: tasks[t] == Marked(k.tasks[t], tty)
    ensures Interrupt(k, tty) == k.(tasks := tasks)
  {}

  lemma WakeTaskIs(x: Task, r: Reason)
    ensures WakeTask(x, r) == if x.state == Sleeping && x.reason == r then x.(reason := Awake, state := Ready) else x
  {}

  lemma WakeupIs(k: Kernel, tasks: map<Tid, Task>, r: Reason)
    requires tasks.Keys == k.tasks.Keys && forall t | t in tasks :: tasks[t] == WakeTask(k.tasks[t], r)
    ensures Wakeup(k, r) == k.(tasks := tasks)
  {}

  lemma WalkDone(k: Kernel, ring: seq<Tid>, tasks: map<Tid, Task>, dead: set<Tid>, n: nat, pos: nat)
    requires Walking(k, ring, tasks, dead, n, pos) && pos == |ring|
    ensures ring == Without(k.ring, Dead(k)) && tasks == Freed(k.tasks, Dead(k))
  {
    assert n == |k.ring| && k.ring[..n] == k.ring;
    assert forall t | t in Dead(k) :: t in k.ring;
    assert dead == Dead(k);
  }

  lemma ReapListed(k: Kernel)
    requires NoDups(k.ring) && (forall t :: t in k.ring <==> t in k.tasks) && k.cur in k.tasks
    ensures NoDups(Reap(k).ring) && (forall t :: t in Reap(k).ring <==> t in Reap(k).tasks) && k.cur in Reap(k).tasks
  { WithoutNoDups(k.ring, Dead(k)); }
}
