/**
 Page ownership over whole histories of spawns, failed spawns and reaps (src/kernel/task.c): which tasks are there,
 which pages are allocated, and what each task finds in its memory.
 */
module PageRuns {
  import opened Common
  import opened Addr
  import opened Pte
  import opened PageTable
  import opened Vm
  import opened FreeTables
  import opened Windows
  import opened TaskMemory
  import opened Elf
  import opened Spawn
  import Args

  // ---- Histories -----------------------------------------------------------------------

  /** What can happen to tasks: task_spawn_user, task_spawn_kernel, or the reaping of a task. */
  datatype Event =
    | SpawnEvent(program: Option<Program>, args: seq<Args.Arg>) | KernelEvent | ReapEvent(id: nat)

  predicate GoodEvent(e: Event) {
    e.SpawnEvent? ==> Args.Fits(e.args) && (e.program.Some? ==> GoodImage(e.program.value.segs))
  }

  /** The event makes a task, memory and the task pool permitting. */
  predicate Succeeds(e: Event) {
    e.KernelEvent? || (e.SpawnEvent? && e.program.Some? && e.program.value.headerOk && ArgsOk(e.args))
  }

  /** The event looks for a slot of the task pool. */
  predicate NeedsSlot(e: Event) { e.KernelEvent? || (e.SpawnEvent? && e.program.Some?) }

  /** The slots in use after an event. */
  function After(live: set<nat>, e: Event): set<nat> {
    if e.ReapEvent? then live - {e.id}
    else if Succeeds(e) then live + {FirstFree(live, 0)}
    else live
  }

  /** The slots in use after a history: those spawned into and not reaped since. */
  function LiveAfter(live: set<nat>, events: seq<Event>): set<nat> {
    if |events| == 0 then live else After(LiveAfter(live, events[..|events| - 1]), events[|events| - 1])
  }

  /** The event that made each task which is there after a history and was made in it. */
  function MadeBy(live: set<nat>, events: seq<Event>): map<nat, Event> {
    if |events| == 0 then map[]
    else
      var front, e := events[..|events| - 1], events[|events| - 1];
      var made := MadeBy(live, front);
      if e.ReapEvent? then made - {e.id}
      else if Succeeds(e) then made[FirstFree(LiveAfter(live, front), 0) := e]
      else made
  }

  function Reaped(events: seq<Event>): set<nat> { set e | e in events && e.ReapEvent? :: e.id }

  // ---- What a history keeps -------------------------------------------------------------

  /** The memory of the machine at one moment. */
  datatype Memory = Memory(mem: Mem, data: Data, tables: Tables, backing: Backing, tasks: Tasks, alloc: set<nat>)

  ghost function Snapshot(pool: TaskPool): Memory
    requires pool.vm.heap.Valid()
    reads pool, pool.vm, pool.vm.heap.allocMap
  {
    Memory(pool.vm.mem, pool.data, pool.vm.tables, pool.backing, pool.tasks, pool.vm.heap.Allocated())
  }

  /** The pages of all tasks, and the allocated pages that are no task's. */
  ghost function AllOwned(s: Memory): set<nat> {
    set id, p | id in s.tasks && p in Owned(s.tables, s.backing, s.tasks[id]) :: p
  }

  ghost function Unowned(s: Memory): set<nat> { s.alloc - AllOwned(s) }

  ghost function SpaceTables(T: Tables, root: nat): Tables { map p | p in T && T[p].root == root :: T[p] }
  ghost function SpaceBacking(B: Backing, root: nat): Backing { map d | d in B && B[d].root == root :: B[d] }

  /** Task id owns the same pages, has the same mappings, and finds the same bytes in its memory. */
  ghost predicate Untouched(ops: PteOps, s0: Memory, s: Memory, id: nat)
    requires id in s0.tasks
  {
    && id in s.tasks && s.tasks[id] == s0.tasks[id]
    && var r := s0.tasks[id].root;
    && SpaceTables(s.tables, r) == SpaceTables(s0.tables, r)
    && SpaceBacking(s.backing, r) == SpaceBacking(s0.backing, r)
    && (forall v | InTable(v) :: Lookup(ops, s.mem, r, v) == Lookup(ops, s0.mem, r, v))
    && (forall d | d in SpaceBacking(s0.backing, r) && d in s0.data :: d in s.data && s.data[d] == s0.data[d])
  }

  /** Tasks not in gone are untouched, and the pages that are no task's stay the same. */
  ghost predicate Kept(ops: PteOps, s0: Memory, s: Memory, gone: set<nat>) {
    && Unowned(s) == Unowned(s0)
    && forall id | id in s0.tasks && id !in gone :: Untouched(ops, s0, s, id)
  }

  /** Task id finds in its memory what the event that made it put there: the program, a stack page and the arguments;
      or, in a kernel task, nothing outside the windows. */
  ghost predicate Finds(ops: PteOps, s: Memory, id: nat, e: Event) {
    && id in s.tasks
    && var root := s.tasks[id].root;
    match e
    case SpawnEvent(program, args) =>
      && program.Some? && ImageLoaded(ops, s.mem, s.data, root, program.value)
      && UserPages(ops, s.mem, s.data, root, args)
    case KernelEvent => EmptyUserHalf(ops, s.mem, root)
    case ReapEvent(_) => false
  }

  /** Every task made in the history finds its own. */
  ghost predicate AllFind(ops: PteOps, s: Memory, made: map<nat, Event>) {
    forall id | id in made :: Finds(ops, s, id, made[id])
  }

  lemma UntouchedTrans(ops: PteOps, s0: Memory, s1: Memory, s2: Memory, id: nat)
    requires id in s0.tasks && Untouched(ops, s0, s1, id) && Untouched(ops, s1, s2, id)
    ensures Untouched(ops, s0, s2, id)
  {
    hide Lookup, SpaceTables, SpaceBacking;
    var r := s0.tasks[id].root;
    forall v | InTable(v) ensures Lookup(ops, s2.mem, r, v) == Lookup(ops, s0.mem, r, v) {
      assert Lookup(ops, s1.mem, r, v) == Lookup(ops, s0.mem, r, v);
    }
  }

  lemma KeptTrans(ops: PteOps, s0: Memory, s1: Memory, s2: Memory, g1: set<nat>, g2: set<nat>)
    requires Kept(ops, s0, s1, g1) && Kept(ops, s1, s2, g2)
    ensures Kept(ops, s0, s2, g1 + g2)
  {
    hide Untouched, Unowned;
    forall id | id in s0.tasks && id !in g1 + g2 ensures Untouched(ops, s0, s2, id) {
      InBoth(ops, s0, s1, id);
      UntouchedTrans(ops, s0, s1, s2, id);
    }
  }

  lemma InBoth(ops: PteOps, s0: Memory, s: Memory, id: nat)
    requires id in s0.tasks && Untouched(ops, s0, s, id)
    ensures id in s.tasks
  {}

  lemma KeptRefl(ops: PteOps, s: Memory, gone: set<nat>)
    ensures Kept(ops, s, s, gone)
  { hide Lookup; }

  /** What a task owns depends on its own space only. */
  lemma OwnedBySpace(T: Tables, T': Tables, B: Backing, B': Backing, t: TaskMem)
    requires SpaceTables(T, t.root) == SpaceTables(T', t.root) && SpaceBacking(B, t.root) == SpaceBacking(B', t.root)
    ensures Owned(T, B, t) == Owned(T', B', t)
  {
    assert forall p :: p in SpaceTables(T, t.root) <==> p in SpaceTables(T', t.root);
    assert forall d :: d in SpaceBacking(B, t.root) <==> d in SpaceBacking(B', t.root);
  }

  /** Leaving out one space does not change another. */
  lemma OtherSpace(T: Tables, B: Backing, root: nat, r: nat)
    requires r != root
    ensures SpaceTables(OtherTables(T, root), r) == SpaceTables(T, r)
    ensures SpaceBacking(OtherBacking(B, root), r) == SpaceBacking(B, r)
  {}

  // ---- The events -------------------------------------------------------------------------

  lemma RootsDiffer(ops: PteOps, s: Memory, id: nat, root: nat)
    requires TasksOk(ops, s.mem, s.tables, s.tasks) && id in s.tasks && root !in s.tables
    ensures s.tasks[id].root != root && IsRoot(s.tables, s.tasks[id].root)
  {}

  /** A new task in a space of its own touches no other task. */
  lemma SpawnUntouched(ops: PteOps, s0: Memory, s: Memory, child: nat, id: nat)
    requires TasksOk(ops, s0.mem, s0.tables, s0.tasks) && child !in s0.tasks && child in s.tasks
    requires s.tasks == s0.tasks[child := s.tasks[child]] && id in s0.tasks
    requires Apart(ops, s0.mem, s.mem, s0.data, s.data, s0.tables, s.tables, s0.backing, s.backing, s.tasks[child].root)
    ensures Untouched(ops, s0, s, id)
  {
    hide Lookup, TasksOk, SpaceTables, OtherTables, OtherBacking;
    var root := s.tasks[child].root;
    RootsDiffer(ops, s0, id, root);
    OtherSpace(s.tables, s.backing, root, s0.tasks[id].root);
  }

  /** One task more: its pages join those of the others. */
  lemma OwnedByAnyone(s: Memory, s': Memory, extra: nat)
    requires extra !in s.tasks && extra in s'.tasks && s'.tasks == s.tasks[extra := s'.tasks[extra]]
    requires forall id | id in s.tasks ::
      Owned(s'.tables, s'.backing, s.tasks[id]) == Owned(s.tables, s.backing, s.tasks[id])
    ensures AllOwned(s') == AllOwned(s) + Owned(s'.tables, s'.backing, s'.tasks[extra])
  {
    hide Owned;
    forall p ensures p in AllOwned(s') <==> p in AllOwned(s) || p in Owned(s'.tables, s'.backing, s'.tasks[extra]) {
      if p in AllOwned(s) {
        var id :| id in s.tasks && p in Owned(s.tables, s.backing, s.tasks[id]);
        assert s'.tasks[id] == s.tasks[id];
      }
      if p in AllOwned(s') {
        var id :| id in s'.tasks && p in Owned(s'.tables, s'.backing, s'.tasks[id]);
        assert id == extra || s'.tasks[id] == s.tasks[id];
      }
    }
  }

  lemma SpawnKept(ops: PteOps, s0: Memory, s: Memory, child: nat)
    requires TasksOk(ops, s0.mem, s0.tables, s0.tasks) && child !in s0.tasks && child in s.tasks
    requires s.tasks == s0.tasks[child := s.tasks[child]] && AllOwned(s0) <= s0.alloc
    requires Apart(ops, s0.mem, s.mem, s0.data, s.data, s0.tables, s.tables, s0.backing, s.backing, s.tasks[child].root)
    requires OnlyTask(s0.alloc, s.alloc, s.tables, s.backing, s.tasks[child])
    ensures Kept(ops, s0, s, {})
  {
    hide TasksOk, Apart, Untouched, Owned;
    forall id | id in s0.tasks ensures Untouched(ops, s0, s, id) { SpawnUntouched(ops, s0, s, child, id); }
    forall id | id in s0.tasks
      ensures Owned(s.tables, s.backing, s0.tasks[id]) == Owned(s0.tables, s0.backing, s0.tasks[id])
    { SameOwned(ops, s0, s, id); }
    OwnedByAnyone(s0, s, child);
  }

  lemma SameOwned(ops: PteOps, s0: Memory, s: Memory, id: nat)
    requires id in s0.tasks && Untouched(ops, s0, s, id)
    ensures id in s.tasks && s.tasks[id] == s0.tasks[id]
    ensures Owned(s.tables, s.backing, s0.tasks[id]) == Owned(s0.tables, s0.backing, s0.tasks[id])
  {
    hide Owned, SpaceTables, SpaceBacking, Lookup;
    OwnedBySpace(s.tables, s0.tables, s.backing, s0.backing, s0.tasks[id]);
  }

  /** A failed spawn touches nothing. */
  lemma FailKept(ops: PteOps, s0: Memory, s: Memory)
    requires s.tasks == s0.tasks && s.alloc == s0.alloc && TasksOk(ops, s0.mem, s0.tables, s0.tasks)
    requires SameSpaces(ops, s0.mem, s.mem, s0.data, s.data, s0.tables, s.tables, s0.backing, s.backing)
    ensures Kept(ops, s0, s, {})
  {
    hide Lookup, Owned, SpaceTables;
    assert AllOwned(s) == AllOwned(s0);
    forall id | id in s0.tasks ensures Untouched(ops, s0, s, id) { TaskFacts(ops, s0.mem, s0.tables, s0.tasks, id); }
  }

  /** The tasks own disjoint pages. */
  lemma OwnedDisjoint(ops: PteOps, s: Memory, boot: set<nat>, a: nat, b: nat)
    requires TasksOk(ops, s.mem, s.tables, s.tasks) && Partition(s.alloc, s.tables, s.backing, Stacks(s.tasks), boot)
    requires a in s.tasks && b in s.tasks && a != b
    ensures Owned(s.tables, s.backing, s.tasks[a]) !! Owned(s.tables, s.backing, s.tasks[b])
  {
    hide TasksOk, Partition, Owned;
    forall p | p in Owned(s.tables, s.backing, s.tasks[a]) && p in Owned(s.tables, s.backing, s.tasks[b])
        ensures false {
      assert Owns(s.tables, s.backing, s.tasks, boot, TaskOwner(a), p);
      assert Owns(s.tables, s.backing, s.tasks, boot, TaskOwner(b), p);
      OneOwner(ops, s.mem, s.alloc, s.tables, s.backing, s.tasks, boot, p, TaskOwner(a), TaskOwner(b));
    }
  }

  lemma AllOwnedAllocated(s: Memory, boot: set<nat>)
    requires Partition(s.alloc, s.tables, s.backing, Stacks(s.tasks), boot)
    ensures AllOwned(s) <= s.alloc
  {
    hide Partition;
    forall id | id in s.tasks ensures Owned(s.tables, s.backing, s.tasks[id]) <= s.alloc {
      OwnedAllocated(s.alloc, s.tables, s.backing, s.tasks, boot, id);
    }
  }

  /** Reaping a task frees its pages and touches no other task. */
  lemma ReapKept(ops: PteOps, s0: Memory, s: Memory, boot: set<nat>, gone: nat)
    requires TasksOk(ops, s0.mem, s0.tables, s0.tasks)
      && Partition(s0.alloc, s0.tables, s0.backing, Stacks(s0.tasks), boot)
    requires gone in s0.tasks && s.tasks == s0.tasks - {gone} && s.data == s0.data
    requires s.tables == OtherTables(s0.tables, s0.tasks[gone].root)
    requires s.backing == OtherBacking(s0.backing, s0.tasks[gone].root)
    requires OthersSame(ops, s0.mem, s.mem, s0.tables, s0.tasks[gone].root)
    requires s.alloc == s0.alloc - Owned(s0.tables, s0.backing, s0.tasks[gone])
    ensures Kept(ops, s0, s, {gone})
  {
    hide TasksOk, Untouched, Owned, Partition, OtherTables, OtherBacking, OthersSame;
    forall id | id in s0.tasks && id != gone
      ensures Untouched(ops, s0, s, id)
      ensures Owned(s.tables, s.backing, s0.tasks[id]) == Owned(s0.tables, s0.backing, s0.tasks[id])
      ensures Owned(s0.tables, s0.backing, s0.tasks[id]) !! Owned(s0.tables, s0.backing, s0.tasks[gone])
    {
      ReapUntouched(ops, s0, s, gone, id);
      SameOwned(ops, s0, s, id);
      OwnedDisjoint(ops, s0, boot, id, gone);
    }
    OwnedByAnyone(s, s0, gone);
  }

  lemma ReapUntouched(ops: PteOps, s0: Memory, s: Memory, gone: nat, id: nat)
    requires TasksOk(ops, s0.mem, s0.tables, s0.tasks) && id in s0.tasks && id != gone
    requires gone in s0.tasks && s.tasks == s0.tasks - {gone} && s.data == s0.data
    requires s.tables == OtherTables(s0.tables, s0.tasks[gone].root)
    requires s.backing == OtherBacking(s0.backing, s0.tasks[gone].root)
    requires OthersSame(ops, s0.mem, s.mem, s0.tables, s0.tasks[gone].root)
    ensures Untouched(ops, s0, s, id)
  {
    hide Lookup, HasWindows, LowUser, SpaceTables, OtherTables, OtherBacking;
    OtherSpace(s0.tables, s0.backing, s0.tasks[gone].root, s0.tasks[id].root);
  }

  /** One event. */
  method Happen(pool: TaskPool, e: Event) returns (r: Outcome)
    requires pool.Valid() && GoodEvent(e)
    modifies pool, pool.vm, pool.vm.heap.allocMap
    ensures r.NoSlot? ==> FirstFree(old(pool.tasks).Keys, 0) == MAX_TASKS && NeedsSlot(e)
    ensures r.OutOfMemory? ==> pool.Exhausted()
    ensures !Halts(r) ==>
      && pool.Valid() && pool.boot == old(pool.boot) && pool.tasks.Keys == After(old(pool.tasks).Keys, e)
      && Kept(pool.vm.ops, old(Snapshot(pool)), Snapshot(pool), Reaped([e]))
      && (Succeeds(e) ==> Finds(pool.vm.ops, Snapshot(pool), FirstFree(old(pool.tasks).Keys, 0), e))
  {
    hide TreeInv, Lawful, BackingInv, Partition, TasksOk, GoodImage, Owned, OnlyTask, OtherTables, OtherBacking,
        OthersSame;
    hide Apart, SameSpaces, Kept, AllOwned, ImageLoaded, FirstFree, UserPages, OldBytesKept, EmptyUserHalf, Args.Fits;
    ghost var s0 := Snapshot(pool);
    AllOwnedAllocated(s0, pool.boot);
    assert Reaped([e]) == if e.ReapEvent? then {e.id} else {};
    match e {
      case SpawnEvent(program, args) =>
        r := SpawnUser(pool, program, args);
        if r.Spawned? { FreeSlot(s0.tasks.Keys, r.id); SpawnKept(pool.vm.ops, s0, Snapshot(pool), r.id); }
        else if !Halts(r) { FailKept(pool.vm.ops, s0, Snapshot(pool)); }
      case KernelEvent =>
        r := SpawnKernel(pool);
        if r.Spawned? { FreeSlot(s0.tasks.Keys, r.id); SpawnKept(pool.vm.ops, s0, Snapshot(pool), r.id); }
      case ReapEvent(id) =>
        r := NoFile;
        if id in pool.tasks {
          var ok := pool.FreeTask(id);
          ReapKept(pool.vm.ops, s0, Snapshot(pool), pool.boot, id);
        } else {
          KeptRefl(pool.vm.ops, s0, {id});
        }
    }
  }

  /** How a history ends: all of it happened, or after n events the heap or the task pool was used up. */
  datatype Ending = Done | NoMemoryAt(n: nat) | NoSlotAt(n: nat)

  /** Page ownership over whole histories. After any history of spawns, failed spawns and reaps the tasks are exactly
      those spawned and not reaped; every allocated page has one owner (HasOwner, OneOwner); the pages that are no
      task's are the same as at the start; every task that was not reaped still has its pages, its mappings and the
      bytes in them; and every task made in the history finds its program, its stack and its arguments. The history
      stops early only with the heap or the task pool used up. */
  method RunHistory(pool: TaskPool, events: seq<Event>) returns (end: Ending)
    requires pool.Valid() && forall i | 0 <= i < |events| :: GoodEvent(events[i])
    modifies pool, pool.vm, pool.vm.heap.allocMap
    ensures end.NoMemoryAt? ==> end.n < |events| && pool.Exhausted()
    ensures end.NoSlotAt? ==>
      end.n < |events| && NeedsSlot(events[end.n])
      && FirstFree(LiveAfter(old(pool.tasks).Keys, events[..end.n]), 0) == MAX_TASKS
    ensures end.Done? ==>
      && pool.Valid() && pool.boot == old(pool.boot) && pool.tasks.Keys == LiveAfter(old(pool.tasks).Keys, events)
      && pool.vm.heap.Allocated() == old(Unowned(Snapshot(pool))) + AllOwned(Snapshot(pool))
      && Kept(pool.vm.ops, old(Snapshot(pool)), Snapshot(pool), Reaped(events))
      && AllFind(pool.vm.ops, Snapshot(pool), MadeBy(old(pool.tasks).Keys, events))
  {
    hide TreeInv, Lawful, BackingInv, Partition, TasksOk, GoodEvent, FirstFree, After, Kept, AllOwned, Finds, Succeeds;
    ghost var s0 := Snapshot(pool);
    KeptRefl(pool.vm.ops, s0, Reaped(events[..0]));
    for i := 0 to |events|
      invariant pool.Valid() && pool.boot == old(pool.boot) && pool.tasks.Keys == LiveAfter(s0.tasks.Keys, events[..i])
      invariant Kept(pool.vm.ops, s0, Snapshot(pool), Reaped(events[..i]))
      invariant AllFind(pool.vm.ops, Snapshot(pool), MadeBy(s0.tasks.Keys, events[..i]))
    {
      ghost var s1 := Snapshot(pool);
      var r := Happen(pool, events[i]);
      if r.OutOfMemory? { return NoMemoryAt(i); }
      if r.NoSlot? { return NoSlotAt(i); }
      KeptTrans(pool.vm.ops, s0, s1, Snapshot(pool), Reaped(events[..i]), Reaped([events[i]]));
      OneMore(s0.tasks.Keys, events, i);
      FindStep(pool.vm.ops, s1, Snapshot(pool), s0.tasks.Keys, events, i);
    }
    assert events[..|events|] == events;
    AllOwnedAllocated(Snapshot(pool), pool.boot);
    KeptUnowned(pool.vm.ops, s0, Snapshot(pool), Reaped(events));
    return Done;
  }

  /** One more event: tasks made before it still find their own, as does the one it makes. */
  lemma FindStep(ops: PteOps, s1: Memory, s: Memory, live: set<nat>, events: seq<Event>, i: nat)
    requires i < |events| && AllFind(ops, s1, MadeBy(live, events[..i])) && Kept(ops, s1, s, Reaped([events[i]]))
    requires TasksOk(ops, s1.mem, s1.tables, s1.tasks) && BackingInv(ops, s1.mem, s1.tables, s1.backing)
    requires Succeeds(events[i]) ==> Finds(ops, s, FirstFree(LiveAfter(live, events[..i]), 0), events[i])
    ensures AllFind(ops, s, MadeBy(live, events[..i + 1]))
  {
    hide Finds, Kept, TasksOk, BackingInv, Succeeds, FirstFree;
    var made, made' := MadeBy(live, events[..i]), MadeBy(live, events[..i + 1]);
    assert events[..i + 1][..i] == events[..i];
    forall id | id in made' ensures Finds(ops, s, id, made'[id]) {
      if Succeeds(events[i]) && !events[i].ReapEvent? && id == FirstFree(LiveAfter(live, events[..i]), 0) {
      } else {
        assert id in made && made'[id] == made[id];
        assert id !in Reaped([events[i]]) by { ReapedOne(events[i]); }
        StillFinds(ops, s1, s, Reaped([events[i]]), id, made[id]);
      }
    }
  }

  lemma ReapedOne(e: Event)
    ensures Reaped([e]) == if e.ReapEvent? then {e.id} else {}
  { assert e in [e]; }

  /** A task that is left alone still finds its own. */
  lemma StillFinds(ops: PteOps, s0: Memory, s: Memory, gone: set<nat>, id: nat, e: Event)
    requires Kept(ops, s0, s, gone) && id !in gone && Finds(ops, s0, id, e)
    requires TasksOk(ops, s0.mem, s0.tables, s0.tasks) && BackingInv(ops, s0.mem, s0.tables, s0.backing)
    ensures Finds(ops, s, id, e)
  {
    hide ImageLoaded, UserPages, EmptyUserHalf, Unowned, BackingInv, TasksOk, Untouched;
    assert Untouched(ops, s0, s, id);
    InBoth(ops, s0, s, id);
    SameOwned(ops, s0, s, id);
    TaskFacts(ops, s0.mem, s0.tables, s0.tasks, id);
    match e
    case SpawnEvent(program, args) =>
      ImageSurvives(ops, s0, s, gone, id, program.value);
      UserPagesSurvive(ops, s0, s, id, args);
    case KernelEvent => EmptyHalfSurvives(ops, s0, s, id);
    case ReapEvent(_) =>
  }

  lemma UserPagesSurvive(ops: PteOps, s0: Memory, s: Memory, id: nat, args: seq<Args.Arg>)
    requires id in s0.tasks && Untouched(ops, s0, s, id) && IsRoot(s0.tables, s0.tasks[id].root)
    requires BackingInv(ops, s0.mem, s0.tables, s0.backing)
    requires UserPages(ops, s0.mem, s0.data, s0.tasks[id].root, args)
    ensures UserPages(ops, s.mem, s.data, s0.tasks[id].root, args)
  {
    hide Lookup, Split, BackingInv, P2V, Args.Readable;
    var r := s0.tasks[id].root;
    PageIsBacked(ops, s0.mem, s0.tables, s0.backing, r, DEFAULT_ARG_LOCATION);
    SplitInTable(DEFAULT_ARG_LOCATION);
    SplitInTable(DEFAULT_USER_STACK);
  }

  lemma SplitInTable(va: nat)
    ensures InTable(Split(va))
  {}

  lemma EmptyHalfSurvives(ops: PteOps, s0: Memory, s: Memory, id: nat)
    requires id in s0.tasks && Untouched(ops, s0, s, id) && EmptyUserHalf(ops, s0.mem, s0.tasks[id].root)
    ensures EmptyUserHalf(ops, s.mem, s0.tasks[id].root)
  { hide Lookup, InSomeWindow, SpaceTables, SpaceBacking; }

  lemma OneMore(live: set<nat>, events: seq<Event>, i: nat)
    requires i < |events|
    ensures LiveAfter(live, events[..i + 1]) == After(LiveAfter(live, events[..i]), events[i])
    ensures Reaped(events[..i + 1]) == Reaped(events[..i]) + Reaped([events[i]])
  {
    hide After;
    assert events[..i + 1][..i] == events[..i] && events[..i + 1] == events[..i] + [events[i]];
  }

  lemma KeptUnowned(ops: PteOps, s0: Memory, s: Memory, gone: set<nat>)
    requires Kept(ops, s0, s, gone) && AllOwned(s) <= s.alloc
    ensures s.alloc == Unowned(s0) + AllOwned(s)
  {}

  /** A history that reaps exactly what it spawned restores alloc_map. */
  lemma HistoryRestores(ops: PteOps, s0: Memory, s: Memory, gone: set<nat>)
    requires Kept(ops, s0, s, gone) && AllOwned(s0) <= s0.alloc && AllOwned(s) <= s.alloc
    requires s.tasks.Keys == s0.tasks.Keys && gone !! s0.tasks.Keys
    ensures s.alloc == s0.alloc
  {
    hide Untouched, Owned;
    forall id | id in s0.tasks
      ensures s.tasks[id] == s0.tasks[id]
      ensures Owned(s.tables, s.backing, s0.tasks[id]) == Owned(s0.tables, s0.backing, s0.tasks[id])
    { SameOwned(ops, s0, s, id); }
    forall p ensures p in AllOwned(s) <==> p in AllOwned(s0) {
      if p in AllOwned(s0) {
        var id :| id in s0.tasks && p in Owned(s0.tables, s0.backing, s0.tasks[id]);
        assert s.tasks[id] == s0.tasks[id];
      }
      if p in AllOwned(s) {
        var id :| id in s.tasks && p in Owned(s.tables, s.backing, s.tasks[id]);
        assert s.tasks[id] == s0.tasks[id];
      }
    }
    assert s.alloc == Unowned(s) + AllOwned(s) && s0.alloc == Unowned(s0) + AllOwned(s0);
  }

  /** A loaded program stays in its task's memory, byte for byte, whatever is spawned or reaped beside it. */
  lemma ImageSurvives(ops: PteOps, s0: Memory, s: Memory, gone: set<nat>, id: nat, prog: Program)
    requires Kept(ops, s0, s, gone) && id in s0.tasks && id !in gone && IsRoot(s0.tables, s0.tasks[id].root)
    requires BackingInv(ops, s0.mem, s0.tables, s0.backing)
    requires ImageLoaded(ops, s0.mem, s0.data, s0.tasks[id].root, prog)
    ensures ImageLoaded(ops, s.mem, s.data, s0.tasks[id].root, prog)
  {
    hide Lookup, Split, PageImage, BackingInv, P2V, Unowned;
    var r := s0.tasks[id].root;
    assert Untouched(ops, s0, s, id);
    forall k | 0 <= k < |prog.segs|
      ensures PagesHold(ops, s.mem, s.data, r, prog.segs[k], prog.contents, NumPages(prog.segs[k]))
    {
      var g := prog.segs[k];
      assert PagesHold(ops, s0.mem, s0.data, r, g, prog.contents, NumPages(g));
      forall i | 0 <= i < NumPages(g)
        ensures PageHolds(ops, s.mem, s.data, r, PageAddr(g, i), PageImage(prog.contents, g.offset + SMALL * i))
      {
        assert PageHolds(ops, s0.mem, s0.data, r, PageAddr(g, i), PageImage(prog.contents, g.offset + SMALL * i));
        PageIsBacked(ops, s0.mem, s0.tables, s0.backing, r, PageAddr(g, i));
      }
    }
  }
}
