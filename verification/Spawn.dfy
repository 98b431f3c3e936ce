/** Page ownership over whole runs of spawn, failed spawn and reap (src/kernel/task.c). */
module Spawn {
  import opened Common
  import opened Addr
  import opened Pte
  import opened PageTable
  import opened Vm
  import opened FreeTables
  import opened Windows
  import opened TaskMemory
  import opened Elf
  import Args

  // ---- One owner per page ----------------------------------------------------------

  datatype Owner = TaskOwner(id: nat) | OtherSpace(root: nat) | Boot

  /** Who a page belongs to. Spaces that are no task's are those boot code made. */
  ghost predicate Owns(T: Tables, B: Backing, tasks: Tasks, boot: set<nat>, o: Owner, p: nat) {
    match o
    case TaskOwner(id) => id in tasks && p in Owned(T, B, tasks[id])
    case OtherSpace(r) => p in PagesOf(T, B, r) && forall id | id in tasks :: tasks[id].root != r
    case Boot => p in boot
  }

  /** Every allocated page has an owner. */
  lemma HasOwner(alloc: set<nat>, T: Tables, B: Backing, tasks: Tasks, boot: set<nat>, p: nat)
    requires Partition(alloc, T, B, Stacks(tasks), boot) && p in alloc
    ensures exists o :: Owns(T, B, tasks, boot, o, p)
  {
    if p in boot {
      assert Owns(T, B, tasks, boot, Boot, p);
    } else if p in Stacks(tasks) {
      var id :| id in tasks && tasks[id].kstack != 0 && tasks[id].kstack == p;
      assert Owns(T, B, tasks, boot, TaskOwner(id), p);
    } else {
      var r := if p in T then T[p].root else B[p].root;
      assert p in PagesOf(T, B, r);
      if id :| id in tasks && tasks[id].root == r {
        assert Owns(T, B, tasks, boot, TaskOwner(id), p);
      } else {
        assert Owns(T, B, tasks, boot, OtherSpace(r), p);
      }
    }
  }

  /** No page has two owners, and a free page has none. */
  lemma OneOwner(ops: PteOps, mem: Mem, alloc: set<nat>, T: Tables, B: Backing, tasks: Tasks, boot: set<nat>, p: nat,
                 o: Owner, o': Owner)
    requires Partition(alloc, T, B, Stacks(tasks), boot) && TasksOk(ops, mem, T, tasks)
    requires Owns(T, B, tasks, boot, o, p) && Owns(T, B, tasks, boot, o', p)
    ensures o == o' && p in alloc
  {
    hide HasWindows;
    forall id | id in tasks && tasks[id].kstack != 0 ensures tasks[id].kstack in Stacks(tasks) {}
  }

  // ---- Spawning ----------------------------------------------------------------------

  /** The executable named by a spawn: None if there is no such file. */
  datatype Program = Program(headerOk: bool, segs: seq<Segment>, contents: seq<nat>)

  /** How a spawn ends. For NoSlot and OutOfMemory the source stops: the task pool or the heap is used up. */
  datatype Outcome = NoSlot | OutOfMemory | NoFile | BadElf | BadArgs | Spawned(id: nat)

  /** Every argument can be copied in. */
  predicate ArgsOk(args: seq<Args.Arg>) { forall i | 0 <= i < |args| :: args[i].Some? }

  predicate Halts(r: Outcome) { r.NoSlot? || r.OutOfMemory? }

  lemma EmptyImage(ops: PteOps, mem: Mem, data: Data, root: nat, segs: seq<Segment>, contents: seq<nat>)
    requires EmptyUserHalf(ops, mem, root) && GoodImage(segs)
    ensures ImageLoading(ops, mem, data, root, segs, contents, 0)
  {
    hide Lookup, Split;
    forall k | 0 <= k < |segs| ensures PagesFree(ops, mem, root, segs[k], 0) {
      forall i | 0 <= i < NumPages(segs[k]) ensures Lookup(ops, mem, root, Split(PageAddr(segs[k], i))).Unmapped? {
        PageAddrOk(segs[k], i);
      }
    }
    LowVpn(DEFAULT_USER_STACK);
    LowVpn(DEFAULT_ARG_LOCATION);
  }

  /** The argument page is still free after the stack page is mapped. */
  lemma ArgPageFree(ops: PteOps, m: Mem, m': Mem, T: Tables, root: nat, pa: nat)
    requires Updated(ops, m, m', T, root, 0, Split(DEFAULT_USER_STACK), pa, User) && IsRoot(T, root)
    requires Lookup(ops, m, root, Split(DEFAULT_ARG_LOCATION)).Unmapped?
    ensures Lookup(ops, m', root, Split(DEFAULT_ARG_LOCATION)).Unmapped?
  {
    hide Lookup;
    PrefixZero(Split(DEFAULT_ARG_LOCATION), Split(DEFAULT_USER_STACK));
  }

  /** Every segment of the program is in place. */
  ghost predicate ImageLoaded(ops: PteOps, mem: Mem, data: Data, root: nat, prog: Program) {
    forall k | 0 <= k < |prog.segs| ::
      PagesHold(ops, mem, data, root, prog.segs[k], prog.contents, NumPages(prog.segs[k]))
  }

  /** Mapping a page that no segment holds keeps the image. */
  lemma ImageKept(ops: PteOps, m: Mem, m': Mem, data: Data, T: Tables, root: nat, prog: Program, va: nat, pa: nat)
    requires ImageLoaded(ops, m, data, root, prog) && GoodImage(prog.segs) && IsRoot(T, root)
    requires va == DEFAULT_USER_STACK || va == DEFAULT_ARG_LOCATION
    requires Updated(ops, m, m', T, root, 0, Split(va), pa, User)
    ensures ImageLoaded(ops, m', data, root, prog)
  {
    hide Lookup, Split, PageImage;
    forall k | 0 <= k < |prog.segs|
      ensures PagesHold(ops, m', data, root, prog.segs[k], prog.contents, NumPages(prog.segs[k]))
    {
      var s := prog.segs[k];
      assert PagesHold(ops, m, data, root, s, prog.contents, NumPages(s));
      forall i | 0 <= i < NumPages(s)
        ensures PageHolds(ops, m', data, root, PageAddr(s, i), PageImage(prog.contents, s.offset + SMALL * i))
      {
        assert PageHolds(ops, m, data, root, PageAddr(s, i), PageImage(prog.contents, s.offset + SMALL * i));
        PageAddrOk(s, i);
        DistinctPages(va, PageAddr(s, i));
        PrefixZero(Split(PageAddr(s, i)), Split(va));
      }
    }
  }

  // ---- Stack and arguments -------------------------------------------------------------

  /** The task can read its arguments: its table maps the argument page, and that page holds them. */
  ghost predicate ArgsIn(ops: PteOps, mem: Mem, data: Data, root: nat, args: seq<Args.Arg>) {
    var p := UserPageAt(ops, mem, root, DEFAULT_ARG_LOCATION);
    p.Some? && p.value in data && Args.Readable(data[p.value], args, |args|)
  }

  /** The task has a stack page, and its arguments. */
  ghost predicate UserPages(ops: PteOps, mem: Mem, data: Data, root: nat, args: seq<Args.Arg>) {
    UserPageAt(ops, mem, root, DEFAULT_USER_STACK).Some? && ArgsIn(ops, mem, data, root, args)
  }

  /** What the task can read of earlier owners' bytes: all of its stack page, and of its argument page what lies behind
      the pointer table and outside the copies of the arguments. Neither page is zeroed. */
  ghost predicate OldBytesKept(ops: PteOps, mem: Mem, data: Data, data': Data, root: nat, args: seq<Args.Arg>) {
    var s, p := UserPageAt(ops, mem, root, DEFAULT_USER_STACK), UserPageAt(ops, mem, root, DEFAULT_ARG_LOCATION);
    && (s.Some? ==> SameBytes(data, data', s.value))
    && (p.Some? ==> OldArgBytes(data, data', p.value, args))
  }

  ghost predicate OldArgBytes(data: Data, data': Data, page: nat, args: seq<Args.Arg>) {
    page in data && page in data' && |data[page]| == SMALL ==> Args.OldBytes(data[page], data'[page], args, |args|)
  }

  /** A byte of a user page, read through the table. */
  lemma ByteOfPage(ops: PteOps, mem: Mem, data: Data, root: nat, page: nat, va: nat)
    requires page % SMALL == 0 && page <= va < page + SMALL && va < VA_SPACE
    requires var p := UserPageAt(ops, mem, root, page); p.Some? && p.value in data && |data[p.value]| == SMALL
    ensures UserByteAt(ops, mem, data, root, va)
         == Some(data[UserPageAt(ops, mem, root, page).value][va - page])
  {
    hide Lookup, Split;
    assert va / SMALL == page / SMALL && va % SMALL == va - page;
    DistinctPages(va, page);
  }

  /** The bytes from va on, as user code reads them. */
  ghost predicate Reads(ops: PteOps, mem: Mem, data: Data, root: nat, va: nat, bytes: seq<nat>) {
    forall k | 0 <= k < |bytes| :: UserByteAt(ops, mem, data, root, va + k) == Some(bytes[k])
  }

  /** A part of a user page is what user code reads there. */
  lemma PartOfPage(ops: PteOps, mem: Mem, data: Data, root: nat, page: nat, off: nat, n: nat)
    requires page % SMALL == 0 && page + SMALL <= VA_SPACE && off + n <= SMALL
    requires var p := UserPageAt(ops, mem, root, page); p.Some? && p.value in data && |data[p.value]| == SMALL
    ensures Reads(ops, mem, data, root, page + off,
                  data[UserPageAt(ops, mem, root, page).value][off..][..n])
  {
    hide UserPageAt, UserByteAt;
    forall k | 0 <= k < n
      ensures UserByteAt(ops, mem, data, root, page + off + k)
           == Some(data[UserPageAt(ops, mem, root, page).value][off..][..n][k])
    {
      ByteOfPage(ops, mem, data, root, page, page + off + k);
    }
  }

  lemma ReadableFacts(page: seq<nat>, args: seq<Args.Arg>, i: nat)
    requires Args.Readable(page, args, |args|) && i < |args|
    ensures i < Args.MAX_ARGS && |page| == SMALL && Args.ReadableAt(page, args, i)
  {
    hide Args.ReadableAt;
    assert Args.ReadableAt(page, args, i);
    IndexBelow(page, args, i);
  }

  lemma IndexBelow(page: seq<nat>, args: seq<Args.Arg>, i: nat)
    requires i < |args| && |page| == SMALL && Args.ReadableAt(page, args, i)
    ensures i < Args.MAX_ARGS
  {}

  /** The text behind a pointer, with its zero. */
  lemma TextOfPage(page: seq<nat>, args: seq<Args.Arg>, i: nat)
    requires i < |args| && |page| == SMALL && Args.ReadableAt(page, args, i)
    ensures var o, text := Args.Pointer(page, i) - DEFAULT_ARG_LOCATION, Args.Text(args[i]);
      0 <= o && o + |text| + 1 <= SMALL && page[o..][..|text| + 1] == text + [0]
  {
    hide Args.Offset, Args.Value;
    var o, text := Args.Pointer(page, i) - DEFAULT_ARG_LOCATION, Args.Text(args[i]);
    var rest := page[o..];
    assert Args.CString(rest) == text && |text| < |rest|;
    assert rest[..|text| + 1] == rest[..|text|] + [rest[|text|]];
  }

  /** The argv round trip. At DEFAULT_ARG_LOCATION user code reads the table of pointers: the i-th is 8-aligned, and
      behind it user code reads a string equal to argv_in[i] and its zero. */
  lemma ArgvRoundTrip(ops: PteOps, mem: Mem, data: Data, root: nat, args: seq<Args.Arg>, i: nat)
    returns (word: seq<nat>, ptr: nat)
    requires ArgsIn(ops, mem, data, root, args) && i < |args|
    ensures args[i].Some? && |word| == 8 && Args.Value(word) == ptr && ptr % 8 == 0
    ensures Reads(ops, mem, data, root, 0x7000_0000 + 8 * i, word) && 0x7000_0100 <= ptr < 0x7000_1000
    ensures Reads(ops, mem, data, root, ptr, Args.Text(args[i]) + [0])
  {
    hide UserPageAt, Reads, Args.Value, Args.Offset, Args.CString, Args.Readable;
    var page := data[UserPageAt(ops, mem, root, DEFAULT_ARG_LOCATION).value];
    ReadableFacts(page, args, i);
    word, ptr := page[8 * i..][..8], Args.Pointer(page, i);
    PartOfPage(ops, mem, data, root, DEFAULT_ARG_LOCATION, 8 * i, 8);
    TextOfPage(page, args, i);
    PartOfPage(ops, mem, data, root, DEFAULT_ARG_LOCATION, ptr - DEFAULT_ARG_LOCATION, |Args.Text(args[i])| + 1);
  }

  /** The table ends with NULL. */
  lemma ArgvEnds(ops: PteOps, mem: Mem, data: Data, root: nat, args: seq<Args.Arg>) returns (word: seq<nat>)
    requires ArgsIn(ops, mem, data, root, args) && |args| < Args.MAX_ARGS
    ensures |word| == 8 && Args.Value(word) == 0
    ensures Reads(ops, mem, data, root, 0x7000_0000 + 8 * |args|, word)
  {
    hide UserPageAt, Reads, Args.Value, Args.ReadableAt;
    var page := data[UserPageAt(ops, mem, root, DEFAULT_ARG_LOCATION).value];
    word := page[8 * |args|..][..8];
    assert Args.Pointer(page, |args|) == 0;
    PartOfPage(ops, mem, data, root, DEFAULT_ARG_LOCATION, 8 * |args|, 8);
  }

  /** The user stack is the page at 0x7FFF_F000: user code has a page at every address in it. */
  lemma StackAddresses(ops: PteOps, mem: Mem, data: Data, root: nat, args: seq<Args.Arg>, va: nat)
    requires UserPages(ops, mem, data, root, args) && 0x7FFF_F000 <= va < 0x8000_0000
    ensures UserPageAt(ops, mem, root, va).Some?
    ensures UserPageAt(ops, mem, root, va) == UserPageAt(ops, mem, root, 0x7FFF_F000)
  {
    hide Lookup, Split;
    DistinctPages(va, DEFAULT_USER_STACK);
  }

  /** A page mapped for user code at a small address. */
  lemma MappedUserPage(ops: PteOps, m: Mem, m': Mem, T: Tables, root: nat, va: nat, page: nat)
    requires Updated(ops, m, m', T, root, 0, Split(va), V2P(page), User) && IsRoot(T, root) && KernPtr(page)
    ensures UserPageAt(ops, m', root, va) == Some(page)
  {
    hide Lookup, Split, P2V, V2P;
    KernPtrRoundTrip(page);
    assert Maps(Lookup(ops, m', root, Split(va)), 0, V2P(page), User);
  }

  /** Mapping the argument page leaves the stack page. */
  lemma StackPageStays(ops: PteOps, m: Mem, m': Mem, T: Tables, root: nat, pa: nat)
    requires Updated(ops, m, m', T, root, 0, Split(DEFAULT_ARG_LOCATION), pa, User) && IsRoot(T, root)
    ensures UserPageAt(ops, m', root, DEFAULT_USER_STACK) == UserPageAt(ops, m, root, DEFAULT_USER_STACK)
  {
    hide Lookup;
    PrefixZero(Split(DEFAULT_ARG_LOCATION), Split(DEFAULT_USER_STACK));
  }

  /** Freeing the one task that holds everything allocated since alloc brings the heap back to alloc. */
  lemma Restored(alloc: set<nat>, a: set<nat>, T: Tables, B: Backing, t: TaskMem)
    requires OnlyTask(alloc, a, T, B, t)
    ensures a - Owned(T, B, t) == alloc
  {}

  /** Tables, pages, mappings and bytes are as before, of every address space. */
  ghost predicate SameSpaces(ops: PteOps, m: Mem, m': Mem, data: Data, data': Data, T: Tables, T': Tables,
                             B: Backing, B': Backing) {
    T' == T && B' == B && SameLookups(ops, m, m', T) && OldDataKept(data, data', B)
  }

  /** Freeing a task in a space of its own undoes its making. */
  lemma Undone(ops: PteOps, m0: Mem, m1: Mem, m2: Mem, d0: Data, d1: Data, T0: Tables, T1: Tables, T2: Tables,
               B0: Backing, B1: Backing, B2: Backing, alloc: set<nat>, a: set<nat>, t: TaskMem)
    requires Apart(ops, m0, m1, d0, d1, T0, T1, B0, B1, t.root) && OnlyTask(alloc, a, T1, B1, t)
    requires T2 == OtherTables(T1, t.root) && B2 == OtherBacking(B1, t.root) && OthersSame(ops, m1, m2, T1, t.root)
    ensures SameSpaces(ops, m0, m2, d0, d1, T0, T2, B0, B2) && a - Owned(T1, B1, t) == alloc
  {
    hide Lookup, OtherTables, OtherBacking, PagesOf, SameLookups, OthersSame, OldDataKept;
    ApartFreed(ops, m0, m1, m2, d0, d1, T0, T1, B0, B1, t.root);
    Restored(alloc, a, T1, B1, t);
  }

  /** free_task of a task that was just made (src/kernel/task.c:67-70, 105-109): as if it had never been made. */
  method Discard(pool: TaskPool, id: nat, ghost m0: Mem, ghost d0: Data, ghost T0: Tables, ghost B0: Backing,
                 ghost alloc: set<nat>)
    requires pool.Valid() && id in pool.tasks
    requires Apart(pool.vm.ops, m0, pool.vm.mem, d0, pool.data, T0, pool.vm.tables, B0, pool.backing,
                   pool.tasks[id].root)
    requires OnlyTask(alloc, pool.vm.heap.Allocated(), pool.vm.tables, pool.backing, pool.tasks[id])
    modifies pool, pool.vm, pool.vm.heap.allocMap
    ensures pool.Valid() && pool.tasks == old(pool.tasks) - {id} && pool.boot == old(pool.boot)
    ensures pool.vm.heap.Allocated() == alloc
    ensures SameSpaces(pool.vm.ops, m0, pool.vm.mem, d0, pool.data, T0, pool.vm.tables, B0, pool.backing)
  {
    hide TreeInv, Lawful, BackingInv, Partition, TasksOk, Apart, OnlyTask, Owned, OtherTables, OtherBacking,
        OthersSame, SameSpaces;
    var ok := pool.FreeTask(id);
    Undone(pool.vm.ops, m0, old(pool.vm.mem), pool.vm.mem, d0, pool.data, T0, old(pool.vm.tables), pool.vm.tables,
           B0, old(pool.backing), pool.backing, alloc, old(pool.vm.heap.Allocated()), old(pool.tasks[id]));
  }

  /** create_user_task_elf and task_spawn_user up to list_add (src/kernel/task.c:53-106), memory side. A failed
      spawn leaves everything as it was; a successful one allocates exactly the new task's pages, loads its image,
      and changes no other address space. */
  method SpawnUser(pool: TaskPool, program: Option<Program>, args: seq<Args.Arg>) returns (r: Outcome)
    requires pool.Valid()
    requires (program.Some? ==> GoodImage(program.value.segs)) && Args.Fits(args)
    modifies pool, pool.vm, pool.vm.heap.allocMap
    ensures r.NoSlot? <==> program.Some? && FirstFree(old(pool.tasks).Keys, 0) == MAX_TASKS
    ensures r.OutOfMemory? ==> pool.Exhausted()
    ensures !Halts(r) ==>
      && pool.Valid() && pool.boot == old(pool.boot)
      && (r.NoFile? <==> program.None?)
      && (r.BadElf? <==> program.Some? && !program.value.headerOk)
      && (r.BadArgs? <==> program.Some? && program.value.headerOk && !ArgsOk(args))
    ensures !Halts(r) && !r.Spawned? ==>
      && pool.tasks == old(pool.tasks) && pool.vm.heap.Allocated() == old(pool.vm.heap.Allocated())
      && SameSpaces(pool.vm.ops, old(pool.vm.mem), pool.vm.mem, old(pool.data), pool.data,
                    old(pool.vm.tables), pool.vm.tables, old(pool.backing), pool.backing)
    ensures r.Spawned? ==>
      && r.id == FirstFree(old(pool.tasks).Keys, 0) && r.id in pool.tasks && pool.tasks[r.id].kstack != 0
      && pool.tasks == old(pool.tasks)[r.id := pool.tasks[r.id]]
      && ImageLoaded(pool.vm.ops, pool.vm.mem, pool.data, pool.tasks[r.id].root, program.value)
      && UserPages(pool.vm.ops, pool.vm.mem, pool.data, pool.tasks[r.id].root, args)
      && OldBytesKept(pool.vm.ops, pool.vm.mem, old(pool.data), pool.data, pool.tasks[r.id].root, args)
      && OnlyTask(old(pool.vm.heap.Allocated()), pool.vm.heap.Allocated(), pool.vm.tables, pool.backing,
                  pool.tasks[r.id])
      && Apart(pool.vm.ops, old(pool.vm.mem), pool.vm.mem, old(pool.data), pool.data,
               old(pool.vm.tables), pool.vm.tables, old(pool.backing), pool.backing, pool.tasks[r.id].root)
  {
    hide TreeInv, Lawful, BackingInv, Partition, TasksOk, Lookup, EmptyUserHalf, ImageLoading, GoodImage, Updated,
        Split;
    hide SameLookups, OldDataKept, NewDataOnly, NewUserPages, Apart, OnlySpace, OnlyTask, ImageLoaded, FirstFree,
        UserPages, OldBytesKept;
    ghost var m0, d0, T0, B0 := pool.vm.mem, pool.data, pool.vm.tables, pool.backing;
    ghost var alloc := pool.vm.heap.Allocated();
    if program.None? {
      Unchanged(pool.vm.ops, m0, d0, T0, B0);
      return NoFile;
    }
    var prog := program.value;
    var made := pool.CreateEmptyTask();
    if made.PoolFull? { return NoSlot; }
    if made.HeapFull? { return OutOfMemory; }
    var id := made.id;
    FreeSlot(old(pool.tasks).Keys, id);
    if !prog.headerOk {
      Discard(pool, id, m0, d0, T0, B0, alloc);
      return BadElf;
    }
    EmptyImage(pool.vm.ops, pool.vm.mem, pool.data, pool.tasks[id].root, prog.segs, prog.contents);
    ghost var m1, d1, T1, B1 := pool.vm.mem, pool.data, pool.vm.tables, pool.backing;
    var ok := LoadSegments(pool, id, prog.segs, prog.contents, alloc);
    if !ok { return OutOfMemory; }
    ApartGrows(pool.vm.ops, m0, m1, pool.vm.mem, d0, d1, pool.data, T0, T1, pool.vm.tables, B0, B1, pool.backing,
               pool.tasks[id].root);
    OnlySpaceData(pool.vm.ops, m1, pool.vm.mem, d1, pool.data, T1, pool.vm.tables, B1, pool.backing,
                  pool.tasks[id].root);
    m1, d1, T1, B1 := pool.vm.mem, pool.data, pool.vm.tables, pool.backing;
    var argc;
    ok, argc := FinishTask(pool, id, prog, args, alloc);
    if !ok { return OutOfMemory; }
    ApartGrows(pool.vm.ops, m0, m1, pool.vm.mem, d0, d1, pool.data, T0, T1, pool.vm.tables, B0, B1, pool.backing,
               pool.tasks[id].root);
    if argc.None? {
      Discard(pool, id, m0, d0, T0, B0, alloc);
      return BadArgs;
    }
    OldBytesSince(pool.vm.ops, d0, d1, pool.data, pool.vm.mem, B1, pool.tasks[id].root, args);
    return Spawned(id);
  }

  lemma OnlySpaceData(ops: PteOps, m: Mem, m': Mem, data: Data, data': Data, T: Tables, T': Tables,
                      B: Backing, B': Backing, root: nat)
    requires OnlySpace(ops, m, m', data, data', T, T', B, B', root)
    ensures NewDataOnly(data, data', B')
  {}

  lemma FreeSlot(live: set<nat>, id: nat)
    requires id == FirstFree(live, 0) && id < MAX_TASKS
    ensures id !in live
  {}

  lemma Unchanged(ops: PteOps, m: Mem, d: Data, T: Tables, B: Backing)
    ensures SameSpaces(ops, m, m, d, d, T, T, B, B)
  {}

  /** task_spawn_kernel (src/kernel/task.c:77-86), memory side: windows, no user memory, and a kernel stack. */
  method SpawnKernel(pool: TaskPool) returns (r: Outcome)
    requires pool.Valid()
    modifies pool, pool.vm, pool.vm.heap.allocMap
    ensures r.NoSlot? || r.OutOfMemory? || r.Spawned?
    ensures r.NoSlot? <==> FirstFree(old(pool.tasks).Keys, 0) == MAX_TASKS
    ensures r.OutOfMemory? ==> pool.Exhausted()
    ensures r.Spawned? ==>
      && pool.Valid() && pool.boot == old(pool.boot) && pool.data == old(pool.data)
      && r.id == FirstFree(old(pool.tasks).Keys, 0) && r.id in pool.tasks && pool.tasks[r.id].kstack != 0
      && pool.tasks == old(pool.tasks)[r.id := pool.tasks[r.id]]
      && EmptyUserHalf(pool.vm.ops, pool.vm.mem, pool.tasks[r.id].root)
      && OnlyTask(old(pool.vm.heap.Allocated()), pool.vm.heap.Allocated(), pool.vm.tables, pool.backing,
                  pool.tasks[r.id])
      && Apart(pool.vm.ops, old(pool.vm.mem), pool.vm.mem, old(pool.data), pool.data,
               old(pool.vm.tables), pool.vm.tables, old(pool.backing), pool.backing, pool.tasks[r.id].root)
  {
    hide TreeInv, Lawful, BackingInv, Partition, TasksOk, Lookup, EmptyUserHalf, Apart, OnlyTask, FirstFree;
    var made := pool.CreateEmptyTask();
    if made.PoolFull? { return NoSlot; }
    if made.HeapFull? { return OutOfMemory; }
    var ok := pool.SetupBlankThread(made.id, old(pool.vm.heap.Allocated()));
    if !ok { return OutOfMemory; }
    return Spawned(made.id);
  }

  /** The bytes a page holds, if known. */
  method OldPage(data: Data, page: nat) returns (buf: array<nat>)
    ensures fresh(buf) && buf.Length == SMALL && (page in data && |data[page]| == SMALL ==> buf[..] == data[page])
  {
    buf := new nat[SMALL];
    if page in data && |data[page]| == SMALL {
      for i := 0 to SMALL
        invariant buf[..i] == data[page][..i]
      {
        buf[i] := data[page][i];
      }
    }
  }

  /** setup_user_thread: a kernel stack, and the stack page. */
  method AddStack(pool: TaskPool, id: nat, prog: Program, ghost alloc: set<nat>) returns (ok: bool)
    requires pool.Valid() && id in pool.tasks && pool.tasks[id].kstack == 0 && GoodImage(prog.segs)
    requires ImageLoading(pool.vm.ops, pool.vm.mem, pool.data, pool.tasks[id].root, prog.segs, prog.contents,
                          |prog.segs|)
    requires OnlyTask(alloc, pool.vm.heap.Allocated(), pool.vm.tables, pool.backing, pool.tasks[id])
    modifies pool, pool.vm, pool.vm.heap.allocMap
    ensures !ok ==> pool.Exhausted()
    ensures ok ==>
      && pool.Valid() && pool.boot == old(pool.boot) && pool.data == old(pool.data)
      && id in pool.tasks && pool.tasks[id].root == old(pool.tasks[id].root)
      && pool.tasks == old(pool.tasks)[id := pool.tasks[id]] && pool.tasks[id].kstack != 0
      && OnlySpace(pool.vm.ops, old(pool.vm.mem), pool.vm.mem, pool.data, pool.data,
                   old(pool.vm.tables), pool.vm.tables, old(pool.backing), pool.backing, pool.tasks[id].root)
      && ImageLoaded(pool.vm.ops, pool.vm.mem, pool.data, pool.tasks[id].root, prog)
      && OnlyTask(alloc, pool.vm.heap.Allocated(), pool.vm.tables, pool.backing, pool.tasks[id])
      && Lookup(pool.vm.ops, pool.vm.mem, pool.tasks[id].root, Split(DEFAULT_ARG_LOCATION)).Unmapped?
      && var s := UserPageAt(pool.vm.ops, pool.vm.mem, pool.tasks[id].root, DEFAULT_USER_STACK);
         s.Some? && s.value !in old(pool.backing) && s.value in pool.backing
  {
    hide TreeInv, Lawful, BackingInv, Partition, TasksOk, Lookup, PagesHold, PagesFree, Updated, Split, OnlyTask,
        Stacks, InSomeWindow, V2P, UserPageAt, GoodImage, OnlySpace;
    TaskFacts(pool.vm.ops, pool.vm.mem, pool.vm.tables, pool.tasks, id);
    assert ImageLoaded(pool.vm.ops, pool.vm.mem, pool.data, pool.tasks[id].root, prog);
    var page;
    ok, page := pool.SetupUserThread(id, alloc);
    if !ok { return; }
    ImageKept(pool.vm.ops, old(pool.vm.mem), pool.vm.mem, pool.data, old(pool.vm.tables), pool.tasks[id].root, prog,
              DEFAULT_USER_STACK, V2P(page));
    MappedUserPage(pool.vm.ops, old(pool.vm.mem), pool.vm.mem, old(pool.vm.tables), pool.tasks[id].root,
                   DEFAULT_USER_STACK, page);
    ArgPageFree(pool.vm.ops, old(pool.vm.mem), pool.vm.mem, old(pool.vm.tables), pool.tasks[id].root, V2P(page));
    OnlySpacePage(pool.vm.ops, old(pool.vm.mem), pool.vm.mem, pool.data, pool.data, old(pool.vm.tables), pool.vm.tables,
                  old(pool.backing), pool.tasks[id].root, Split(DEFAULT_USER_STACK), page);
  }

  /** copyin_args: the argument page, and the arguments in it. argc is None where one cannot be copied in. */
  method AddArgs(pool: TaskPool, id: nat, prog: Program, args: seq<Args.Arg>, ghost alloc: set<nat>)
    returns (ok: bool, argc: Option<nat>)
    requires pool.Valid() && id in pool.tasks && GoodImage(prog.segs) && Args.Fits(args)
    requires ImageLoaded(pool.vm.ops, pool.vm.mem, pool.data, pool.tasks[id].root, prog)
    requires Lookup(pool.vm.ops, pool.vm.mem, pool.tasks[id].root, Split(DEFAULT_ARG_LOCATION)).Unmapped?
    requires OnlyTask(alloc, pool.vm.heap.Allocated(), pool.vm.tables, pool.backing, pool.tasks[id])
    modifies pool, pool.vm, pool.vm.heap.allocMap
    ensures !ok ==> pool.Exhausted()
    ensures ok ==>
      && pool.Valid() && pool.boot == old(pool.boot) && pool.tasks == old(pool.tasks)
      && OnlySpace(pool.vm.ops, old(pool.vm.mem), pool.vm.mem, old(pool.data), pool.data,
                   old(pool.vm.tables), pool.vm.tables, old(pool.backing), pool.backing, pool.tasks[id].root)
      && ImageLoaded(pool.vm.ops, pool.vm.mem, pool.data, pool.tasks[id].root, prog)
      && OnlyTask(alloc, pool.vm.heap.Allocated(), pool.vm.tables, pool.backing, pool.tasks[id])
      && (argc.None? <==> !ArgsOk(args)) && (argc.Some? ==> argc.value == |args|)
      && UserPageAt(pool.vm.ops, pool.vm.mem, pool.tasks[id].root, DEFAULT_USER_STACK)
         == UserPageAt(pool.vm.ops, old(pool.vm.mem), pool.tasks[id].root, DEFAULT_USER_STACK)
      && var p := UserPageAt(pool.vm.ops, pool.vm.mem, pool.tasks[id].root, DEFAULT_ARG_LOCATION);
         p.Some? && p.value !in old(pool.backing)
         && (forall d | d != p.value :: SameBytes(old(pool.data), pool.data, d))
         && (argc.Some? ==>
               && p.value in pool.data && Args.Readable(pool.data[p.value], args, |args|)
               && OldArgBytes(old(pool.data), pool.data, p.value, args))
  {
    hide TreeInv, Lawful, BackingInv, Partition, TasksOk, Lookup, PagesHold, PagesFree, Updated, Split, OnlyTask,
        Stacks, InSomeWindow, V2P, UserPageAt, Args.Readable, Args.OldBytes, Args.Fits, GoodImage, OnlySpace,
        ImageLoaded;
    argc := None;
    ghost var a, T, B, m, d := pool.vm.heap.Allocated(), pool.vm.tables, pool.backing, pool.vm.mem, pool.data;
    KeysAllocated(a, T, B, Stacks(pool.tasks), pool.boot);
    TaskFacts(pool.vm.ops, m, T, pool.tasks, id);
    var page;
    ok, page := pool.AddUserPage(id, DEFAULT_ARG_LOCATION);
    if !ok { return; }
    ImageKept(pool.vm.ops, m, pool.vm.mem, d, T, pool.tasks[id].root, prog, DEFAULT_ARG_LOCATION, V2P(page));
    StackPageStays(pool.vm.ops, m, pool.vm.mem, T, pool.tasks[id].root, V2P(page));
    MappedUserPage(pool.vm.ops, m, pool.vm.mem, T, pool.tasks[id].root, DEFAULT_ARG_LOCATION, page);
    OwnedGrows(alloc, a, pool.vm.heap.Allocated(), T, pool.vm.tables, B, pool.tasks[id], page,
               Split(DEFAULT_ARG_LOCATION));
    var buf := OldPage(pool.data, page);
    argc := Args.CopyinArgs(buf, args);
    ImageApart(pool.vm.ops, m, pool.vm.mem, T, B, d, pool.tasks[id].root, prog, page, buf[..], V2P(page));
    pool.data := pool.data[page := buf[..]];
    OnlySpacePage(pool.vm.ops, m, pool.vm.mem, d, pool.data, T, pool.vm.tables, B, pool.tasks[id].root,
                  Split(DEFAULT_ARG_LOCATION), page);
  }

  /** setup_user_thread and copyin_args. argc is None where an argument cannot be copied in. */
  method FinishTask(pool: TaskPool, id: nat, prog: Program, args: seq<Args.Arg>, ghost alloc: set<nat>)
    returns (ok: bool, argc: Option<nat>)
    requires pool.Valid() && id in pool.tasks && pool.tasks[id].kstack == 0 && GoodImage(prog.segs) && Args.Fits(args)
    requires ImageLoading(pool.vm.ops, pool.vm.mem, pool.data, pool.tasks[id].root, prog.segs, prog.contents,
                          |prog.segs|)
    requires OnlyTask(alloc, pool.vm.heap.Allocated(), pool.vm.tables, pool.backing, pool.tasks[id])
    modifies pool, pool.vm, pool.vm.heap.allocMap
    ensures !ok ==> pool.Exhausted()
    ensures ok ==>
      && pool.Valid() && pool.boot == old(pool.boot)
      && id in pool.tasks && pool.tasks[id].root == old(pool.tasks[id].root)
      && pool.tasks == old(pool.tasks)[id := pool.tasks[id]] && pool.tasks[id].kstack != 0
      && OnlySpace(pool.vm.ops, old(pool.vm.mem), pool.vm.mem, old(pool.data), pool.data,
                   old(pool.vm.tables), pool.vm.tables, old(pool.backing), pool.backing, pool.tasks[id].root)
      && ImageLoaded(pool.vm.ops, pool.vm.mem, pool.data, pool.tasks[id].root, prog)
      && OnlyTask(alloc, pool.vm.heap.Allocated(), pool.vm.tables, pool.backing, pool.tasks[id])
      && (argc.None? <==> !ArgsOk(args))
    ensures ok && argc.Some? ==>
      && argc.value == |args| && UserPages(pool.vm.ops, pool.vm.mem, pool.data, pool.tasks[id].root, args)
      && NewUserPages(pool.vm.ops, pool.vm.mem, old(pool.data), pool.data, old(pool.backing), pool.tasks[id].root, args)
  {
    hide TreeInv, Lawful, BackingInv, Partition, TasksOk, Lookup, Split, OnlyTask, UserPageAt, Args.Readable,
        Args.OldBytes, Args.Fits, GoodImage, OnlySpace, ImageLoading, ImageLoaded;
    argc := None;
    ok := AddStack(pool, id, prog, alloc);
    if !ok { return; }
    ghost var m, d, T, B := pool.vm.mem, pool.data, pool.vm.tables, pool.backing;
    ok, argc := AddArgs(pool, id, prog, args, alloc);
    if !ok { return; }
    BackingKept(pool.vm.ops, old(pool.vm.mem), m, d, d, old(pool.vm.tables), T, old(pool.backing), B,
                pool.tasks[id].root);
    OnlySpaceTrans(pool.vm.ops, old(pool.vm.mem), m, pool.vm.mem, d, d, pool.data, old(pool.vm.tables),
                   T, pool.vm.tables, old(pool.backing), B, pool.backing, pool.tasks[id].root);
  }

  lemma BackingKept(ops: PteOps, m: Mem, m': Mem, data: Data, data': Data, T: Tables, T': Tables,
                    B: Backing, B': Backing, root: nat)
    requires OnlySpace(ops, m, m', data, data', T, T', B, B', root)
    ensures forall d | d in B :: d in B'
  {}

  /** The pages at the two fixed addresses were nobody's before, and hold old bytes where nothing was written. */
  ghost predicate NewUserPages(ops: PteOps, mem: Mem, data: Data, data': Data, B: Backing, root: nat,
                               args: seq<Args.Arg>) {
    && OldBytesKept(ops, mem, data, data', root, args)
    && var s, p := UserPageAt(ops, mem, root, DEFAULT_USER_STACK), UserPageAt(ops, mem, root, DEFAULT_ARG_LOCATION);
       s.Some? && p.Some? && s.value !in B && p.value !in B
  }

  /** Loading the image did not touch the pages that became stack and arguments. */
  lemma OldBytesSince(ops: PteOps, data0: Data, data1: Data, data2: Data, mem: Mem, B1: Backing, root: nat,
                      args: seq<Args.Arg>)
    requires NewDataOnly(data0, data1, B1) && NewUserPages(ops, mem, data1, data2, B1, root, args)
    ensures OldBytesKept(ops, mem, data0, data2, root, args)
  {
    hide UserPageAt, Args.OldBytes;
    var s, p := UserPageAt(ops, mem, root, DEFAULT_USER_STACK), UserPageAt(ops, mem, root, DEFAULT_ARG_LOCATION);
    assert SameBytes(data0, data1, s.value) && SameBytes(data0, data1, p.value);
  }

  /** Filling the argument page touches no page of the image. */
  lemma ImageApart(ops: PteOps, m: Mem, m': Mem, T: Tables, B: Backing, data: Data, root: nat, prog: Program, page: nat,
                   bytes: seq<nat>, pa: nat)
    requires ImageLoaded(ops, m, data, root, prog) && BackingInv(ops, m, T, B) && IsRoot(T, root) && page !in B
    requires ImageLoaded(ops, m', data, root, prog) && GoodImage(prog.segs)
    requires Updated(ops, m, m', T, root, 0, Split(DEFAULT_ARG_LOCATION), pa, User)
    ensures ImageLoaded(ops, m', data[page := bytes], root, prog)
  {
    hide Lookup, Split, PageImage, BackingInv, P2V;
    forall k | 0 <= k < |prog.segs|
      ensures PagesHold(ops, m', data[page := bytes], root, prog.segs[k], prog.contents, NumPages(prog.segs[k]))
    {
      var s := prog.segs[k];
      assert PagesHold(ops, m, data, root, s, prog.contents, NumPages(s));
      forall i | 0 <= i < NumPages(s)
        ensures PageHolds(ops, m', data[page := bytes], root, PageAddr(s, i),
                          PageImage(prog.contents, s.offset + SMALL * i))
      {
        assert PageHolds(ops, m, data, root, PageAddr(s, i), PageImage(prog.contents, s.offset + SMALL * i));
        PageIsBacked(ops, m, T, B, root, PageAddr(s, i));
        PageAddrOk(s, i);
        DistinctPages(DEFAULT_ARG_LOCATION, PageAddr(s, i));
        PrefixZero(Split(PageAddr(s, i)), Split(DEFAULT_ARG_LOCATION));
      }
    }
  }

  /** Spawning a task and then reaping it leaves the heap, the tasks and every other address space as they were. */
  method SpawnThenReap(pool: TaskPool, program: Option<Program>, args: seq<Args.Arg>) returns (r: Outcome)
    requires pool.Valid()
    requires (program.Some? ==> GoodImage(program.value.segs)) && Args.Fits(args)
    modifies pool, pool.vm, pool.vm.heap.allocMap
    ensures r.NoSlot? <==> program.Some? && FirstFree(old(pool.tasks).Keys, 0) == MAX_TASKS
    ensures r.OutOfMemory? ==> pool.Exhausted()
    ensures !Halts(r) ==>
      && pool.Valid() && pool.tasks == old(pool.tasks) && pool.vm.heap.Allocated() == old(pool.vm.heap.Allocated())
      && SameSpaces(pool.vm.ops, old(pool.vm.mem), pool.vm.mem, old(pool.data), pool.data,
                    old(pool.vm.tables), pool.vm.tables, old(pool.backing), pool.backing)
  {
    hide TreeInv, Lawful, BackingInv, Partition, TasksOk, GoodImage, PagesOf, OtherTables, OtherBacking, FirstFree;
    hide SameSpaces, Apart, OnlyTask, ImageLoaded;
    ghost var m0, d0, T0, B0 := pool.vm.mem, pool.data, pool.vm.tables, pool.backing;
    ghost var alloc := pool.vm.heap.Allocated();
    r := SpawnUser(pool, program, args);
    if r.Spawned? {
      FreeSlot(old(pool.tasks).Keys, r.id);
      Discard(pool, r.id, m0, d0, T0, B0, alloc);
    }
  }
}
