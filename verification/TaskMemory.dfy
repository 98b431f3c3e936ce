/**
 The memory of tasks: who owns each small page while tasks are created, loaded, and freed
 (src/kernel/task.c, src/kernel/thread.c, src/kernel/elf.c, src/kernel/arg.c).
 */
module TaskMemory {
  import opened Common
  import opened Addr
  import opened Pte
  import opened PageTable
  import opened KHeap
  import opened Vm
  import opened FreeTables
  import opened Windows


  /** The pool has 2048 slots. */
  lemma PoolIsFull(live: set<nat>)
    ensures FirstFree(live, 0) == MAX_TASKS <==> forall id | 0 <= id < 2048 :: id in live
  {}

  /** The memory a task_t names: its page table and its kernel stack, 0 while it has none. */
  datatype TaskMem = TaskMem(root: nat, kstack: nat)

  type Tasks = map<nat, TaskMem>

  /** The bytes of data pages. */
  type Data = map<nat, seq<nat>>

  const MAX_TASKS: nat := 2048

  /** The first free slot of the task pool from i on, or MAX_TASKS. */
  function FirstFree(live: set<nat>, i: nat): (j: nat)
    requires i <= MAX_TASKS
    ensures i <= j <= MAX_TASKS && (forall m | i <= m < j :: m in live) && (j < MAX_TASKS ==> j !in live)
    decreases MAX_TASKS - i
  {
    if i == MAX_TASKS || i !in live then i else FirstFree(live, i + 1)
  }

  ghost function Stacks(tasks: Tasks): set<nat> { set id | id in tasks && tasks[id].kstack != 0 :: tasks[id].kstack }

  /** Each allocated page has exactly one owner: a page table, a small mapping, a task's kernel stack, or boot code. */
  ghost predicate Partition(alloc: set<nat>, T: Tables, B: Backing, stacks: set<nat>, boot: set<nat>) {
    && alloc == T.Keys + B.Keys + stacks + boot
    && T.Keys !! B.Keys && T.Keys !! stacks && B.Keys !! stacks
    && T.Keys !! boot && B.Keys !! boot && stacks !! boot
  }

  /** The windows of the space at root are giant pages of the kernel. */
  ghost predicate HasWindows(ops: PteOps, mem: Mem, root: nat) {
    forall v | InTable(v) && InSomeWindow(v) ::
      var m := Lookup(ops, mem, root, v); m.Mapped? && m.level == 2 && m.priv == Kern
  }

  /** Outside the windows, only small pages of user code in the low half are mapped. */
  ghost predicate LowUser(ops: PteOps, mem: Mem, root: nat) {
    forall v | InTable(v) && !InSomeWindow(v) ::
      var m := Lookup(ops, mem, root, v); m.Mapped? ==> m.level == 0 && m.priv == User && v.i3 < ENTRIES / 2
  }

  /** Tasks have their own tables and stacks; their spaces hold the kernel's windows and user pages. */
  ghost predicate TasksOk(ops: PteOps, mem: Mem, T: Tables, tasks: Tasks) {
    && (forall id | id in tasks ::
          && IsRoot(T, tasks[id].root)
          && HasWindows(ops, mem, tasks[id].root) && LowUser(ops, mem, tasks[id].root))
    && (forall a, b | a in tasks && b in tasks && a != b ::
          tasks[a].root != tasks[b].root && (tasks[a].kstack != tasks[b].kstack || tasks[a].kstack == 0))
  }

  /** A page mapped at one small address of one space becomes that address's backing page. */
  lemma BackingAdded(ops: PteOps, mem: Mem, mem': Mem, T: Tables, T': Tables, B: Backing, root: nat, v: Vpn, d: nat,
                     priv: Mode)
    requires BackingInv(ops, mem, T, B) && Updated(ops, mem, mem', T, root, 0, v, V2P(d), priv)
    requires GrownBy(T, T', root) && IsRoot(T, root) && InTable(v) && KernPtr(d) && d !in B
    requires Lookup(ops, mem, root, v).Unmapped?
    ensures BackingInv(ops, mem', T', B[d := Home(root, v)])
  {
    hide Lookup, P2V, V2P;
    var B' := B[d := Home(root, v)];
    KernPtrRoundTrip(d);
    forall r, w | IsRoot(T', r) && InTable(w) ensures SmallIsBacked(ops, mem', B', r, w) {
      assert IsRoot(T, r);
      assert SmallIsBacked(ops, mem, B, r, w);
      PrefixZero(w, v);
    }
    forall x | x in B' ensures BackingMapped(ops, mem', T', B', x) {
      if x != d {
        assert BackingMapped(ops, mem, T, B, x);
        PrefixZero(B[x].v, v);
      } else {
        assert Maps(Lookup(ops, mem', root, v), 0, V2P(d), priv);
      }
    }
  }

  lemma PrefixZero(w: Vpn, v: Vpn)
    ensures Prefix(w, 0) == Prefix(v, 0) <==> w == v
  {}

  /** Changes that leave every small mapping in place keep the backing pages. */
  lemma BackingSame(ops: PteOps, mem: Mem, mem': Mem, T: Tables, T': Tables, B: Backing)
    requires BackingInv(ops, mem, T, B) && Extends(T, T')
    requires forall r, v | IsRoot(T', r) && InTable(v) :: SameSmall(ops, mem, mem', T, r, v)
    ensures BackingInv(ops, mem', T', B)
  {
    hide Lookup, P2V;
    forall r, v | IsRoot(T', r) && InTable(v) ensures SmallIsBacked(ops, mem', B, r, v) {
      assert SameSmall(ops, mem, mem', T, r, v);
      if IsRoot(T, r) { assert SmallIsBacked(ops, mem, B, r, v); }
    }
    forall x | x in B ensures BackingMapped(ops, mem', T', B, x) {
      assert BackingMapped(ops, mem, T, B, x);
      assert SameSmall(ops, mem, mem', T, B[x].root, B[x].v);
    }
  }

  /** v of space r has the same mapping as before, or is and was no small mapping. */
  ghost predicate SameSmall(ops: PteOps, mem: Mem, mem': Mem, T: Tables, r: nat, v: Vpn) {
    var m' := Lookup(ops, mem', r, v);
    if IsRoot(T, r) then
      var m := Lookup(ops, mem, r, v);
      m' == m || ((m.Mapped? ==> m.level != 0) && (m'.Mapped? ==> m'.level != 0))
    else m'.Mapped? ==> m'.level != 0
  }

  /** The pages of a task: its tables, the pages mapped in its user space, its kernel stack. */
  ghost function Owned(T: Tables, B: Backing, t: TaskMem): set<nat> {
    PagesOf(T, B, t.root) + (if t.kstack == 0 then {} else {t.kstack})
  }

  /** Nothing is mapped outside the windows. */
  ghost predicate EmptyUserHalf(ops: PteOps, mem: Mem, root: nat) {
    forall v | InTable(v) && !InSomeWindow(v) :: Lookup(ops, mem, root, v).Unmapped?
  }

  /** The spaces of T are mapped in mem' as in mem. */
  ghost predicate OthersSame(ops: PteOps, mem: Mem, mem': Mem, T: Tables, root: nat) {
    forall r, v | IsRoot(T, r) && r != root && InTable(v) :: Lookup(ops, mem', r, v) == Lookup(ops, mem, r, v)
  }

  ghost predicate BackingGrownBy(B: Backing, B': Backing, root: nat) {
    (forall d | d in B :: d in B' && B'[d] == B[d]) && forall d | d in B' && d !in B :: B'[d].root == root
  }

  /** Pages that were in use keep their bytes. */
  ghost predicate OldDataKept(data: Data, data': Data, B: Backing) {
    forall d | d in B && d in data :: d in data' && data'[d] == data[d]
  }

  /** The bytes of page d are the same, or still unknown. */
  ghost predicate SameBytes(data: Data, data': Data, d: nat) {
    (d in data' <==> d in data) && (d in data ==> data'[d] == data[d])
  }

  /** Only pages in use have new bytes. */
  ghost predicate NewDataOnly(data: Data, data': Data, B: Backing) { forall d | d !in B :: SameBytes(data, data', d) }

  /** The space at root has grown, and nothing else has changed: no other space's tables, pages, mappings or bytes. */
  ghost predicate OnlySpace(ops: PteOps, m: Mem, m': Mem, data: Data, data': Data, T: Tables, T': Tables,
                            B: Backing, B': Backing, root: nat) {
    && GrownBy(T, T', root) && BackingGrownBy(B, B', root)
    && OthersSame(ops, m, m', T, root) && OldDataKept(data, data', B) && NewDataOnly(data, data', B')
  }

  lemma OnlySpaceRefl(ops: PteOps, m: Mem, data: Data, T: Tables, B: Backing, root: nat)
    ensures OnlySpace(ops, m, m, data, data, T, T, B, B, root)
  {}

  lemma OnlySpaceTrans(ops: PteOps, m0: Mem, m1: Mem, m2: Mem, d0: Data, d1: Data, d2: Data,
                       T0: Tables, T1: Tables, T2: Tables, B0: Backing, B1: Backing, B2: Backing, root: nat)
    requires OnlySpace(ops, m0, m1, d0, d1, T0, T1, B0, B1, root)
    requires OnlySpace(ops, m1, m2, d1, d2, T1, T2, B1, B2, root)
    ensures OnlySpace(ops, m0, m2, d0, d2, T0, T2, B0, B2, root)
  {
    hide Lookup;
    forall r, v | IsRoot(T0, r) && r != root && InTable(v) ensures Lookup(ops, m2, r, v) == Lookup(ops, m0, r, v) {
      assert IsRoot(T1, r);
      assert Lookup(ops, m1, r, v) == Lookup(ops, m0, r, v);
    }
    forall d | d !in B2 ensures SameBytes(d0, d2, d) { assert SameBytes(d0, d1, d) && SameBytes(d1, d2, d); }
  }

  /** A page that becomes user memory of the space at root. */
  lemma OnlySpacePage(ops: PteOps, m: Mem, m': Mem, data: Data, data': Data, T: Tables, T': Tables,
                      B: Backing, root: nat, v: Vpn, page: nat)
    requires Updated(ops, m, m', T, root, 0, v, V2P(page), User) && GrownBy(T, T', root) && page !in B
    requires forall d | d != page :: SameBytes(data, data', d)
    ensures OnlySpace(ops, m, m', data, data', T, T', B, B[page := Home(root, v)], root)
  {
    hide Lookup, V2P;
    forall d | d in B && d in data ensures d in data' && data'[d] == data[d] { assert SameBytes(data, data', d); }
  }

  /** The space at root is new since (m0, d0, T0, B0), and all other spaces are as they were. */
  ghost predicate Apart(ops: PteOps, m0: Mem, m: Mem, d0: Data, d: Data, T0: Tables, T: Tables,
                        B0: Backing, B: Backing, root: nat) {
    && OtherTables(T, root) == T0 && OtherBacking(B, root) == B0 && root !in T0
    && SameLookups(ops, m0, m, T0) && OldDataKept(d0, d, B0)
  }

  lemma NewSpaceApart(ops: PteOps, m0: Mem, m: Mem, d: Data, T0: Tables, T: Tables, B: Backing, root: nat)
    requires SpacesLive(T0, B) && Extends(T0, T) && root !in T0 && SameLookups(ops, m0, m, T0)
    requires forall p | p in T && p !in T0 :: T[p].root == root
    ensures Apart(ops, m0, m, d, d, T0, T, B, B, root)
  {
    hide SameLookups;
    forall p | p in T0 ensures T[p].root != root { assert RootLive(T0, p); }
    forall x | x in B ensures B[x].root != root { assert HomeLive(T0, B, x); }
  }

  /** Growing a new space keeps it apart. */
  lemma ApartGrows(ops: PteOps, m0: Mem, m1: Mem, m2: Mem, d0: Data, d1: Data, d2: Data, T0: Tables, T1: Tables,
                   T2: Tables, B0: Backing, B1: Backing, B2: Backing, root: nat)
    requires Apart(ops, m0, m1, d0, d1, T0, T1, B0, B1, root)
    requires OnlySpace(ops, m1, m2, d1, d2, T1, T2, B1, B2, root)
    ensures Apart(ops, m0, m2, d0, d2, T0, T2, B0, B2, root)
  {
    hide Lookup;
    assert OtherTables(T2, root) == OtherTables(T1, root);
    assert OtherBacking(B2, root) == OtherBacking(B1, root);
    forall r, v | IsRoot(T0, r) && InTable(v) ensures Lookup(ops, m2, r, v) == Lookup(ops, m0, r, v) {
      assert r in OtherTables(T1, root) && IsRoot(T1, r);
      assert Lookup(ops, m1, r, v) == Lookup(ops, m0, r, v);
    }
    forall x | x in B0 && x in d0 ensures x in d2 && d2[x] == d0[x] { assert x in OtherBacking(B1, root); }
  }

  /** Freeing a new space leaves the others as they were before it was made. */
  lemma ApartFreed(ops: PteOps, m0: Mem, m1: Mem, m2: Mem, d0: Data, d1: Data, T0: Tables, T1: Tables, B0: Backing,
                   B1: Backing, root: nat)
    requires Apart(ops, m0, m1, d0, d1, T0, T1, B0, B1, root) && OthersSame(ops, m1, m2, T1, root)
    ensures SameLookups(ops, m0, m2, T0)
  {
    hide Lookup;
    forall r, v | IsRoot(T0, r) && InTable(v) ensures Lookup(ops, m2, r, v) == Lookup(ops, m0, r, v) {
      assert r in OtherTables(T1, root) && IsRoot(T1, r);
      assert Lookup(ops, m1, r, v) == Lookup(ops, m0, r, v);
    }
  }

  lemma NewTaskOk(ops: PteOps, m0: Mem, m1: Mem, m2: Mem, T0: Tables, T1: Tables, T2: Tables, B: Backing, root: nat)
    requires SameLookups(ops, m0, m1, T0) && T1 == WithRoot(T0, root) && IsRoot(T1, root) && root !in T0
    requires forall v | InTable(v) :: Lookup(ops, m1, root, v) == Unmapped
    requires KernelMapped(ops, m1, m2, T1, root) && GrownBy(T1, T2, root)
    requires BackingInv(ops, m0, T0, B)
    ensures BackingInv(ops, m2, T2, B) && HasWindows(ops, m2, root) && EmptyUserHalf(ops, m2, root)
      && SameLookups(ops, m0, m2, T0)
  {
    hide Lookup, InSomeWindow, BackingInv;
    forall r, v | IsRoot(T0, r) && InTable(v) ensures Lookup(ops, m2, r, v) == Lookup(ops, m0, r, v) {
      assert IsRoot(T1, r);
      assert Lookup(ops, m1, r, v) == Lookup(ops, m0, r, v);
    }
    forall r, v | IsRoot(T2, r) && InTable(v) ensures SameSmall(ops, m0, m2, T0, r, v) {
      assert IsRoot(T1, r);
      if r != root { assert IsRoot(T0, r); }
    }
    BackingSame(ops, m0, m2, T0, T2, B);
  }

  lemma FreshSpace(T: Tables, B: Backing, root: nat)
    requires root !in T && SpacesLive(T, B)
    ensures OnlyUpperTables(WithRoot(T, root), root)
  {
    forall p | p in T ensures T[p].root != root { assert RootLive(T, p); }
  }

  lemma NewTaskTasks(ops: PteOps, m0: Mem, m: Mem, T0: Tables, T: Tables, tasks: Tasks, id: nat, root: nat)
    requires TasksOk(ops, m0, T0, tasks) && SameLookups(ops, m0, m, T0) && Extends(T0, T)
    requires id !in tasks && root !in T0 && IsRoot(T, root) && HasWindows(ops, m, root) && EmptyUserHalf(ops, m, root)
    ensures TasksOk(ops, m, T, tasks[id := TaskMem(root, 0)])
    ensures Stacks(tasks[id := TaskMem(root, 0)]) == Stacks(tasks)
  {
    hide Lookup, InSomeWindow;
    var tasks' := tasks[id := TaskMem(root, 0)];
    forall x | x in Stacks(tasks) ensures x in Stacks(tasks') {
      var a :| a in tasks && tasks[a].kstack != 0 && tasks[a].kstack == x;
      assert tasks'[a].kstack == x;
    }
    forall x | x in Stacks(tasks') ensures x in Stacks(tasks) {}
  }

  ghost predicate RootLive(T: Tables, p: nat)
    requires p in T
  { T[p].root in T }

  ghost predicate HomeLive(T: Tables, B: Backing, d: nat)
    requires d in B
  { B[d].root in T }

  /** Every table and every backing page belongs to a live address space. */
  ghost predicate SpacesLive(T: Tables, B: Backing) {
    && (forall p {:trigger RootLive(T, p)} | p in T :: RootLive(T, p))
    && (forall d {:trigger HomeLive(T, B, d)} | d in B :: HomeLive(T, B, d))
  }

  /** Allocating pages for new tables only extends the tables' share. */
  lemma PartitionGrows(a: set<nat>, a': set<nat>, T: Tables, T': Tables, B: Backing, stacks: set<nat>, boot: set<nat>)
    requires Partition(a, T, B, stacks, boot) && T.Keys <= T'.Keys
    requires a' == a + (T'.Keys - T.Keys) && (T'.Keys - T.Keys) !! a
    ensures Partition(a', T', B, stacks, boot)
  {
    assert T'.Keys == T.Keys + (T'.Keys - T.Keys);
  }

  /** The pages of a new address space are its new tables. */
  lemma NewSpacePages(T: Tables, T': Tables, B: Backing, root: nat)
    requires Extends(T, T') && root !in T
    requires forall p | p in T' && p !in T :: T'[p].root == root
    requires SpacesLive(T, B)
    ensures PagesOf(T', B, root) == T'.Keys - T.Keys
  {
    forall p | p in T ensures T'[p].root != root { assert RootLive(T, p); }
    forall d | d in B ensures B[d].root != root { assert HomeLive(T, B, d); }
  }

  lemma NewTaskPages(a0: set<nat>, a1: set<nat>, a2: set<nat>, T0: Tables, T1: Tables, T2: Tables, B: Backing,
                     stacks: set<nat>, boot: set<nat>, root: nat)
    requires Partition(a0, T0, B, stacks, boot) && root !in a0 && a1 == a0 + {root}
    requires T1 == WithRoot(T0, root) && Accounted(a1, a2, T1, T2, root)
    requires SpacesLive(T0, B)
    ensures Partition(a2, T2, B, stacks, boot) && Extends(T0, T2)
    ensures a2 == a0 + Owned(T2, B, TaskMem(root, 0)) && Owned(T2, B, TaskMem(root, 0)) !! a0
  {
    hide Partition, PagesOf;
    assert root !in T0 && T0.Keys <= a0 by {
      assert Partition(a0, T0, B, stacks, boot);
      KeysAllocated(a0, T0, B, stacks, boot);
    }
    assert T2.Keys - T0.Keys == {root} + (T2.Keys - T1.Keys);
    NewSpacePages(T0, T2, B, root);
    PartitionGrows(a0, a2, T0, T2, B, stacks, boot);
  }

  lemma NewTables(a: set<nat>, a': set<nat>, T: Tables, T': Tables, root: nat)
    requires Accounted(a, a', T, T', root)
    ensures GrownBy(T, T', root)
  {}

  lemma KeysAllocated(a: set<nat>, T: Tables, B: Backing, stacks: set<nat>, boot: set<nat>)
    requires Partition(a, T, B, stacks, boot)
    ensures T.Keys <= a && B.Keys <= a && stacks <= a && boot <= a
  {}

  lemma RootsLive(ops: PteOps, mem: Mem, T: Tables, B: Backing)
    requires TreeInv(ops, mem, T) && BackingInv(ops, mem, T, B)
    ensures SpacesLive(T, B)
  {
    forall p | p in T ensures RootLive(T, p) { assert TableOk(ops, mem, T, p); }
    forall d | d in B ensures HomeLive(T, B, d) { assert BackingMapped(ops, mem, T, B, d); }
  }

  lemma SmallFree(ops: PteOps, mem: Mem, T: Tables, tasks: Tasks, id: nat, v: Vpn)
    requires TasksOk(ops, mem, T, tasks) && id in tasks && Lookup(ops, mem, tasks[id].root, v).Unmapped?
    ensures IsRoot(T, tasks[id].root) && CanMap(ops, mem, T, tasks[id].root, 0, v)
  { hide Lookup; }

  lemma WindowFits(ops: PteOps)
    requires Lawful(ops)
    ensures WINDOW <= ops.maxPhys
  {}

  lemma PageUnowned(a: set<nat>, T: Tables, B: Backing, stacks: set<nat>, boot: set<nat>, page: nat)
    requires Partition(a, T, B, stacks, boot) && page !in a
    ensures page !in T && page !in B && page !in stacks && page !in boot
  {}

  /** Mapping a small user page in the low half keeps every task. */
  lemma SmallKeepsTasks(ops: PteOps, mem: Mem, mem': Mem, T: Tables, T': Tables, tasks: Tasks, root: nat, v: Vpn,
                        pa: nat)
    requires TasksOk(ops, mem, T, tasks) && Extends(T, T') && Updated(ops, mem, mem', T, root, 0, v, pa, User)
    requires !InSomeWindow(v) && v.i3 < ENTRIES / 2
    ensures TasksOk(ops, mem', T', tasks)
  {
    hide Lookup, InSomeWindow;
    forall id | id in tasks
      ensures IsRoot(T', tasks[id].root) && HasWindows(ops, mem', tasks[id].root) && LowUser(ops, mem', tasks[id].root)
    {
      var r := tasks[id].root;
      forall w | InTable(w)
        ensures w == v && r == root ==> Maps(Lookup(ops, mem', r, w), 0, pa, User)
        ensures w != v || r != root ==> Lookup(ops, mem', r, w) == Lookup(ops, mem, r, w)
      { PrefixZero(w, v); }
    }
  }

  /** A fresh page becomes a backing page, and the pages allocated next become tables. */
  lemma PartitionPage(a0: set<nat>, a1: set<nat>, a2: set<nat>, T: Tables, T': Tables, B: Backing,
                      stacks: set<nat>, boot: set<nat>, page: nat, home: Home)
    requires Partition(a0, T, B, stacks, boot) && page !in a0 && a1 == a0 + {page} && T.Keys <= T'.Keys
    requires a2 == a1 + (T'.Keys - T.Keys) && (T'.Keys - T.Keys) !! a1
    ensures Partition(a2, T', B[page := home], stacks, boot)
  {
    assert Partition(a1, T, B[page := home], stacks, boot) by { assert (B[page := home]).Keys == B.Keys + {page}; }
    PartitionGrows(a1, a2, T, T', B[page := home], stacks, boot);
  }

  lemma StackTaken(ops: PteOps, mem: Mem, a0: set<nat>, a1: set<nat>, T: Tables, B: Backing, tasks: Tasks,
                   boot: set<nat>, id: nat, stack: nat)
    requires Partition(a0, T, B, Stacks(tasks), boot) && TasksOk(ops, mem, T, tasks)
    requires id in tasks && tasks[id].kstack == 0 && stack !in a0 && stack != 0 && a1 == a0 + {stack}
    ensures var tasks' := tasks[id := tasks[id].(kstack := stack)];
      TasksOk(ops, mem, T, tasks') && Partition(a1, T, B, Stacks(tasks'), boot)
  {
    hide Lookup, HasWindows;
    var tasks' := tasks[id := tasks[id].(kstack := stack)];
    forall x | x in Stacks(tasks) ensures x in Stacks(tasks') {
      var a :| a in tasks && tasks[a].kstack != 0 && tasks[a].kstack == x;
      assert tasks'[a].kstack == x;
    }
    assert tasks'[id].kstack == stack;
    assert Stacks(tasks') == Stacks(tasks) + {stack};
    forall a | a in tasks && tasks[a].kstack != 0 ensures tasks[a].kstack != stack {
      assert tasks[a].kstack in Stacks(tasks);
    }
  }

  lemma LowVpn(va: nat)
    requires va < VA_SPACE / 2
    ensures !InSomeWindow(Split(va)) && Split(va).i3 < ENTRIES / 2
  { assert va / SUPER < 256; }

  lemma TaskFacts(ops: PteOps, mem: Mem, T: Tables, tasks: Tasks, id: nat)
    requires TasksOk(ops, mem, T, tasks) && id in tasks
    ensures IsRoot(T, tasks[id].root)
    ensures HasWindows(ops, mem, tasks[id].root) && LowUser(ops, mem, tasks[id].root)
  {}

  lemma WindowsMapped(ops: PteOps, mem: Mem, root: nat)
    requires HasWindows(ops, mem, root)
    ensures forall v | InTable(v) && InSomeWindow(v) :: var m := Lookup(ops, mem, root, v); m.Mapped? && m.level == 2
  { hide Lookup, InSomeWindow; }

  /** Unmapping the windows touches no small mapping and no other space. */
  lemma WindowsGone(ops: PteOps, mem: Mem, mem': Mem, T: Tables, B: Backing, root: nat)
    requires BackingInv(ops, mem, T, B) && KernelUnmapped(ops, mem, mem', T, root) && HasWindows(ops, mem, root)
    ensures BackingInv(ops, mem', T, B) && OthersSame(ops, mem, mem', T, root)
  {
    hide Lookup, InSomeWindow, BackingInv;
    forall r, v | IsRoot(T, r) && InTable(v) ensures SameSmall(ops, mem, mem', T, r, v) {}
    BackingSame(ops, mem, mem', T, T, B);
  }

  lemma OwnedAllocated(alloc: set<nat>, T: Tables, B: Backing, tasks: Tasks, boot: set<nat>, id: nat)
    requires Partition(alloc, T, B, Stacks(tasks), boot) && id in tasks
    ensures PagesOf(T, B, tasks[id].root) <= alloc && T.Keys !! B.Keys
    ensures tasks[id].kstack != 0 ==> tasks[id].kstack in alloc && tasks[id].kstack !in PagesOf(T, B, tasks[id].root)
  {
    if tasks[id].kstack != 0 { assert tasks[id].kstack in Stacks(tasks); }
  }

  lemma StackIsPage(alloc: set<nat>, pages: set<nat>, stack: nat)
    requires alloc <= pages && stack in alloc
    ensures stack in pages
  {}

  lemma TaskGone(ops: PteOps, mem: Mem, mem': Mem, T: Tables, tasks: Tasks, id: nat)
    requires TasksOk(ops, mem, T, tasks) && id in tasks && OthersSame(ops, mem, mem', T, tasks[id].root)
    ensures TasksOk(ops, mem', OtherTables(T, tasks[id].root), tasks - {id})
  {
    hide Lookup, InSomeWindow;
  }

  lemma PartitionShrinks(alloc: set<nat>, T: Tables, B: Backing, tasks: Tasks, boot: set<nat>, id: nat)
    requires Partition(alloc, T, B, Stacks(tasks), boot) && id in tasks
    requires forall b | b in tasks && b != id :: tasks[id].kstack != tasks[b].kstack || tasks[id].kstack == 0
    ensures var root := tasks[id].root;
      Partition(alloc - Owned(T, B, tasks[id]), OtherTables(T, root), OtherBacking(B, root), Stacks(tasks - {id}), boot)
  {
    var t := tasks[id];
    StacksShrink(tasks, id);
    assert OtherTables(T, t.root).Keys == T.Keys - PagesOf(T, B, t.root);
    assert OtherBacking(B, t.root).Keys == B.Keys - PagesOf(T, B, t.root);
  }

  lemma StacksDistinct(ops: PteOps, mem: Mem, T: Tables, tasks: Tasks, id: nat)
    requires TasksOk(ops, mem, T, tasks) && id in tasks
    ensures forall b | b in tasks && b != id :: tasks[id].kstack != tasks[b].kstack || tasks[id].kstack == 0
  {}

  lemma StacksShrink(tasks: Tasks, id: nat)
    requires id in tasks
    requires forall b | b in tasks && b != id :: tasks[id].kstack != tasks[b].kstack || tasks[id].kstack == 0
    ensures Stacks(tasks - {id}) == Stacks(tasks) - (if tasks[id].kstack == 0 then {} else {tasks[id].kstack})
  {
    forall x | x in Stacks(tasks) && (tasks[id].kstack == 0 || x != tasks[id].kstack)
        ensures x in Stacks(tasks - {id}) {
      var a :| a in tasks && tasks[a].kstack != 0 && tasks[a].kstack == x;
      assert (tasks - {id})[a].kstack == x;
    }
  }

  /** The pages allocated beyond alloc are exactly those of task t. */
  ghost predicate OnlyTask(alloc: set<nat>, alloc': set<nat>, T: Tables, B: Backing, t: TaskMem) {
    alloc' == alloc + Owned(T, B, t) && Owned(T, B, t) !! alloc
  }

  lemma OwnedGrows(alloc: set<nat>, a: set<nat>, a': set<nat>, T: Tables, T': Tables, B: Backing, t: TaskMem,
                   page: nat, v: Vpn)
    requires OnlyTask(alloc, a, T, B, t) && GrownBy(T, T', t.root) && page !in a && T.Keys <= a && B.Keys <= a
    requires a' == a + {page} + (T'.Keys - T.Keys) && (T'.Keys - T.Keys) !! a
    ensures OnlyTask(alloc, a', T', B[page := Home(t.root, v)], t)
  {
    var B' := B[page := Home(t.root, v)];
    assert PagesOf(T', B', t.root) == PagesOf(T, B, t.root) + {page} + (T'.Keys - T.Keys);
  }

  lemma StackOwned(alloc: set<nat>, a: set<nat>, a': set<nat>, T: Tables, B: Backing, t: TaskMem, stack: nat)
    requires OnlyTask(alloc, a, T, B, t) && t.kstack == 0 && stack !in a && stack != 0 && a' == a + {stack}
    ensures OnlyTask(alloc, a', T, B, t.(kstack := stack))
  {}

  /** How create_empty_task ends: a failed assertion, a panic of alloc_page, or a task. */
  datatype Created = PoolFull | HeapFull | Made(id: nat)

  class TaskPool {
    const vm: AddressSpaces
    var tasks: Tasks
    /** The bytes of data pages. */
    var data: Data
    ghost var backing: Backing
    ghost var boot: set<nat>

    ghost predicate Valid()
      reads this, vm, vm.heap.allocMap
    {
      && vm.Valid() && BackingInv(vm.ops, vm.mem, vm.tables, backing)
      && Partition(vm.heap.Allocated(), vm.tables, backing, Stacks(tasks), boot)
      && TasksOk(vm.ops, vm.mem, vm.tables, tasks)
    }

    /** No task yet; the pages already allocated are boot's. */
    constructor (vm: AddressSpaces)
      requires vm.Valid() && BackingInv(vm.ops, vm.mem, vm.tables, map[])
      ensures Valid() && this.vm == vm && tasks == map[] && backing == map[]
    {
      hide TreeInv, Lawful, AllWritten, BackingInv;
      this.vm := vm;
      tasks, data, backing := map[], map[], map[];
      boot := vm.heap.Allocated() - vm.tables.Keys;
      new;
      assert Stacks(tasks) == {};
    }

    /** The memory is used up: where alloc_page panics. */
    ghost predicate Exhausted()
      reads this, vm, vm.heap.allocMap
    { vm.heap.Valid() && vm.heap.Allocated() == vm.heap.AllPages() }

    /** create_empty_task (src/kernel/task.c:22-51): takes the first free slot of the pool. */
    method CreateEmptyTask() returns (r: Created)
      requires Valid()
      modifies this, vm, vm.heap.allocMap
      ensures r.PoolFull? <==> FirstFree(old(tasks).Keys, 0) == MAX_TASKS
      ensures r.HeapFull? ==> Exhausted()
      ensures r.Made? ==>
        && r.id == FirstFree(old(tasks).Keys, 0) && r.id in tasks
        && Valid() && tasks == old(tasks)[r.id := TaskMem(tasks[r.id].root, 0)]
        && backing == old(backing) && boot == old(boot) && data == old(data)
        && EmptyUserHalf(vm.ops, vm.mem, tasks[r.id].root)
        && Apart(vm.ops, old(vm.mem), vm.mem, data, data, old(vm.tables), vm.tables, backing, backing, tasks[r.id].root)
        && OnlyTask(old(vm.heap.Allocated()), vm.heap.Allocated(), vm.tables, backing, tasks[r.id])
    {
      hide TreeInv, Lawful, BackingInv, SameLookups, HasWindows, KernelMapped, EmptyUserHalf, Lookup, TasksOk, Stacks;
      hide Partition, PagesOf, Accounted, SpacesLive, OnlyUpperTables, Apart;
      var id := 0;
      while id < MAX_TASKS && id in tasks
        invariant id <= MAX_TASKS && FirstFree(tasks.Keys, 0) == FirstFree(tasks.Keys, id)
      {
        id := id + 1;
      }
      if id == MAX_TASKS { return PoolFull; }
      RootsLive(vm.ops, vm.mem, vm.tables, backing);
      var p := vm.AllocPagetable();
      if p.None? { return HeapFull; }
      var root := p.value;
      ghost var mem1, tables1, alloc1 := vm.mem, vm.tables, vm.heap.Allocated();
      FreshSpace(old(vm.tables), backing, root);
      var ok := MapKernel(vm, root);
      if !ok { return HeapFull; }
      NewTables(alloc1, vm.heap.Allocated(), tables1, vm.tables, root);
      NewTaskOk(vm.ops, old(vm.mem), mem1, vm.mem, old(vm.tables), tables1, vm.tables, backing, root);
      NewTaskTasks(vm.ops, old(vm.mem), vm.mem, old(vm.tables), vm.tables, tasks, id, root);
      NewTaskPages(old(vm.heap.Allocated()), alloc1, vm.heap.Allocated(), old(vm.tables), tables1, vm.tables, backing,
                   Stacks(tasks), boot, root);
      NewSpaceApart(vm.ops, old(vm.mem), vm.mem, data, old(vm.tables), vm.tables, backing, root);
      tasks := tasks[id := TaskMem(root, 0)];
      return Made(id);
    }

    /** Allocates a page and maps it for the task's user code at va: alloc_page and map_page. */
    method AddUserPage(id: nat, va: nat) returns (ok: bool, page: nat)
      requires Valid() && id in tasks && va % SMALL == 0 && va < VA_SPACE / 2
      requires Lookup(vm.ops, vm.mem, tasks[id].root, Split(va)).Unmapped?
      modifies this, vm, vm.heap.allocMap
      ensures tasks == old(tasks) && data == old(data) && boot == old(boot)
      ensures !ok ==> Exhausted()
      ensures ok ==>
        && Valid() && KernPtr(page) && page !in old(vm.heap.Allocated()) && page !in old(backing)
        && backing == old(backing)[page := Home(tasks[id].root, Split(va))]
        && GrownBy(old(vm.tables), vm.tables, tasks[id].root)
        && Updated(vm.ops, old(vm.mem), vm.mem, old(vm.tables), tasks[id].root, 0, Split(va), V2P(page), User)
        && vm.heap.Allocated() == old(vm.heap.Allocated()) + {page} + (vm.tables.Keys - old(vm.tables).Keys)
        && (vm.tables.Keys - old(vm.tables).Keys) !! old(vm.heap.Allocated())
    {
      hide TreeInv, Lawful, BackingInv, Partition, TasksOk, Updated, Lookup, CanMap, Stacks, Split, InSomeWindow, V2P;
      page := 0;
      var root := tasks[id].root;
      var r := vm.heap.AllocPage();
      if r.None? { return false, 0; }
      page := r.value;
      ghost var alloc1 := vm.heap.Allocated();
      KernPtrRoundTrip(page);
      LowVpn(va);
      SmallFree(vm.ops, vm.mem, vm.tables, tasks, id, Split(va));
      PageUnowned(old(vm.heap.Allocated()), vm.tables, backing, Stacks(tasks), boot, page);
      WindowFits(vm.ops);
      ok := vm.MapPage(root, va, V2P(page), 0, User);
      if !ok { return; }
      BackingAdded(vm.ops, old(vm.mem), vm.mem, old(vm.tables), vm.tables, backing, root, Split(va), page, User);
      SmallKeepsTasks(vm.ops, old(vm.mem), vm.mem, old(vm.tables), vm.tables, tasks, root, Split(va), V2P(page));
      PartitionPage(old(vm.heap.Allocated()), alloc1, vm.heap.Allocated(), old(vm.tables), vm.tables, backing,
                    Stacks(tasks), boot, page, Home(root, Split(va)));
      backing := backing[page := Home(root, Split(va))];
    }

    /** setup_blank_thread (src/kernel/thread.c:7-18), memory side: the kernel stack. */
    method SetupBlankThread(id: nat, ghost alloc: set<nat>) returns (ok: bool)
      requires Valid() && id in tasks && tasks[id].kstack == 0
      requires OnlyTask(alloc, vm.heap.Allocated(), vm.tables, backing, tasks[id])
      modifies this`tasks, vm.heap.allocMap
      ensures !ok ==> Exhausted()
      ensures ok ==>
        && Valid() && id in tasks && tasks[id].kstack !in {0} + old(vm.heap.Allocated())
        && tasks == old(tasks)[id := TaskMem(old(tasks)[id].root, tasks[id].kstack)]
        && vm.heap.Allocated() == old(vm.heap.Allocated()) + {tasks[id].kstack}
        && OnlyTask(alloc, vm.heap.Allocated(), vm.tables, backing, tasks[id])
    {
      hide TreeInv, Lawful, BackingInv, Partition, TasksOk, OnlyTask, Stacks;
      var r := vm.heap.AllocPage();
      if r.None? { return false; }
      var stack := r.value;
      StackTaken(vm.ops, vm.mem, old(vm.heap.Allocated()), vm.heap.Allocated(), vm.tables, backing, tasks, boot, id,
                 stack);
      StackOwned(alloc, old(vm.heap.Allocated()), vm.heap.Allocated(), vm.tables, backing, tasks[id], stack);
      tasks := tasks[id := tasks[id].(kstack := stack)];
      return true;
    }

    /** setup_user_thread (src/kernel/thread.c:101-117): a kernel stack and a user stack page. */
    method SetupUserThread(id: nat, ghost alloc: set<nat>) returns (ok: bool, page: nat)
      requires Valid() && id in tasks && tasks[id].kstack == 0
      requires OnlyTask(alloc, vm.heap.Allocated(), vm.tables, backing, tasks[id])
      requires Lookup(vm.ops, vm.mem, tasks[id].root, Split(DEFAULT_USER_STACK)).Unmapped?
      modifies this, vm, vm.heap.allocMap
      ensures !ok ==> Exhausted()
      ensures ok ==>
        && Valid() && data == old(data) && boot == old(boot)
        && id in tasks && tasks == old(tasks)[id := TaskMem(old(tasks)[id].root, tasks[id].kstack)]
            && tasks[id].kstack != 0
        && GrownBy(old(vm.tables), vm.tables, tasks[id].root)
        && page !in old(vm.heap.Allocated()) && KernPtr(page) && page !in old(backing)
        && backing == old(backing)[page := Home(tasks[id].root, Split(DEFAULT_USER_STACK))]
        && Updated(vm.ops, old(vm.mem), vm.mem, old(vm.tables), tasks[id].root, 0, Split(DEFAULT_USER_STACK),
                   V2P(page), User)
        && OnlyTask(alloc, vm.heap.Allocated(), vm.tables, backing, tasks[id])
    {
      hide TreeInv, Lawful, BackingInv, Partition, TasksOk, Updated, Lookup, Split, InSomeWindow, V2P, OnlyTask, Stacks;
      page := 0;
      ok := SetupBlankThread(id, alloc);
      if !ok { return; }
      ghost var alloc1 := vm.heap.Allocated();
      KeysAllocated(alloc1, vm.tables, backing, Stacks(tasks), boot);
      ok, page := AddUserPage(id, DEFAULT_USER_STACK);
      if !ok { return; }
      OwnedGrows(alloc, alloc1, vm.heap.Allocated(), old(vm.tables), vm.tables, old(backing), tasks[id], page,
                 Split(DEFAULT_USER_STACK));
    }

    /** unmap_kernel, free_pagetable and free_thread (src/kernel/task.c:170-172): returns exactly the task's pages to
        the heap. It never reaches a panic of free_page: ok is always true. */
    method FreePages(id: nat) returns (ok: bool)
      requires Valid() && id in tasks
      modifies vm`mem, vm.heap.allocMap
      ensures ok && vm.heap.Allocated() == old(vm.heap.Allocated()) - Owned(vm.tables, backing, tasks[id])
      ensures TreeInv(vm.ops, vm.mem, vm.tables) && AllWritten(vm.ops, vm.mem)
      ensures BackingInv(vm.ops, vm.mem, vm.tables, backing)
      ensures OthersSame(vm.ops, old(vm.mem), vm.mem, vm.tables, tasks[id].root)
    {
      hide TreeInv, Lawful, AllWritten, BackingInv, Partition, TasksOk, Lookup, KernelUnmapped, PagesUnder, PagesOf;
      hide OtherTables, OtherBacking, OthersSame, HasWindows, Stacks;
      var t := tasks[id];
      TaskFacts(vm.ops, vm.mem, vm.tables, tasks, id);
      WindowsMapped(vm.ops, vm.mem, t.root);
      UnmapKernel(vm, t.root);
      WindowsGone(vm.ops, old(vm.mem), vm.mem, vm.tables, backing, t.root);
      UnderRoot(vm.ops, vm.mem, vm.tables, backing, t.root);
      OwnedAllocated(vm.heap.Allocated(), vm.tables, backing, tasks, boot, id);
      ok := FreePagetableRecursive(vm, t.root, TOP, vm.tables, backing);
      if t.kstack != 0 {
        vm.heap.AllocatedArePages();
        StackIsPage(old(vm.heap.Allocated()), vm.heap.AllPages(), t.kstack);
        ok := vm.heap.FreePage(t.kstack);
      }
    }

    /** free_task's memory part: the task's pages go back to the heap, and every other task is left as it was. */
    method FreeTask(id: nat) returns (ok: bool)
      requires Valid() && id in tasks
      modifies this, vm, vm.heap.allocMap
      ensures ok && Valid() && tasks == old(tasks) - {id} && boot == old(boot) && data == old(data)
      ensures vm.heap.Allocated() == old(vm.heap.Allocated()) - old(Owned(vm.tables, backing, tasks[id]))
      ensures vm.tables == OtherTables(old(vm.tables), old(tasks[id].root))
      ensures backing == OtherBacking(old(backing), old(tasks[id].root))
      ensures OthersSame(vm.ops, old(vm.mem), vm.mem, old(vm.tables), old(tasks[id].root))
    {
      hide TreeInv, Lawful, AllWritten, BackingInv, Partition, TasksOk, Owned, Stacks;
      hide OtherTables, OtherBacking, OthersSame;
      var t := tasks[id];
      ok := FreePages(id);
      OthersKept(vm.ops, vm.mem, vm.tables, backing, t.root);
      TaskGone(vm.ops, old(vm.mem), vm.mem, vm.tables, tasks, id);
      StacksDistinct(vm.ops, old(vm.mem), vm.tables, tasks, id);
      PartitionShrinks(old(vm.heap.Allocated()), vm.tables, backing, tasks, boot, id);
      KeysAllocated(vm.heap.Allocated(), OtherTables(vm.tables, t.root), OtherBacking(backing, t.root),
                    Stacks(tasks - {id}), boot);
      vm.tables := OtherTables(vm.tables, t.root);
      backing := OtherBacking(backing, t.root);
      tasks := tasks - {id};
    }
  }
}
