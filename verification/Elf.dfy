/** The ELF segment loader (src/kernel/elf.c) and the memory side of spawning a task (src/kernel/task.c). */
module Elf {
  import opened Common
  import opened Addr
  import opened Pte
  import opened PageTable
  import opened Vm
  import opened FreeTables
  import opened Windows
  import opened TaskMemory
  import Tar

  // ---- A page of the image ------------------------------------------------------

  /** The byte of the file at an offset, zero past its end. */
  function FileByte(contents: seq<nat>, offset: nat): nat { if offset < |contents| then contents[offset] else 0 }

  /** A zeroed page with the file read into it from the given offset: memset and tar_read_at. */
  function PageImage(contents: seq<nat>, offset: nat): (page: seq<nat>)
    ensures |page| == SMALL
    ensures forall k | 0 <= k < SMALL :: page[k] == FileByte(contents, offset + k)
  {
    var bytes := Tar.ReadAt(contents, SMALL, offset);
    bytes + seq(SMALL - |bytes|, _ => 0)
  }

  /** A program header of type PT_LOAD. The loader does not look at filesz. */
  datatype Segment = Segment(vaddr: nat, offset: nat, filesz: nat, memsz: nat)

  /** ROUND_UP_POW2(p_memsz, 4096) / 4096. */
  function NumPages(s: Segment): nat { (s.memsz + (SMALL - 1)) / SMALL }

  /** The pages cover the segment, and the last is needed. */
  lemma PagesTight(s: Segment)
    ensures s.memsz <= 4096 * NumPages(s) < s.memsz + 4096
  {}

  function PageAddr(s: Segment, i: nat): nat { s.vaddr + SMALL * i }

  /** What load_seg asserts, and the user half it is meant for. */
  predicate Loadable(s: Segment) {
    s.memsz > 0 && s.vaddr % SMALL == 0 && s.vaddr + SMALL * NumPages(s) <= VA_SPACE / 2
  }

  lemma PageAddrOk(s: Segment, i: nat)
    requires Loadable(s) && i < NumPages(s)
    ensures PageAddr(s, i) % SMALL == 0 && PageAddr(s, i) + SMALL <= VA_SPACE / 2
    ensures !InSomeWindow(Split(PageAddr(s, i)))
  {
    hide Split, InSomeWindow;
    assert i + 1 <= NumPages(s);
    assert SMALL * i + SMALL <= SMALL * NumPages(s);
    assert (s.vaddr + SMALL * i) % SMALL == 0;
    LowVpn(PageAddr(s, i));
  }

  /** Addresses below 2^48 in different pages have different indices. */
  lemma DistinctPages(a: nat, b: nat)
    requires a < VA_SPACE && b < VA_SPACE
    ensures Split(a) == Split(b) <==> a / SMALL == b / SMALL
  {
    hide Split;
    SameBlockIsSamePrefix(a, b, 0);
    PrefixZero(Split(a), Split(b));
  }

  // ---- The loaded segment -----------------------------------------------------------

  /** The page at va is mapped for user code and holds the given bytes. */
  ghost predicate PageHolds(ops: PteOps, mem: Mem, data: Data, root: nat, va: nat, bytes: seq<nat>) {
    var m := Lookup(ops, mem, root, Split(va));
    m.Mapped? && m.level == 0 && m.priv == User && P2V(m.phys) in data && data[P2V(m.phys)] == bytes
  }

  ghost predicate PagesHold(ops: PteOps, mem: Mem, data: Data, root: nat, s: Segment, contents: seq<nat>, n: nat) {
    forall i | 0 <= i < n :: PageHolds(ops, mem, data, root, PageAddr(s, i), PageImage(contents, s.offset + SMALL * i))
  }

  ghost predicate PagesFree(ops: PteOps, mem: Mem, root: nat, s: Segment, n: nat) {
    forall i | n <= i < NumPages(s) :: Lookup(ops, mem, root, Split(PageAddr(s, i))).Unmapped?
  }

  /** v is one of the first n pages of the segment. */
  ghost predicate InPages(s: Segment, v: Vpn, n: nat) { exists i | 0 <= i < n :: v == Split(PageAddr(s, i)) }

  /** Outside the first n pages of the segment, every space is mapped as before. */
  ghost predicate OnlySegment(ops: PteOps, mem: Mem, mem': Mem, T: Tables, root: nat, s: Segment, n: nat) {
    forall r, v | IsRoot(T, r) && InTable(v) && !(r == root && InPages(s, v, n)) ::
        Lookup(ops, mem', r, v) == Lookup(ops, mem, r, v)
  }

  /** Mapping one more page keeps the pages before it, and leaves the pages after it free. */
  lemma NextPage(ops: PteOps, m: Mem, m': Mem, data: Data, T: Tables, B: Backing, root: nat,
                 s: Segment, contents: seq<nat>, i: nat, page: nat)
    requires Loadable(s) && i < NumPages(s) && IsRoot(T, root) && KernPtr(page) && page !in B
      && BackingInv(ops, m, T, B)
    requires Updated(ops, m, m', T, root, 0, Split(PageAddr(s, i)), V2P(page), User)
    requires PagesHold(ops, m, data, root, s, contents, i) && PagesFree(ops, m, root, s, i)
    ensures PagesHold(ops, m', data[page := PageImage(contents, s.offset + SMALL * i)], root, s, contents, i + 1)
    ensures PagesFree(ops, m', root, s, i + 1)
  {
    hide Lookup, Split, PageImage, P2V, V2P, BackingInv;
    var va := PageAddr(s, i);
    KernPtrRoundTrip(page);
    var data' := data[page := PageImage(contents, s.offset + SMALL * i)];
    forall j | 0 <= j < i + 1
      ensures PageHolds(ops, m', data', root, PageAddr(s, j), PageImage(contents, s.offset + SMALL * j))
    {
      if j < i {
        OtherPage(ops, m, m', T, root, s, i, j, V2P(page));
        assert PageHolds(ops, m, data, root, PageAddr(s, j), PageImage(contents, s.offset + SMALL * j));
        PageIsBacked(ops, m, T, B, root, PageAddr(s, j));
      } else {
        assert Maps(Lookup(ops, m', root, Split(va)), 0, V2P(page), User);
      }
    }
    forall j | i + 1 <= j < NumPages(s) ensures Lookup(ops, m', root, Split(PageAddr(s, j))).Unmapped? {
      OtherPage(ops, m, m', T, root, s, i, j, V2P(page));
    }
  }

  lemma PageIsBacked(ops: PteOps, m: Mem, T: Tables, B: Backing, root: nat, va: nat)
    requires BackingInv(ops, m, T, B) && IsRoot(T, root)
    ensures var x := Lookup(ops, m, root, Split(va));
      x.Mapped? && x.level == 0 ==> P2V(x.phys) in B && B[P2V(x.phys)].root == root
  {
    hide Lookup, P2V;
    assert SmallIsBacked(ops, m, B, root, Split(va));
  }

  lemma OtherPage(ops: PteOps, m: Mem, m': Mem, T: Tables, root: nat, s: Segment, i: nat, j: nat, pa: nat)
    requires Loadable(s) && i < NumPages(s) && j < NumPages(s) && i != j && IsRoot(T, root)
    requires Updated(ops, m, m', T, root, 0, Split(PageAddr(s, i)), pa, User)
    ensures Lookup(ops, m', root, Split(PageAddr(s, j))) == Lookup(ops, m, root, Split(PageAddr(s, j)))
  {
    hide Lookup, Split;
    PageAddrOk(s, i);
    PageAddrOk(s, j);
    DistinctPages(PageAddr(s, i), PageAddr(s, j));
    PrefixZero(Split(PageAddr(s, j)), Split(PageAddr(s, i)));
  }

  lemma OnlySegmentStep(ops: PteOps, m0: Mem, m: Mem, m': Mem, T0: Tables, T: Tables, root: nat, s: Segment, i: nat,
                        pa: nat)
    requires OnlySegment(ops, m0, m, T0, root, s, i) && Extends(T0, T)
    requires Updated(ops, m, m', T, root, 0, Split(PageAddr(s, i)), pa, User)
    ensures OnlySegment(ops, m0, m', T0, root, s, i + 1)
  {
    hide Lookup, Split;
    forall r, v | IsRoot(T0, r) && InTable(v) && !(r == root && InPages(s, v, i + 1))
      ensures Lookup(ops, m', r, v) == Lookup(ops, m0, r, v)
    {
      assert IsRoot(T, r);
      PrefixZero(v, Split(PageAddr(s, i)));
      assert InPages(s, v, i) ==> InPages(s, v, i + 1);
      assert v == Split(PageAddr(s, i)) ==> InPages(s, v, i + 1);
    }
  }

  /** The state of the loader after i pages. */
  ghost predicate Loading(ops: PteOps, mem0: Mem, mem: Mem, data0: Data, data: Data, T0: Tables, T: Tables,
                          B0: Backing, B: Backing, root: nat, s: Segment, contents: seq<nat>, i: nat) {
    && GrownBy(T0, T, root) && BackingGrownBy(B0, B, root)
    && OldDataKept(data0, data, B0) && NewDataOnly(data0, data, B)
    && PagesHold(ops, mem, data, root, s, contents, i) && PagesFree(ops, mem, root, s, i)
    && OnlySegment(ops, mem0, mem, T0, root, s, i)
  }

  /** Loading changes the task's own space only. */
  lemma LoadingOnlySpace(ops: PteOps, mem0: Mem, mem: Mem, data0: Data, data: Data, T0: Tables, T: Tables,
                         B0: Backing, B: Backing, root: nat, s: Segment, contents: seq<nat>, i: nat)
    requires Loading(ops, mem0, mem, data0, data, T0, T, B0, B, root, s, contents, i)
    ensures OnlySpace(ops, mem0, mem, data0, data, T0, T, B0, B, root)
  { hide Lookup, PagesHold, PagesFree, InPages; }

  lemma LoadingStart(ops: PteOps, mem: Mem, data: Data, T: Tables, B: Backing, root: nat, s: Segment,
                     contents: seq<nat>)
    requires PagesFree(ops, mem, root, s, 0)
    ensures Loading(ops, mem, mem, data, data, T, T, B, B, root, s, contents, 0)
  { hide Lookup; }

  lemma LoadingStep(ops: PteOps, mem0: Mem, m: Mem, m': Mem, data0: Data, data: Data, T0: Tables, T: Tables, T': Tables,
                    B0: Backing, B: Backing, root: nat, s: Segment, contents: seq<nat>, i: nat, page: nat)
    requires Loading(ops, mem0, m, data0, data, T0, T, B0, B, root, s, contents, i)
    requires Loadable(s) && i < NumPages(s) && IsRoot(T, root) && KernPtr(page) && page !in B
      && BackingInv(ops, m, T, B)
    requires Updated(ops, m, m', T, root, 0, Split(PageAddr(s, i)), V2P(page), User) && GrownBy(T, T', root)
    ensures Loading(ops, mem0, m', data0, data[page := PageImage(contents, s.offset + SMALL * i)], T0, T',
                    B0, B[page := Home(root, Split(PageAddr(s, i)))], root, s, contents, i + 1)
  {
    hide PagesHold, PagesFree, OnlySegment, BackingInv, Updated, Lookup, Split, PageImage, V2P, KernPtr, Loadable;
    NextPage(ops, m, m', data, T, B, root, s, contents, i, page);
    OnlySegmentStep(ops, mem0, m, m', T0, T, root, s, i, V2P(page));
  }

  /** One turn of load_seg's loop: allocate, map and fill page i. */
  method LoadPage(pool: TaskPool, id: nat, s: Segment, contents: seq<nat>, i: nat, ghost alloc: set<nat>,
                  ghost mem0: Mem, ghost data0: Data, ghost T0: Tables, ghost B0: Backing) returns (ok: bool)
    requires pool.Valid() && id in pool.tasks && Loadable(s) && i < NumPages(s)
    requires Loading(pool.vm.ops, mem0, pool.vm.mem, data0, pool.data, T0, pool.vm.tables, B0, pool.backing,
                     pool.tasks[id].root, s, contents, i)
    requires OnlyTask(alloc, pool.vm.heap.Allocated(), pool.vm.tables, pool.backing, pool.tasks[id])
    modifies pool, pool.vm, pool.vm.heap.allocMap
    ensures !ok ==> pool.Exhausted()
    ensures ok ==>
      && pool.Valid() && pool.tasks == old(pool.tasks) && pool.boot == old(pool.boot)
      && Loading(pool.vm.ops, mem0, pool.vm.mem, data0, pool.data, T0, pool.vm.tables, B0, pool.backing,
                 pool.tasks[id].root, s, contents, i + 1)
      && OnlyTask(alloc, pool.vm.heap.Allocated(), pool.vm.tables, pool.backing, pool.tasks[id])
  {
    hide TreeInv, Lawful, BackingInv, Partition, TasksOk, Updated, Lookup, Split, PageImage, InSomeWindow, PagesHold,
        PagesFree;
    hide OnlyTask, Stacks, V2P, KernPtr, Loadable, OnlySegment, Loading;
    PageAddrOk(s, i);
    NextIsFree(pool.vm.ops, mem0, pool.vm.mem, data0, pool.data, T0, pool.vm.tables, B0, pool.backing,
               pool.tasks[id].root, s, contents, i);
    TaskFacts(pool.vm.ops, pool.vm.mem, pool.vm.tables, pool.tasks, id);
    KeysAllocated(pool.vm.heap.Allocated(), pool.vm.tables, pool.backing, Stacks(pool.tasks), pool.boot);
    var page;
    ok, page := pool.AddUserPage(id, PageAddr(s, i));
    if !ok { return; }
    LoadingStep(pool.vm.ops, mem0, old(pool.vm.mem), pool.vm.mem, data0, pool.data, T0, old(pool.vm.tables),
                pool.vm.tables, B0, old(pool.backing), pool.tasks[id].root, s, contents, i, page);
    OwnedGrows(alloc, old(pool.vm.heap.Allocated()), pool.vm.heap.Allocated(), old(pool.vm.tables), pool.vm.tables,
               old(pool.backing), pool.tasks[id], page, Split(PageAddr(s, i)));
    pool.data := pool.data[page := PageImage(contents, s.offset + SMALL * i)];
  }

  lemma NextIsFree(ops: PteOps, mem0: Mem, m: Mem, data0: Data, data: Data, T0: Tables, T: Tables,
                   B0: Backing, B: Backing, root: nat, s: Segment, contents: seq<nat>, i: nat)
    requires Loading(ops, mem0, m, data0, data, T0, T, B0, B, root, s, contents, i) && i < NumPages(s)
    ensures Lookup(ops, m, root, Split(PageAddr(s, i))).Unmapped?
  { hide Lookup, Split; }

  /** load_seg (src/kernel/elf.c:9-27): on success the segment is loaded and nothing else changed.
      False where the source panics for lack of memory. */
  method LoadSeg(pool: TaskPool, id: nat, s: Segment, contents: seq<nat>, ghost alloc: set<nat>) returns (ok: bool)
    requires pool.Valid() && id in pool.tasks && Loadable(s)
    requires PagesFree(pool.vm.ops, pool.vm.mem, pool.tasks[id].root, s, 0)
    requires OnlyTask(alloc, pool.vm.heap.Allocated(), pool.vm.tables, pool.backing, pool.tasks[id])
    modifies pool, pool.vm, pool.vm.heap.allocMap
    ensures !ok ==> pool.Exhausted()
    ensures ok ==>
      && pool.Valid() && pool.tasks == old(pool.tasks) && pool.boot == old(pool.boot)
      && Loading(pool.vm.ops, old(pool.vm.mem), pool.vm.mem, old(pool.data), pool.data, old(pool.vm.tables),
                 pool.vm.tables, old(pool.backing), pool.backing, pool.tasks[id].root, s, contents, NumPages(s))
      && OnlyTask(alloc, pool.vm.heap.Allocated(), pool.vm.tables, pool.backing, pool.tasks[id])
  {
    hide TreeInv, Lawful, BackingInv, Partition, TasksOk, PagesFree, Loading, OnlyTask, Loadable;
    ghost var mem0, T0, data0, B0 := pool.vm.mem, pool.vm.tables, pool.data, pool.backing;
    LoadingStart(pool.vm.ops, mem0, data0, T0, B0, pool.tasks[id].root, s, contents);
    for i := 0 to NumPages(s)
      invariant pool.Valid() && pool.tasks == old(pool.tasks) && pool.boot == old(pool.boot)
      invariant Loading(pool.vm.ops, mem0, pool.vm.mem, data0, pool.data, T0, pool.vm.tables, B0, pool.backing,
                        pool.tasks[id].root, s, contents, i)
      invariant OnlyTask(alloc, pool.vm.heap.Allocated(), pool.vm.tables, pool.backing, pool.tasks[id])
    {
      ok := LoadPage(pool, id, s, contents, i, alloc, mem0, data0, T0, B0);
      if !ok { return; }
    }
    return true;
  }

  /** The page of user memory at va, if there is one. */
  ghost function UserPageAt(ops: PteOps, mem: Mem, root: nat, va: nat): Option<nat> {
    var m := Lookup(ops, mem, root, Split(va));
    if m.Mapped? && m.level == 0 && m.priv == User then Some(P2V(m.phys)) else None
  }

  /** The byte that user code reads at va, if it may read there and the byte is known. */
  ghost function UserByteAt(ops: PteOps, mem: Mem, data: Data, root: nat, va: nat): Option<nat> {
    var p := UserPageAt(ops, mem, root, va);
    if p.Some? && p.value in data && va % SMALL < |data[p.value]| then Some(data[p.value][va % SMALL]) else None
  }

  /** The ELF image: every byte of a loaded segment, read through the page table, is the file's byte, or zero past the
      file's end. */
  lemma ImageBytes(ops: PteOps, mem: Mem, data: Data, root: nat, s: Segment, contents: seq<nat>, va: nat)
    requires PagesHold(ops, mem, data, root, s, contents, NumPages(s)) && Loadable(s)
    requires s.vaddr <= va < s.vaddr + s.memsz
    ensures UserByteAt(ops, mem, data, root, va) == Some(FileByte(contents, s.offset + (va - s.vaddr)))
  {
    hide Lookup, Split, PageImage, P2V;
    var i := PageOfByte(s, va);
    var bytes := PageImage(contents, s.offset + SMALL * i);
    assert PageHolds(ops, mem, data, root, PageAddr(s, i), bytes);
    PageAddrOk(s, i);
    DistinctPages(va, PageAddr(s, i));
    ByteOfImage(contents, s.offset + SMALL * i, va % SMALL);
  }

  /** The page of the segment that holds va. */
  lemma PageOfByte(s: Segment, va: nat) returns (i: nat)
    requires Loadable(s) && s.vaddr <= va < s.vaddr + s.memsz
    ensures i < NumPages(s) && va == PageAddr(s, i) + va % SMALL && va / SMALL == PageAddr(s, i) / SMALL
    ensures s.offset + SMALL * i + va % SMALL == s.offset + (va - s.vaddr)
  {
    i := (va - s.vaddr) / SMALL;
    assert va - s.vaddr == SMALL * i + (va - s.vaddr) % SMALL && (va - s.vaddr) % SMALL == va % SMALL;
  }

  lemma ByteOfImage(contents: seq<nat>, offset: nat, k: nat)
    requires k < SMALL
    ensures |PageImage(contents, offset)| == SMALL
    ensures PageImage(contents, offset)[k] == FileByte(contents, offset + k)
  {}

  /** The part of a segment behind its file part reads as zero. */
  ghost predicate ZeroTail(ops: PteOps, mem: Mem, data: Data, root: nat, s: Segment) {
    forall va: nat | s.vaddr + s.filesz <= va < s.vaddr + s.memsz :: UserByteAt(ops, mem, data, root, va) == Some(0)
  }

  /** The file has only zeros, or nothing, where the tail of the segment is read from. */
  predicate ZerosInFile(contents: seq<nat>, s: Segment) {
    forall o: nat | s.offset + s.filesz <= o < s.offset + s.memsz && o < |contents| :: contents[o] == 0
  }

  /** Chapter 5 (Program Header) of the System V gABI wants a zero tail after p_filesz bytes. As p_filesz is ignored,
      the tail is zero if and only if the file happens to have zeros there, or ends. */
  lemma ZeroTailIff(ops: PteOps, mem: Mem, data: Data, root: nat, s: Segment, contents: seq<nat>)
    requires PagesHold(ops, mem, data, root, s, contents, NumPages(s)) && Loadable(s)
    ensures ZeroTail(ops, mem, data, root, s) <==> ZerosInFile(contents, s)
  {
    hide PagesHold, UserByteAt;
    forall va: nat | s.vaddr + s.filesz <= va < s.vaddr + s.memsz
      ensures UserByteAt(ops, mem, data, root, va) == Some(FileByte(contents, s.offset + (va - s.vaddr)))
    { ImageBytes(ops, mem, data, root, s, contents, va); }
    if ZeroTail(ops, mem, data, root, s) {
      forall o: nat | s.offset + s.filesz <= o < s.offset + s.memsz && o < |contents| ensures contents[o] == 0 {
        var va: nat := s.vaddr + (o - s.offset);
        assert UserByteAt(ops, mem, data, root, va) == Some(0);
      }
    }
  }

  /** A segment with one byte in the file and two in memory, followed in the file by the byte 9: the byte that should be
      zero reads as 9. */
  lemma TailOfNextSection(ops: PteOps, mem: Mem, data: Data, root: nat)
    requires PagesHold(ops, mem, data, root, Segment(0x40_0000, 0, 1, 2), [7, 9], 1)
    ensures UserByteAt(ops, mem, data, root, 0x40_0001) == Some(9)
    ensures !ZeroTail(ops, mem, data, root, Segment(0x40_0000, 0, 1, 2))
  {
    hide PagesHold, UserByteAt;
    ImageBytes(ops, mem, data, root, Segment(0x40_0000, 0, 1, 2), [7, 9], 0x40_0001);
  }

  // ---- The whole image ---------------------------------------------------------------

  /** No page belongs to both segments. */
  predicate DisjointSegments(a: Segment, b: Segment) {
    a.vaddr + SMALL * NumPages(a) <= b.vaddr || b.vaddr + SMALL * NumPages(b) <= a.vaddr
  }

  /** The segment holds neither the user stack page nor the argument page. */
  predicate ClearOf(s: Segment, va: nat) { va < s.vaddr || s.vaddr + SMALL * NumPages(s) <= va }

  predicate GoodImage(segs: seq<Segment>) {
    && (forall k | 0 <= k < |segs| ::
          Loadable(segs[k]) && ClearOf(segs[k], DEFAULT_USER_STACK) && ClearOf(segs[k], DEFAULT_ARG_LOCATION))
    && (forall j, k | 0 <= j < k < |segs| :: DisjointSegments(segs[j], segs[k]))
  }

  /** An address outside a segment keeps its mapping while the segment is loaded. */
  lemma OutsideSegment(ops: PteOps, m: Mem, m': Mem, T: Tables, root: nat, s: Segment, va: nat)
    requires OnlySegment(ops, m, m', T, root, s, NumPages(s)) && IsRoot(T, root) && Loadable(s)
    requires va < VA_SPACE && (va / SMALL < s.vaddr / SMALL || s.vaddr / SMALL + NumPages(s) <= va / SMALL)
    ensures Lookup(ops, m', root, Split(va)) == Lookup(ops, m, root, Split(va))
  {
    hide Lookup, Split;
    forall i | 0 <= i < NumPages(s) ensures Split(va) != Split(PageAddr(s, i)) {
      PageAddrOk(s, i);
      DistinctPages(va, PageAddr(s, i));
    }
  }

  /** The segments loaded so far, and those still to load. */
  ghost predicate ImageLoading(ops: PteOps, mem: Mem, data: Data, root: nat, segs: seq<Segment>, contents: seq<nat>,
                               n: nat) {
    && (forall k | 0 <= k < n <= |segs| :: PagesHold(ops, mem, data, root, segs[k], contents, NumPages(segs[k])))
    && (forall k | n <= k < |segs| :: PagesFree(ops, mem, root, segs[k], 0))
    && Lookup(ops, mem, root, Split(DEFAULT_USER_STACK)).Unmapped?
    && Lookup(ops, mem, root, Split(DEFAULT_ARG_LOCATION)).Unmapped?
  }

  lemma OtherSegmentKept(ops: PteOps, m: Mem, m': Mem, data: Data, data': Data, T: Tables, B: Backing,
                         root: nat, s: Segment, o: Segment, contents: seq<nat>)
    requires OnlySegment(ops, m, m', T, root, s, NumPages(s)) && IsRoot(T, root) && Loadable(s) && Loadable(o)
    requires DisjointSegments(s, o) || DisjointSegments(o, s)
    requires BackingInv(ops, m, T, B) && OldDataKept(data, data', B)
    ensures PagesHold(ops, m, data, root, o, contents, NumPages(o)) ==>
      PagesHold(ops, m', data', root, o, contents, NumPages(o))
    ensures PagesFree(ops, m, root, o, 0) ==> PagesFree(ops, m', root, o, 0)
  {
    hide Lookup, Split, BackingInv, OnlySegment, PageImage, P2V;
    forall i | 0 <= i < NumPages(o)
      ensures Lookup(ops, m', root, Split(PageAddr(o, i))) == Lookup(ops, m, root, Split(PageAddr(o, i)))
    {
      PageAddrOk(o, i);
      OutsideSegment(ops, m, m', T, root, s, PageAddr(o, i));
    }
    if PagesHold(ops, m, data, root, o, contents, NumPages(o)) {
      forall i | 0 <= i < NumPages(o)
        ensures PageHolds(ops, m', data', root, PageAddr(o, i), PageImage(contents, o.offset + SMALL * i))
      {
        assert PageHolds(ops, m, data, root, PageAddr(o, i), PageImage(contents, o.offset + SMALL * i));
        PageIsBacked(ops, m, T, B, root, PageAddr(o, i));
      }
    }
  }

  lemma ImageStep(ops: PteOps, m: Mem, m': Mem, data: Data, data': Data, T: Tables, T': Tables, B: Backing, B': Backing,
                  root: nat, segs: seq<Segment>, contents: seq<nat>, n: nat)
    requires GoodImage(segs) && n < |segs| && IsRoot(T, root) && BackingInv(ops, m, T, B)
    requires ImageLoading(ops, m, data, root, segs, contents, n)
    requires Loading(ops, m, m', data, data', T, T', B, B', root, segs[n], contents, NumPages(segs[n]))
    ensures ImageLoading(ops, m', data', root, segs, contents, n + 1)
  {
    hide Lookup, Split, BackingInv, OnlySegment, PagesHold, PagesFree, OldDataKept, Loadable;
    var s := segs[n];
    forall k | 0 <= k < |segs| && k != n
      ensures k < n ==> PagesHold(ops, m', data', root, segs[k], contents, NumPages(segs[k]))
      ensures k > n ==> PagesFree(ops, m', root, segs[k], 0)
    {
      OtherSegmentKept(ops, m, m', data, data', T, B, root, s, segs[k], contents);
    }
    FixedPagesClear(s);
    OutsideSegment(ops, m, m', T, root, s, DEFAULT_USER_STACK);
    OutsideSegment(ops, m, m', T, root, s, DEFAULT_ARG_LOCATION);
  }

  lemma FixedPagesClear(s: Segment)
    requires Loadable(s) && ClearOf(s, DEFAULT_USER_STACK) && ClearOf(s, DEFAULT_ARG_LOCATION)
    ensures forall va | va == DEFAULT_USER_STACK || va == DEFAULT_ARG_LOCATION ::
      va < VA_SPACE && (va / SMALL < s.vaddr / SMALL || s.vaddr / SMALL + NumPages(s) <= va / SMALL)
  {}

  /** load_elf's loop over the PT_LOAD headers (src/kernel/elf.c:40-52). */
  method LoadSegments(pool: TaskPool, id: nat, segs: seq<Segment>, contents: seq<nat>, ghost alloc: set<nat>)
      returns (ok: bool)
    requires pool.Valid() && id in pool.tasks && GoodImage(segs)
    requires ImageLoading(pool.vm.ops, pool.vm.mem, pool.data, pool.tasks[id].root, segs, contents, 0)
    requires OnlyTask(alloc, pool.vm.heap.Allocated(), pool.vm.tables, pool.backing, pool.tasks[id])
    modifies pool, pool.vm, pool.vm.heap.allocMap
    ensures !ok ==> pool.Exhausted()
    ensures ok ==>
      && pool.Valid() && pool.tasks == old(pool.tasks) && pool.boot == old(pool.boot)
      && ImageLoading(pool.vm.ops, pool.vm.mem, pool.data, pool.tasks[id].root, segs, contents, |segs|)
      && OnlySpace(pool.vm.ops, old(pool.vm.mem), pool.vm.mem, old(pool.data), pool.data,
                   old(pool.vm.tables), pool.vm.tables, old(pool.backing), pool.backing, pool.tasks[id].root)
      && OnlyTask(alloc, pool.vm.heap.Allocated(), pool.vm.tables, pool.backing, pool.tasks[id])
  {
    hide TreeInv, Lawful, BackingInv, Partition, TasksOk, PagesFree, PagesHold, Loading, OnlyTask, Loadable, Lookup;
    hide OnlySpace;
    OnlySpaceRefl(pool.vm.ops, pool.vm.mem, pool.data, pool.vm.tables, pool.backing, pool.tasks[id].root);
    for k := 0 to |segs|
      invariant pool.Valid() && pool.tasks == old(pool.tasks) && pool.boot == old(pool.boot)
      invariant OnlySpace(pool.vm.ops, old(pool.vm.mem), pool.vm.mem, old(pool.data), pool.data,
                          old(pool.vm.tables), pool.vm.tables, old(pool.backing), pool.backing, pool.tasks[id].root)
      invariant ImageLoading(pool.vm.ops, pool.vm.mem, pool.data, pool.tasks[id].root, segs, contents, k)
      invariant OnlyTask(alloc, pool.vm.heap.Allocated(), pool.vm.tables, pool.backing, pool.tasks[id])
    {
      ghost var m, d, T, B := pool.vm.mem, pool.data, pool.vm.tables, pool.backing;
      TaskFacts(pool.vm.ops, m, T, pool.tasks, id);
      ok := LoadSeg(pool, id, segs[k], contents, alloc);
      if !ok { return; }
      LoadingOnlySpace(pool.vm.ops, m, pool.vm.mem, d, pool.data, T, pool.vm.tables, B, pool.backing,
                       pool.tasks[id].root, segs[k], contents, NumPages(segs[k]));
      OnlySpaceTrans(pool.vm.ops, old(pool.vm.mem), m, pool.vm.mem, old(pool.data), d, pool.data, old(pool.vm.tables),
                     T, pool.vm.tables, old(pool.backing), B, pool.backing, pool.tasks[id].root);
      ImageStep(pool.vm.ops, m, pool.vm.mem, d, pool.data, T, pool.vm.tables, B, pool.backing, pool.tasks[id].root,
                segs, contents, k);
    }
    return true;
  }
}
