/** The three kernel windows onto physical memory (map_kernel and unmap_kernel in src/kernel/vm.c). */
module Windows {
  import opened Common
  import opened Addr
  import opened Bits
  import opened Pte
  import opened PageTable
  import opened Vm

  const KERNEL_DEVICE_MAP: nat := 0xFFFF_DD00_0000_0000
  const WRITE_COMB_MAP: nat := 0xFFFF_CC00_0000_0000

  /** Base address, top-level index and cache policy of window k, in the order map_kernel maps them. */
  function Base(k: nat): nat {
    if k == 0 then KERNEL_LINK_ADDRESS else if k == 1 then KERNEL_DEVICE_MAP else WRITE_COMB_MAP
  }

  function TopIndex(k: nat): nat { if k == 0 then 510 else if k == 1 then 442 else 408 }

  function WindowPolicy(k: nat): Policy { if k == 0 then WriteBack else if k == 1 then CacheDisable else WriteComb }

  predicate InWindow(v: Vpn, k: nat) { k < 3 && v.i3 == TopIndex(k) }

  predicate InSomeWindow(v: Vpn) { InWindow(v, 0) || InWindow(v, 1) || InWindow(v, 2) }

  /** The address of the i-th giant page of window k. */
  function PageVa(k: nat, i: nat): nat { Base(k) + i * GIANT }

  lemma GiantVpn(n: nat)
    ensures Split(n * GIANT) == Vpn(n / ENTRIES % ENTRIES, n % ENTRIES, 0, 0)
  {
    GiantQuotients(n, n * GIANT);
    MultipleOf512(n * ENTRIES, n);
    MultipleOf512(n * 0x4_0000, n * ENTRIES);
  }

  lemma GiantQuotients(n: nat, x: nat)
    requires x == n * GIANT
    ensures x / SUPER == n / ENTRIES && x / GIANT == n && x / LARGE == n * ENTRIES && x / SMALL == n * 0x4_0000
  {
    QuotientChain(x);
    assert x / SMALL == n * 0x4_0000;
  }

  lemma MultipleOf512(x: nat, k: nat)
    requires x == ENTRIES * k
    ensures x % ENTRIES == 0
  {}

  lemma PageVpn(k: nat, i: nat)
    requires k < 3 && i < ENTRIES
    ensures Split(PageVa(k, i)) == Vpn(TopIndex(k), i, 0, 0)
    ensures PageVa(k, i) % GIANT == 0
  {
    var n := if k == 0 then 0x3_FFFF_FC00 + i else if k == 1 then 0x3_FFFF_7400 + i else 0x3_FFFF_3000 + i;
    assert PageVa(k, i) == n * GIANT;
    GiantVpn(n);
  }

  /** The pages map_kernel has mapped before its k-th window of round i. */
  predicate Done(v: Vpn, i: nat, k: nat) {
    exists j | 0 <= j < 3 :: InWindow(v, j) && (v.i2 < i || (v.i2 == i && j < k))
  }

  /** What a window maps an address to. */
  function WindowMapping(ops: PteOps, v: Vpn): Mapping {
    Mapped(2, v.i2 * GIANT, Kern, ops.attrOf(if v.i3 == TopIndex(0) then WindowPolicy(0)
                                             else if v.i3 == TopIndex(1) then WindowPolicy(1) else WindowPolicy(2)))
  }

  /** mem maps the pages done so far, and everything else as mem0. */
  ghost predicate MappedSoFar(ops: PteOps, mem0: Mem, mem: Mem, T: Tables, root: nat, i: nat, k: nat) {
    forall r, v | IsRoot(T, r) && InTable(v) ::
      Lookup(ops, mem, r, v) == if r == root && Done(v, i, k) then WindowMapping(ops, v) else Lookup(ops, mem0, r, v)
  }

  /** mem0 with the done pages unmapped. */
  ghost predicate UnmappedSoFar(ops: PteOps, mem0: Mem, mem: Mem, T: Tables, root: nat, i: nat, k: nat) {
    forall r, v | IsRoot(T, r) && InTable(v) ::
      Lookup(ops, mem, r, v) == if r == root && Done(v, i, k) then Unmapped else Lookup(ops, mem0, r, v)
  }

  /** The tables of the address space at root hold entries of level 2 and above only. */
  ghost predicate OnlyUpperTables(T: Tables, root: nat) {
    forall p | p in T && T[p].root == root :: T[p].level >= 2
  }

  lemma DoneStep(v: Vpn, i: nat, k: nat)
    requires InTable(v) && i < ENTRIES && k < 3
    ensures Done(v, i, k + 1) <==> Done(v, i, k) || Prefix(v, 2) == Vpn(TopIndex(k), i, 0, 0)
    ensures Prefix(v, 2) == Vpn(TopIndex(k), i, 0, 0) ==> !Done(v, i, k)
    ensures Done(v, i, 3) <==> Done(v, i + 1, 0)
  {
    if Prefix(v, 2) == Vpn(TopIndex(k), i, 0, 0) { assert InWindow(v, k); }
  }

  lemma AllDone(v: Vpn)
    requires InTable(v)
    ensures Done(v, ENTRIES, 0) <==> InSomeWindow(v)
    ensures !Done(v, 0, 0)
  {
    if InWindow(v, 0) {} else if InWindow(v, 1) {} else if InWindow(v, 2) {}
  }

  /** Mapping a page and then setting its policy replaces that block's mapping. */
  lemma MapThenPolicy(ops: PteOps, m0: Mem, m1: Mem, m2: Mem, T: Tables, T': Tables, root: nat, v: Vpn, pa: nat,
                      pol: Policy)
    requires Updated(ops, m0, m1, T, root, 2, v, pa, Kern) && Extends(T, T') && IsRoot(T, root) && InTable(v)
    requires var m := Lookup(ops, m1, root, v);
      m.Mapped? ==> Replaced(ops, m1, m2, T', root, m.level, v, m.(attr := ops.attrOf(pol)))
    ensures Replaced(ops, m0, m2, T, root, 2, v, Mapped(2, pa, Kern, ops.attrOf(pol)))
  {
    hide Lookup;
    var m := Lookup(ops, m1, root, v);
    assert Maps(m, 2, pa, Kern);
    forall r, w | IsRoot(T, r) && InTable(w)
      ensures Lookup(ops, m2, r, w)
           == if r == root && Prefix(w, 2) == Prefix(v, 2) then Mapped(2, pa, Kern, ops.attrOf(pol))
              else Lookup(ops, m0, r, w)
    {
      assert IsRoot(T', r);
    }
  }

  lemma MappedStep(ops: PteOps, m0: Mem, m1: Mem, m2: Mem, T: Tables, T': Tables, root: nat, i: nat, k: nat)
    requires i < ENTRIES && k < 3 && Extends(T, T') && MappedSoFar(ops, m0, m1, T, root, i, k)
    requires Replaced(ops, m1, m2, T', root, 2, Vpn(TopIndex(k), i, 0, 0),
                      Mapped(2, i * GIANT, Kern, ops.attrOf(WindowPolicy(k))))
    ensures MappedSoFar(ops, m0, m2, T, root, i, k + 1)
  {
    hide Lookup, Done;
    forall r, v | IsRoot(T, r) && InTable(v)
      ensures Lookup(ops, m2, r, v) == if r == root && Done(v, i, k + 1) then WindowMapping(ops, v)
        else Lookup(ops, m0, r, v)
    {
      DoneStep(v, i, k);
      assert IsRoot(T', r);
      assert Lookup(ops, m1, r, v) == if r == root && Done(v, i, k) then WindowMapping(ops, v)
          else Lookup(ops, m0, r, v);
    }
  }

  lemma UnmappedStep(ops: PteOps, m0: Mem, m1: Mem, m2: Mem, T: Tables, root: nat, i: nat, k: nat)
    requires i < ENTRIES && k < 3 && UnmappedSoFar(ops, m0, m1, T, root, i, k)
    requires Replaced(ops, m1, m2, T, root, 2, Vpn(TopIndex(k), i, 0, 0), Unmapped)
    ensures UnmappedSoFar(ops, m0, m2, T, root, i, k + 1)
  {
    hide Lookup, Done;
    forall r, v | IsRoot(T, r) && InTable(v)
      ensures Lookup(ops, m2, r, v) == if r == root && Done(v, i, k + 1) then Unmapped else Lookup(ops, m0, r, v)
    {
      DoneStep(v, i, k);
      assert Lookup(ops, m1, r, v) == if r == root && Done(v, i, k) then Unmapped else Lookup(ops, m0, r, v);
    }
  }

  lemma NextRound(ops: PteOps, m0: Mem, m: Mem, T: Tables, root: nat, i: nat)
    requires i < ENTRIES
    ensures MappedSoFar(ops, m0, m, T, root, i, 3) ==> MappedSoFar(ops, m0, m, T, root, i + 1, 0)
    ensures UnmappedSoFar(ops, m0, m, T, root, i, 3) ==> UnmappedSoFar(ops, m0, m, T, root, i + 1, 0)
  {
    hide Lookup, Done;
    forall v | InTable(v) ensures Done(v, i, 3) <==> Done(v, i + 1, 0) { DoneStep(v, i, 0); }
  }

  lemma FirstRound(ops: PteOps, m0: Mem, T: Tables, root: nat)
    ensures MappedSoFar(ops, m0, m0, T, root, 0, 0) && UnmappedSoFar(ops, m0, m0, T, root, 0, 0)
  {
    hide Lookup, Done;
    forall v | InTable(v) ensures !Done(v, 0, 0) { AllDone(v); }
  }

  /** The whole of the kernel windows, mapped. */
  ghost predicate KernelMapped(ops: PteOps, mem0: Mem, mem: Mem, T: Tables, root: nat) {
    forall r, v | IsRoot(T, r) && InTable(v) ::
      Lookup(ops, mem, r, v) == if r == root && InSomeWindow(v) then WindowMapping(ops, v) else Lookup(ops, mem0, r, v)
  }

  ghost predicate KernelUnmapped(ops: PteOps, mem0: Mem, mem: Mem, T: Tables, root: nat) {
    forall r, v | IsRoot(T, r) && InTable(v) ::
      Lookup(ops, mem, r, v) == if r == root && InSomeWindow(v) then Unmapped else Lookup(ops, mem0, r, v)
  }

  lemma LastRound(ops: PteOps, m0: Mem, m: Mem, T: Tables, root: nat)
    ensures MappedSoFar(ops, m0, m, T, root, ENTRIES, 0) ==> KernelMapped(ops, m0, m, T, root)
    ensures UnmappedSoFar(ops, m0, m, T, root, ENTRIES, 0) ==> KernelUnmapped(ops, m0, m, T, root)
  {
    hide Lookup, Done, InSomeWindow;
    forall v | InTable(v) ensures Done(v, ENTRIES, 0) <==> InSomeWindow(v) { AllDone(v); }
  }

  /** Maps the i-th giant page of window k and sets its policy (one third of the loop body, src/kernel/vm.c:164-177). */
  method MapWindowPage(vm: AddressSpaces, root: nat, k: nat, i: nat, ghost mem0: Mem, ghost tables0: Tables,
                       ghost alloc0: set<nat>)
    returns (ok: bool)
    requires vm.Valid() && IsRoot(vm.tables, root) && k < 3 && i < ENTRIES
    requires Accounted(alloc0, vm.heap.Allocated(), tables0, vm.tables, root)
    requires OnlyUpperTables(vm.tables, root) && IsRoot(tables0, root)
    requires MappedSoFar(vm.ops, mem0, vm.mem, tables0, root, i, k)
    requires forall v | InTable(v) && InSomeWindow(v) :: Lookup(vm.ops, mem0, root, v).Unmapped?
    modifies vm, vm.heap.allocMap
    ensures vm.Valid() && IsRoot(vm.tables, root) && OnlyUpperTables(vm.tables, root)
    ensures Accounted(alloc0, vm.heap.Allocated(), tables0, vm.tables, root)
    ensures !ok ==> vm.heap.Allocated() == vm.heap.AllPages()
    ensures ok ==> MappedSoFar(vm.ops, mem0, vm.mem, tables0, root, i, k + 1)
  {
    hide TreeInv, Lawful, Updated, Replaced, MappedSoFar, Split, Lookup, CanMap;
    var va := PageVa(k, i);
    PageVpn(k, i);
    ghost var v := Vpn(TopIndex(k), i, 0, 0);
    FreeForWindow(vm.ops, mem0, vm.mem, tables0, vm.tables, root, k, i);
    PhysSpace(vm.ops, i);
    ghost var mem1, tables1 := vm.mem, vm.tables;
    ghost var alloc1 := vm.heap.Allocated();
    ok := vm.MapPage(root, va, i * GIANT, 2, Kern);
    AccountedStep(alloc0, alloc1, vm.heap.Allocated(), tables0, tables1, vm.tables, root);
    if !ok { return; }
    ghost var mem2 := vm.mem;
    vm.PageSetCachePolicy(root, va, WindowPolicy(k));
    PolicyApplied(vm.ops, mem1, mem2, vm.mem, tables1, vm.tables, root, v, i * GIANT, WindowPolicy(k));
    MappedStep(vm.ops, mem0, mem1, vm.mem, tables0, tables1, root, i, k);
  }

  /** New tables of T' belong to the space at root. */
  ghost predicate GrownBy(T: Tables, T': Tables, root: nat) {
    Extends(T, T') && forall p | p in T' && p !in T :: T'[p].root == root && T'[p].level < TOP
  }

  /** The pages allocated since (T, alloc) are exactly the new tables, all of the space at root. */
  ghost predicate Accounted(alloc: set<nat>, alloc': set<nat>, T: Tables, T': Tables, root: nat) {
    GrownBy(T, T', root) && alloc' == alloc + (T'.Keys - T.Keys) && (T'.Keys - T.Keys) !! alloc
  }

  lemma AccountedStart(a: set<nat>, T: Tables, root: nat)
    ensures Accounted(a, a, T, T, root)
  { assert T.Keys - T.Keys == {}; }

  lemma AccountedStep(a0: set<nat>, a1: set<nat>, a2: set<nat>, T0: Tables, T1: Tables, T2: Tables, root: nat)
    requires Accounted(a0, a1, T0, T1, root) && Accounted(a1, a2, T1, T2, root)
    ensures Accounted(a0, a2, T0, T2, root)
  {
    assert T2.Keys - T0.Keys == (T2.Keys - T1.Keys) + (T1.Keys - T0.Keys);
  }

  lemma PhysSpace(ops: PteOps, i: nat)
    requires Lawful(ops) && i < ENTRIES
    ensures i * GIANT < ops.maxPhys && i * GIANT % GIANT == 0
  {}

  lemma PolicyApplied(ops: PteOps, m0: Mem, m1: Mem, m2: Mem, T: Tables, T': Tables, root: nat, v: Vpn, pa: nat,
                      pol: Policy)
    requires Updated(ops, m0, m1, T, root, 2, v, pa, Kern) && Extends(T, T') && IsRoot(T, root) && InTable(v)
    requires var m := Lookup(ops, m1, root, v);
      if m.Unmapped? then m2 == m1 else Replaced(ops, m1, m2, T', root, m.level, v, m.(attr := ops.attrOf(pol)))
    ensures Replaced(ops, m0, m2, T, root, 2, v, Mapped(2, pa, Kern, ops.attrOf(pol)))
  {
    hide Lookup, Replaced;
    assert Maps(Lookup(ops, m1, root, v), 2, pa, Kern);
    MapThenPolicy(ops, m0, m1, m2, T, T', root, v, pa, pol);
  }

  /** The next page of a window is free to be mapped. */
  lemma FreeForWindow(ops: PteOps, mem0: Mem, mem: Mem, T0: Tables, T: Tables, root: nat, k: nat, i: nat)
    requires k < 3 && i < ENTRIES && OnlyUpperTables(T, root) && IsRoot(T0, root)
    requires MappedSoFar(ops, mem0, mem, T0, root, i, k)
    requires forall v | InTable(v) && InSomeWindow(v) :: Lookup(ops, mem0, root, v).Unmapped?
    ensures CanMap(ops, mem, T, root, 2, Vpn(TopIndex(k), i, 0, 0))
  {
    hide Lookup, Done;
    var v := Vpn(TopIndex(k), i, 0, 0);
    DoneStep(v, i, k);
    assert InWindow(v, k) && InTable(v);
  }

  /** map_kernel (src/kernel/vm.c:162-209) on a space whose windows are free. */
  method MapKernel(vm: AddressSpaces, root: nat) returns (ok: bool)
    requires vm.Valid() && IsRoot(vm.tables, root) && OnlyUpperTables(vm.tables, root)
    requires forall v | InTable(v) && InSomeWindow(v) :: Lookup(vm.ops, vm.mem, root, v).Unmapped?
    modifies vm, vm.heap.allocMap
    ensures vm.Valid() && OnlyUpperTables(vm.tables, root)
    ensures Accounted(old(vm.heap.Allocated()), vm.heap.Allocated(), old(vm.tables), vm.tables, root)
    ensures !ok ==> vm.heap.Allocated() == vm.heap.AllPages()
    ensures ok ==> KernelMapped(vm.ops, old(vm.mem), vm.mem, old(vm.tables), root)
  {
    hide TreeInv, Lawful, MappedSoFar, Lookup, KernelMapped, OnlyUpperTables, Accounted, InSomeWindow;
    ghost var mem0, tables0, alloc0 := vm.mem, vm.tables, vm.heap.Allocated();
    AccountedStart(alloc0, tables0, root);
    FirstRound(vm.ops, mem0, tables0, root);
    for i := 0 to ENTRIES
      invariant vm.Valid() && IsRoot(vm.tables, root) && OnlyUpperTables(vm.tables, root)
      invariant Accounted(alloc0, vm.heap.Allocated(), tables0, vm.tables, root)
      invariant MappedSoFar(vm.ops, mem0, vm.mem, tables0, root, i, 0)
    {
      ok := MapWindowPage(vm, root, 0, i, mem0, tables0, alloc0);
      if !ok { return; }
      ok := MapWindowPage(vm, root, 1, i, mem0, tables0, alloc0);
      if !ok { return; }
      ok := MapWindowPage(vm, root, 2, i, mem0, tables0, alloc0);
      if !ok { return; }
      NextRound(vm.ops, mem0, vm.mem, tables0, root, i);
    }
    LastRound(vm.ops, mem0, vm.mem, tables0, root);
    return true;
  }

  /** unmap_kernel (src/kernel/vm.c:211-228) on a space whose windows are giant pages. */
  method UnmapKernel(vm: AddressSpaces, root: nat)
    requires vm.Valid() && IsRoot(vm.tables, root)
    requires forall v | InTable(v) && InSomeWindow(v) ::
      var m := Lookup(vm.ops, vm.mem, root, v); m.Mapped? && m.level == 2
    modifies vm`mem
    ensures vm.Valid() && KernelUnmapped(vm.ops, old(vm.mem), vm.mem, vm.tables, root)
  {
    hide TreeInv, Lawful, UnmappedSoFar, Lookup, KernelUnmapped, InSomeWindow;
    ghost var mem0 := vm.mem;
    FirstRound(vm.ops, mem0, vm.tables, root);
    for i := 0 to ENTRIES
      invariant vm.Valid()
      invariant UnmappedSoFar(vm.ops, mem0, vm.mem, vm.tables, root, i, 0)
    {
      UnmapWindowPage(vm, root, 0, i, mem0);
      UnmapWindowPage(vm, root, 1, i, mem0);
      UnmapWindowPage(vm, root, 2, i, mem0);
      NextRound(vm.ops, mem0, vm.mem, vm.tables, root, i);
    }
    LastRound(vm.ops, mem0, vm.mem, vm.tables, root);
  }

  method UnmapWindowPage(vm: AddressSpaces, root: nat, k: nat, i: nat, ghost mem0: Mem)
    requires vm.Valid() && IsRoot(vm.tables, root) && k < 3 && i < ENTRIES
    requires forall v | InTable(v) && InSomeWindow(v) ::
      var m := Lookup(vm.ops, mem0, root, v); m.Mapped? && m.level == 2
    requires UnmappedSoFar(vm.ops, mem0, vm.mem, vm.tables, root, i, k)
    modifies vm`mem
    ensures vm.Valid() && UnmappedSoFar(vm.ops, mem0, vm.mem, vm.tables, root, i, k + 1)
  {
    hide TreeInv, Lawful, Replaced, Lookup, Split, UnmappedSoFar;
    PageVpn(k, i);
    StillMapped(vm.ops, mem0, vm.mem, vm.tables, root, k, i);
    ghost var mem1 := vm.mem;
    vm.UnmapPage(root, PageVa(k, i));
    UnmappedStep(vm.ops, mem0, mem1, vm.mem, vm.tables, root, i, k);
  }

  lemma StillMapped(ops: PteOps, mem0: Mem, mem: Mem, T: Tables, root: nat, k: nat, i: nat)
    requires k < 3 && i < ENTRIES && IsRoot(T, root)
    requires forall v | InTable(v) && InSomeWindow(v) :: var m := Lookup(ops, mem0, root, v); m.Mapped? && m.level == 2
    requires UnmappedSoFar(ops, mem0, mem, T, root, i, k)
    ensures var m := Lookup(ops, mem, root, Vpn(TopIndex(k), i, 0, 0)); m.Mapped? && m.level == 2
  {
    hide Lookup, Done;
    var v := Vpn(TopIndex(k), i, 0, 0);
    DoneStep(v, i, k);
    assert InWindow(v, k) && InTable(v);
  }

  // ---- The direct map ---------------------------------------------------------

  /** A window's physical-to-virtual macro, as written: pa | base. */
  function ToWindow(k: nat, pa: nat): nat { Or(pa, Base(k)) }

  /** A window's virtual-to-physical macro, as written: va & ~base. */
  function FromWindow(k: nat, va: nat): nat { And(va, Not(Base(k))) }

  /** Within a window, or-ing the base in adds it, and masking it off undoes that. */
  lemma WindowRoundTrip(k: nat, pa: nat)
    requires k < 3 && pa < SUPER
    ensures ToWindow(k, pa) == Base(k) + pa && FromWindow(k, ToWindow(k, pa)) == pa
  {
    var hi: nat := if k == 0 then 0xFF_FFFF else if k == 1 then 0xFF_FFDD else 0xFF_FFCC;
    assert Base(k) == hi * WINDOW;
    JoinedWords(hi, pa);
  }

  lemma JoinedWords(hi: nat, pa: nat)
    requires hi < 0x100_0000 && pa < WINDOW
    ensures Or(pa, hi * WINDOW) == hi * WINDOW + pa
    ensures And(hi * WINDOW + pa, Not(hi * WINDOW)) == pa
  {
    hide Or, And, Not, Bit;
    var base := hi * WINDOW;
    WordsFit(hi, pa);
    forall i | 0 <= i < WIDTH
      ensures Bit(Or(pa, base), i) <==> Bit(base + pa, i)
      ensures Bit(And(base + pa, Not(base)), i) <==> Bit(pa, i)
    { JoinedBits(hi, pa, i); }
    SameBits(Or(pa, base), base + pa, WIDTH);
    SameBits(And(base + pa, Not(base)), pa, WIDTH);
  }

  lemma WordsFit(hi: nat, pa: nat)
    requires hi < 0x100_0000 && pa < WINDOW
    ensures Or(pa, hi * WINDOW) < Pow2(WIDTH) && And(hi * WINDOW + pa, Not(hi * WINDOW)) < Pow2(WIDTH)
    ensures hi * WINDOW + pa < Pow2(WIDTH) && pa < Pow2(WIDTH)
  {
    Pow2Values();
    OrBound(pa, hi * WINDOW, WIDTH);
    AndBound(hi * WINDOW + pa, Not(hi * WINDOW), WIDTH);
  }

  lemma JoinedBits(hi: nat, pa: nat, i: nat)
    requires pa < WINDOW && i < WIDTH
    ensures Bit(Or(pa, hi * WINDOW), i) <==> Bit(hi * WINDOW + pa, i)
    ensures Bit(And(hi * WINDOW + pa, Not(hi * WINDOW)), i) <==> Bit(pa, i)
  {
    var base := hi * WINDOW;
    BaseBits(hi, pa, i);
    OrBit(pa, base, i);
    AndNotBit(base + pa, base, i);
  }

  lemma BaseBits(hi: nat, pa: nat, i: nat)
    requires pa < WINDOW
    ensures Bit(hi * WINDOW + pa, i) <==> if i < 40 then Bit(pa, i) else Bit(hi, i - 40)
    ensures Bit(hi * WINDOW, i) <==> i >= 40 && Bit(hi, i - 40)
    ensures i >= 40 ==> !Bit(pa, i)
  {
    Pow2Window();
    JoinBit(hi, pa, 40, i);
    JoinBit(hi, 0, 40, i);
    ZeroBit(i);
    if i >= 40 { HighBitsClear(pa, 40, i); }
  }

  /** The direct map: in every window, the window address of pa is in a 1 GB kernel page whose base is
      pa rounded down, with the window's policy. */
  lemma DirectMap(ops: PteOps, mem0: Mem, mem: Mem, T: Tables, root: nat, k: nat, pa: nat)
    requires KernelMapped(ops, mem0, mem, T, root) && IsRoot(T, root) && k < 3 && pa < SUPER
    ensures Lookup(ops, mem, root, Split(ToWindow(k, pa)))
         == Mapped(2, pa / GIANT * GIANT, Kern, ops.attrOf(WindowPolicy(k)))
  {
    hide Lookup, Split;
    WindowRoundTrip(k, pa);
    WindowVpn(k, pa);
    var v := Split(ToWindow(k, pa));
    assert InWindow(v, k);
  }

  /** The direct map in numbers: cached at 0xFFFF_FF00_0000_0000, uncached at 0xFFFF_DD00_0000_0000, and write-combining
      at 0xFFFF_CC00_0000_0000. */
  lemma DirectMapAddresses(ops: PteOps, mem0: Mem, mem: Mem, T: Tables, root: nat, pa: nat)
    requires KernelMapped(ops, mem0, mem, T, root) && IsRoot(T, root) && pa < 0x80_0000_0000
    ensures var base := pa / 0x4000_0000 * 0x4000_0000;
      && Lookup(ops, mem, root, Split(0xFFFF_FF00_0000_0000 + pa)) == Mapped(2, base, Kern, ops.attrOf(WriteBack))
      && Lookup(ops, mem, root, Split(0xFFFF_DD00_0000_0000 + pa)) == Mapped(2, base, Kern, ops.attrOf(CacheDisable))
      && Lookup(ops, mem, root, Split(0xFFFF_CC00_0000_0000 + pa)) == Mapped(2, base, Kern, ops.attrOf(WriteComb))
  {
    hide Lookup, Split, KernelMapped;
    DirectMap(ops, mem0, mem, T, root, 0, pa);
    DirectMap(ops, mem0, mem, T, root, 1, pa);
    DirectMap(ops, mem0, mem, T, root, 2, pa);
    WindowRoundTrip(0, pa);
    WindowRoundTrip(1, pa);
    WindowRoundTrip(2, pa);
  }

  lemma WindowVpn(k: nat, pa: nat)
    requires k < 3 && pa < SUPER
    ensures Split(Base(k) + pa).i3 == TopIndex(k) && Split(Base(k) + pa).i2 == pa / GIANT
  {
    var x := Base(k) + pa;
    var top := if k == 0 then 0x1FF_FFFE else if k == 1 then 0x1FF_FFBA else 0x1FF_FF98;
    DivUnique(x, SUPER, top, pa);
    DivUnique(x, GIANT, top * ENTRIES + pa / GIANT, pa % GIANT);
  }

  /** On a fresh table nothing outside the windows is mapped: in particular nothing below 2^47. */
  lemma LowHalfFree(ops: PteOps, mem0: Mem, mem: Mem, T: Tables, root: nat, va: nat)
    requires KernelMapped(ops, mem0, mem, T, root) && IsRoot(T, root) && va < VA_SPACE / 2
    requires Lookup(ops, mem0, root, Split(va)).Unmapped?
    ensures Lookup(ops, mem, root, Split(va)).Unmapped?
  {
    hide Lookup;
    assert Split(va).i3 < 256;
  }

  /** translate_page in the first 1 GB page of the direct map: the second 4 KB are translated to physical 0. */
  lemma WindowTranslation(ops: PteOps, mem0: Mem, mem: Mem, T: Tables, root: nat)
    requires KernelMapped(ops, mem0, mem, T, root) && IsRoot(T, root)
    ensures var va: nat := KERNEL_LINK_ADDRESS + 0x1000; var m := Lookup(ops, mem, root, Split(va));
      Translation(m, va) == 0 && m.Mapped? && m.phys + va % Size(m.level) == 0x1000
  {
    hide Lookup;
    var va: nat := KERNEL_LINK_ADDRESS + 0x1000;
    assert Split(va) == Vpn(510, 0, 0, 1);
    assert InTable(Split(va)) && InSomeWindow(Split(va));
  }
}
