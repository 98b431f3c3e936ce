/**
 Address spaces (src/kernel/vm.c): the in-place page table operations over memory and the
 small-page heap, proved against `PageTable.Lookup`.
 */
module Vm {
  import opened Common
  import opened Addr
  import opened Pte
  import opened PageTable
  import opened KHeap
  import Bits

  const PHYS_ADDR_INVALID: nat := 0xAAAA_AAAA_AAAA_AAAA

  ghost predicate Maps(m: Mapping, level: nat, pa: nat, priv: Mode) {
    m.Mapped? && m.level == level && m.phys == pa && m.priv == priv
  }

  /** Every address space of T maps every address as before. */
  ghost predicate SameLookups(ops: PteOps, mem: Mem, mem': Mem, T: Tables) {
    forall r, v | IsRoot(T, r) && InTable(v) :: Lookup(ops, mem', r, v) == Lookup(ops, mem, r, v)
  }

  /** No live table sits at the entry that maps v at the given level. */
  ghost predicate NoTableAt(T: Tables, root: nat, level: nat, v: Vpn) {
    forall p | p in T :: !(T[p].root == root && T[p].level + 1 == level && T[p].base == Prefix(v, level))
  }

  /** What map_page asks of its caller: no page of another size covers the address, and no table
      hangs where the page is to be written. */
  ghost predicate CanMap(ops: PteOps, mem: Mem, T: Tables, root: nat, level: nat, v: Vpn) {
    && (var m := Lookup(ops, mem, root, v); m.Mapped? ==> m.level == level)
    && NoTableAt(T, root, level, v)
  }

  /** mem' maps the block of v at the given level to pa, and every other address as mem does. */
  ghost predicate Updated(ops: PteOps, mem: Mem, mem': Mem, T: Tables, root: nat, level: nat, v: Vpn, pa: nat,
                          priv: Mode) {
    forall r, w | IsRoot(T, r) && InTable(w) ::
      if r == root && Prefix(w, level) == Prefix(v, level) then Maps(Lookup(ops, mem', r, w), level, pa, priv)
      else Lookup(ops, mem', r, w) == Lookup(ops, mem, r, w)
  }

  lemma SameLookupsRefl(ops: PteOps, mem: Mem, T: Tables)
    ensures SameLookups(ops, mem, mem, T)
  {}

  lemma SameLookupsTrans(ops: PteOps, m0: Mem, m1: Mem, m2: Mem, T: Tables, T': Tables)
    requires SameLookups(ops, m0, m1, T) && SameLookups(ops, m1, m2, T') && Extends(T, T')
    ensures SameLookups(ops, m0, m2, T)
  {
    forall r, v | IsRoot(T, r) && InTable(v) ensures Lookup(ops, m2, r, v) == Lookup(ops, m0, r, v) {
      assert IsRoot(T', r);
      assert Lookup(ops, m1, r, v) == Lookup(ops, m0, r, v);
    }
  }

  lemma UpdatedAfterSame(ops: PteOps, m0: Mem, m1: Mem, m2: Mem, T: Tables, T': Tables,
                         root: nat, level: nat, v: Vpn, pa: nat, priv: Mode)
    requires SameLookups(ops, m0, m1, T) && Updated(ops, m1, m2, T', root, level, v, pa, priv) && Extends(T, T')
    ensures Updated(ops, m0, m2, T, root, level, v, pa, priv)
  {
    forall r, w | IsRoot(T, r) && InTable(w)
      ensures if r == root && Prefix(w, level) == Prefix(v, level) then Maps(Lookup(ops, m2, r, w), level, pa, priv)
              else Lookup(ops, m2, r, w) == Lookup(ops, m0, r, w)
    {
      assert IsRoot(T', r);
      assert Lookup(ops, m1, r, w) == Lookup(ops, m0, r, w);
    }
  }

  lemma RootThrough(ops: PteOps, mem: Mem, T: Tables, r: nat, v: Vpn)
    requires TreeInv(ops, mem, T) && IsRoot(T, r)
    ensures Through(T, r, v)
  { assert TableOk(ops, mem, T, r); }

  /** On the way down, a valid entry links to the next table on the path. */
  lemma DescendEffect(ops: PteOps, mem: Mem, T: Tables, t: nat, v: Vpn, target: nat)
    requires TreeInv(ops, mem, T) && InTable(v) && t in T && Through(T, t, v) && target < T[t].level
    requires CanMap(ops, mem, T, T[t].root, target, v)
    requires ops.isValid(Read(mem, Slot(t, Ix(v, T[t].level))))
    ensures var c := Child(ops, Read(mem, Slot(t, Ix(v, T[t].level))));
      c in T && T[c].level == T[t].level - 1 && T[c].root == T[t].root && Through(T, c, v)
  {
    WalkReaches(ops, mem, T, t, v);
    StepLabel(ops, mem, T, t, v);
  }

  /** A zeroed fresh page, with its address stored as a table entry, is linked. */
  lemma StoreLink(ops: PteOps, mem: Mem, zeroed: Mem, T: Tables, s: Slot, c: nat)
    requires Lawful(ops) && s.table in T && s.index < ENTRIES && T[s.table].level > 0
    requires KernPtr(c) && c !in T && !ops.isValid(Read(mem, s))
    requires forall i | 0 <= i < ENTRIES :: Read(zeroed, Slot(c, i)) == 0
    requires forall s': Slot | s'.table != c :: Read(zeroed, s') == Read(mem, s')
    ensures LinkWrite(ops, mem, zeroed[s := TableEntry(ops, Read(zeroed, s), T[s.table].level, V2P(c))], T, s, c)
    ensures !ops.isValid(0)
  {
    hide TableOk;
    KernPtrRoundTrip(c);
    TableEntryView(ops, Read(zeroed, s), T[s.table].level, V2P(c));
    var mem' := zeroed[s := TableEntry(ops, Read(zeroed, s), T[s.table].level, V2P(c))];
    forall i | 0 <= i < ENTRIES ensures Read(mem', Slot(c, i)) == 0 { assert Read(zeroed, Slot(c, i)) == 0; }
  }

  /** Linking a fresh table on the path of v keeps the tree, every mapping and map_page's precondition. */
  lemma LinkEffect(ops: PteOps, mem: Mem, mem': Mem, T: Tables, t: nat, c: nat, v: Vpn, target: nat)
    requires TreeInv(ops, mem, T) && InTable(v) && t in T && Through(T, t, v) && target < T[t].level
    requires CanMap(ops, mem, T, T[t].root, target, v) && T[t].root in T && IsRoot(T, T[t].root)
    requires LinkWrite(ops, mem, mem', T, Slot(t, Ix(v, T[t].level)), c) && !ops.isValid(0)
    ensures var T' := Linked(T, Slot(t, Ix(v, T[t].level)), c);
      && TreeInv(ops, mem', T') && Extends(T, T') && SameLookups(ops, mem, mem', T)
      && T'.Keys == T.Keys + {c} && T'[c].level == T[t].level - 1 && T'[c].root == T[t].root && Through(T', c, v)
      && CanMap(ops, mem', T', T[t].root, target, v)
  {
    hide TreeInv, Walk;
    var s := Slot(t, Ix(v, T[t].level));
    LevelBound(ops, mem, T, t);
    LinkKeepsTree(ops, mem, mem', T, s, c);
    forall r, w | IsRoot(T, r) && InTable(w) ensures Lookup(ops, mem', r, w) == Lookup(ops, mem, r, w) {
      LinkLookup(ops, mem, mem', T, s, c, r, w);
    }
  }

  lemma LevelBound(ops: PteOps, mem: Mem, T: Tables, t: nat)
    requires TreeInv(ops, mem, T) && t in T
    ensures T[t].level <= TOP
  { assert TableOk(ops, mem, T, t); }

  /** Writing the leaf at the end of the path of v is the functional update of that block. */
  lemma LeafEffect(ops: PteOps, mem: Mem, mem': Mem, T: Tables, t: nat, v: Vpn, pa: nat, priv: Mode)
    requires TreeInv(ops, mem, T) && InTable(v) && t in T && Through(T, t, v)
    requires CanMap(ops, mem, T, T[t].root, T[t].level, v)
    requires ChangedAt(mem, mem', T, Slot(t, Ix(v, T[t].level)))
    requires var e := Read(mem', Slot(t, Ix(v, T[t].level)));
      ops.isValid(e) && ops.isLeaf(e, T[t].level) && ops.getPhys(e) == pa && ops.priv(e) == priv
    ensures TreeInv(ops, mem', T)
    ensures Updated(ops, mem, mem', T, T[t].root, T[t].level, v, pa, priv)
  {
    hide TreeInv, Walk, Through, Prefix, Ix, CanMap;
    var l := T[t].level;
    var s := Slot(t, Ix(v, l));
    EndOfPath(ops, mem, T, t, v);
    LeafWriteKeepsTree(ops, mem, mem', T, s);
    forall r, w | IsRoot(T, r) && InTable(w)
      ensures if r == T[t].root && Prefix(w, l) == Prefix(v, l) then Maps(Lookup(ops, mem', r, w), l, pa, priv)
              else Lookup(ops, mem', r, w) == Lookup(ops, mem, r, w)
    {
      LeafWriteLookup(ops, mem, mem', T, s, r, w);
      ServedBySlot(T, s, v, w);
    }
  }

  /** Where map_page may write, no table hangs. */
  lemma EndOfPath(ops: PteOps, mem: Mem, T: Tables, t: nat, v: Vpn)
    requires TreeInv(ops, mem, T) && InTable(v) && t in T && Through(T, t, v)
    requires CanMap(ops, mem, T, T[t].root, T[t].level, v)
    ensures Ix(v, T[t].level) < ENTRIES && T[t].level <= TOP
    ensures NotTable(ops, mem, T, Slot(t, Ix(v, T[t].level)))
  {
    hide Lookup, ParentOk, KernPtr, Child;
    assert TableOk(ops, mem, T, t);
    assert SlotOk(ops, mem, T, t, Ix(v, T[t].level));
  }

  /** map_page as a functional update, in terms of addresses: after it, every address of the page walks to a leaf of
      that size, base and privilege, and every other address of every space is mapped as before. */
  lemma UpdatedAddresses(ops: PteOps, mem: Mem, mem': Mem, T: Tables, root: nat, level: nat, va: nat, pa: nat,
                         priv: Mode, r: nat, va': nat)
    requires Updated(ops, mem, mem', T, root, level, Split(va), pa, priv) && level <= TOP && IsRoot(T, r)
    ensures if r == root && SameBlock(va, va', level) then Maps(Lookup(ops, mem', r, Split(va')), level, pa, priv)
            else Lookup(ops, mem', r, Split(va')) == Lookup(ops, mem, r, Split(va'))
  {
    hide Lookup, Split, SameBlock, Prefix;
    SameBlockIsSamePrefix(va, va', level);
  }

  /** mem' maps the block of v at the given level to m, and every other address as mem does. */
  ghost predicate Replaced(ops: PteOps, mem: Mem, mem': Mem, T: Tables, root: nat, level: nat, v: Vpn, m: Mapping) {
    forall r, w | IsRoot(T, r) && InTable(w) ::
      Lookup(ops, mem', r, w) == if r == root && Prefix(w, level) == Prefix(v, level) then m else Lookup(ops, mem, r, w)
  }

  /** Rewriting the entry that translates v changes the mapping of its page and of nothing else. */
  lemma HitEffect(ops: PteOps, mem: Mem, T: Tables, root: nat, v: Vpn, e: nat)
    requires TreeInv(ops, mem, T) && IsRoot(T, root) && InTable(v) && Walk(ops, mem, root, TOP, v).Hit?
    requires var w := Walk(ops, mem, root, TOP, v); ops.isValid(e) ==> ops.isLeaf(e, w.level)
    ensures var w := Walk(ops, mem, root, TOP, v);
      && TreeInv(ops, mem[w.slot := e], T)
      && Replaced(ops, mem, mem[w.slot := e], T, root, w.level, v,
           if ops.isValid(e) then Mapped(w.level, ops.getPhys(e), ops.priv(e), ops.attr(e)) else Unmapped)
  {
    hide TreeInv, Walk, Through, Prefix, Ix;
    var w := Walk(ops, mem, root, TOP, v);
    var mem' := mem[w.slot := e];
    HitLeafWrite(ops, mem, T, root, v, e);
    LeafWriteKeepsTree(ops, mem, mem', T, w.slot);
    var m := if ops.isValid(e) then Mapped(w.level, ops.getPhys(e), ops.priv(e), ops.attr(e)) else Unmapped;
    forall r, x | IsRoot(T, r) && InTable(x)
      ensures Lookup(ops, mem', r, x)
           == if r == root && Prefix(x, w.level) == Prefix(v, w.level) then m else Lookup(ops, mem, r, x)
    {
      LeafWriteLookup(ops, mem, mem', T, w.slot, r, x);
      ServedBySlot(T, w.slot, v, x);
    }
  }

  lemma HitLeafWrite(ops: PteOps, mem: Mem, T: Tables, root: nat, v: Vpn, e: nat)
    requires TreeInv(ops, mem, T) && IsRoot(T, root) && InTable(v) && Walk(ops, mem, root, TOP, v).Hit?
    requires var w := Walk(ops, mem, root, TOP, v); ops.isValid(e) ==> ops.isLeaf(e, w.level)
    ensures var w := Walk(ops, mem, root, TOP, v);
      && LeafWrite(ops, mem, mem[w.slot := e], T, w.slot) && T[w.slot.table].level == w.level <= TOP
      && T[w.slot.table].root == root && Through(T, w.slot.table, v) && w.slot.index == Ix(v, w.level)
  {
    hide TreeInv, Walk, Through;
    RootThrough(ops, mem, T, root, v);
    HitLabel(ops, mem, T, root, v);
  }

  /** The addresses served by an entry are those of its block. */
  lemma ServedBySlot(T: Tables, s: Slot, v: Vpn, x: Vpn)
    requires s.table in T && T[s.table].level <= TOP && Through(T, s.table, v) && s.index == Ix(v, T[s.table].level)
    ensures Through(T, s.table, x) && s.index == Ix(x, T[s.table].level)
       <==> Prefix(x, T[s.table].level) == Prefix(v, T[s.table].level)
  {}

  /** One step of the walk loop. */
  lemma WalkStep(ops: PteOps, mem: Mem, T: Tables, t: nat, v: Vpn)
    requires TreeInv(ops, mem, T) && t in T && InTable(v) && Through(T, t, v)
    ensures T[t].level <= TOP
    ensures var l := T[t].level; var s := Slot(t, Ix(v, l)); var e := Read(mem, s);
      if !ops.isValid(e) then Walk(ops, mem, t, l, v) == Miss
      else if ops.isLeaf(e, l) then Walk(ops, mem, t, l, v) == Hit(s, l)
      else var c := Child(ops, e);
        l > 0 && c in T && T[c].level == l - 1 && Through(T, c, v)
            && Walk(ops, mem, t, l, v) == Walk(ops, mem, c, l - 1, v)
  {
    assert TableOk(ops, mem, T, t);
    StepLabel(ops, mem, T, t, v);
  }

  /** What translate_page answers for an address mapped as m. */
  function Translation(m: Mapping, va: nat): nat {
    if m.Unmapped? then PHYS_ADDR_INVALID else m.phys + va % SMALL
  }

  /** translate_page gives the true physical address exactly when the offset in the page is below 4096:
      always for small pages, and for larger pages only in their first 4 KB. */
  lemma TranslationExactIff(m: Mapping, va: nat)
    requires m.Mapped? && m.level <= TOP
    ensures Translation(m, va) == m.phys + va % Size(m.level) <==> va % Size(m.level) < SMALL
    ensures m.level == 0 ==> Translation(m, va) == m.phys + va % Size(m.level)
  {
    ModMod(va, m.level);
  }

  /** No translation of a mapped address is the sentinel. */
  lemma SentinelMeansUnmapped(m: Mapping, va: nat)
    requires m.Mapped? ==> m.phys < PHYS_SPACE
    ensures Translation(m, va) == 0xAAAA_AAAA_AAAA_AAAA <==> m.Unmapped?
  {}

  lemma ModMod(va: nat, level: nat)
    requires level <= TOP
    ensures va % Size(level) % SMALL == va % SMALL
  {
    if level == 1 { Bits.ModModStep(va, SMALL, 512); }
    else if level == 2 { Bits.ModModStep(va, SMALL, 0x4_0000); }
    else if level == 3 { Bits.ModModStep(va, SMALL, 0x800_0000); }
  }

  lemma PhysInRange(ops: PteOps, e: nat)
    requires Lawful(ops)
    ensures ops.getPhys(e) % SMALL == 0 && ops.getPhys(e) < PHYS_SPACE
  { assert PhysRange(ops, e); }

  /** All addresses of a page have that page's mapping. */
  lemma LookupInPage(ops: PteOps, mem: Mem, T: Tables, root: nat, v: Vpn, w: Vpn)
    requires TreeInv(ops, mem, T) && IsRoot(T, root) && InTable(v) && InTable(w)
    requires var m := Lookup(ops, mem, root, v); m.Mapped? && Prefix(w, m.level) == Prefix(v, m.level)
    ensures Lookup(ops, mem, root, w) == Lookup(ops, mem, root, v)
    ensures Lookup(ops, mem, root, v).level <= TOP
  {
    hide TreeInv;
    RootThrough(ops, mem, T, root, v);
    HitLabel(ops, mem, T, root, v);
    WalkReaches(ops, mem, T, Walk(ops, mem, root, TOP, v).slot.table, w);
  }

  lemma HitIsLeaf(ops: PteOps, mem: Mem, T: Tables, root: nat, v: Vpn)
    requires TreeInv(ops, mem, T) && IsRoot(T, root) && InTable(v) && Walk(ops, mem, root, TOP, v).Hit?
    ensures var w := Walk(ops, mem, root, TOP, v);
      w.level <= TOP && ops.isValid(Read(mem, w.slot)) && ops.isLeaf(Read(mem, w.slot), w.level)
  {
    RootThrough(ops, mem, T, root, v);
    HitLabel(ops, mem, T, root, v);
  }

  lemma PolicyKeepsEntry(ops: PteOps, e: nat, level: nat, pol: Policy)
    requires Lawful(ops)
    ensures View(ops, ops.setCachePolicy(e, pol), level) == View(ops, e, level).(attr := ops.attrOf(pol))
  { assert CacheLaw(ops, e, level, pol); }

  lemma InvalidatedEntry(ops: PteOps, e: nat, level: nat)
    requires Lawful(ops)
    ensures !ops.isValid(ops.setValid(e, false))
  { assert ValidLaw(ops, e, level, false); }

  lemma EmptyEntry(ops: PteOps)
    requires Lawful(ops)
    ensures !ops.isValid(0)
  {}

  /** Adding an empty root: it maps nothing, and the other spaces keep their mappings. */
  lemma NewSpaceEffect(ops: PteOps, mem: Mem, mem': Mem, T: Tables, r: nat)
    requires TreeInv(ops, mem, T) && KernPtr(r) && r !in T && !ops.isValid(0)
    requires forall s: Slot | s.table != r :: Read(mem', s) == Read(mem, s)
    requires forall i | 0 <= i < ENTRIES :: Read(mem', Slot(r, i)) == 0
    ensures TreeInv(ops, mem', WithRoot(T, r)) && SameLookups(ops, mem, mem', T)
    ensures forall v | InTable(v) :: Lookup(ops, mem', r, v) == Unmapped
  {
    RootKeepsTree(ops, mem, mem', T, r);
    forall q, v | IsRoot(T, q) && InTable(v) ensures Lookup(ops, mem', q, v) == Lookup(ops, mem, q, v) {
      RootThrough(ops, mem, T, q, v);
      WalkSame(ops, mem, mem', T, q, v);
    }
    forall v | InTable(v) ensures Lookup(ops, mem', r, v) == Unmapped {
      assert Read(mem', Slot(r, Ix(v, TOP))) == 0;
    }
  }

  /** Every entry in memory was made by the setters. */
  ghost predicate AllWritten(ops: PteOps, mem: Mem) { forall s | s in mem :: Written(ops, mem[s]) }

  lemma ReadWritten(ops: PteOps, mem: Mem, s: Slot)
    requires AllWritten(ops, mem)
    ensures Written(ops, Read(mem, s))
  { hide Written; EmptyWritten(ops); }

  lemma WriteKeeps(ops: PteOps, mem: Mem, s: Slot, e: nat)
    requires AllWritten(ops, mem) && Written(ops, e)
    ensures AllWritten(ops, mem[s := e])
  { hide Written; }

  lemma SetterKeeps(ops: PteOps, mem: Mem, s: Slot, w: Setter)
    requires AllWritten(ops, mem) && GoodSetter(ops, w)
    ensures AllWritten(ops, mem[s := Apply(ops, Read(mem, s), w)])
  {
    hide AllWritten;
    ReadWritten(ops, mem, s);
    SetterWritten(ops, Read(mem, s), w);
    WriteKeeps(ops, mem, s, Apply(ops, Read(mem, s), w));
  }

  lemma LinkWritten(ops: PteOps, mem: Mem, s: Slot, level: nat, c: nat)
    requires Lawful(ops) && AllWritten(ops, mem) && KernPtr(c)
    ensures AllWritten(ops, mem[s := TableEntry(ops, Read(mem, s), level, V2P(c))])
  {
    hide AllWritten, TableEntry;
    KernPtrRoundTrip(c);
    ReadWritten(ops, mem, s);
    TableEntryWritten(ops, Read(mem, s), level, V2P(c));
    WriteKeeps(ops, mem, s, TableEntry(ops, Read(mem, s), level, V2P(c)));
  }

  /** Since (T0, alloc0) new tables of the space at root were allocated, and no other pages. */
  ghost predicate NewTablesOnly(T0: Tables, T: Tables, alloc0: set<nat>, alloc: set<nat>, root: nat, level: nat) {
    && Extends(T0, T) && alloc == alloc0 + (T.Keys - T0.Keys) && (T.Keys - T0.Keys) !! alloc0
    && forall p | p in T && p !in T0 :: T[p].root == root && level <= T[p].level < TOP
  }

  lemma NewTablesStart(T: Tables, alloc: set<nat>, root: nat, level: nat)
    ensures NewTablesOnly(T, T, alloc, alloc, root, level)
  { assert T.Keys - T.Keys == {}; }

  lemma NewTablesStep(T0: Tables, T1: Tables, T2: Tables, a0: set<nat>, a1: set<nat>, a2: set<nat>, root: nat,
                      level: nat, next: nat)
    requires NewTablesOnly(T0, T1, a0, a1, root, level) && Extends(T1, T2) && T2.Keys == T1.Keys + {next}
    requires a2 == a1 + {next} && (next in a1 ==> next in T1) && T1.Keys <= a1
    requires next in T2 && T2[next].root == root && level <= T2[next].level < TOP
    ensures NewTablesOnly(T0, T2, a0, a2, root, level)
  {
    if next in T1 { assert T2.Keys == T1.Keys && a2 == a1; } else {
      assert next !in T0;
      assert T2.Keys - T0.Keys == (T1.Keys - T0.Keys) + {next};
    }
  }

  class AddressSpaces {
    const ops: PteOps
    const heap: Heap
    var mem: Mem
    ghost var tables: Tables

    constructor (ops: PteOps, heap: Heap)
      requires Lawful(ops) && heap.Valid() && HeapInWindow(heap)
      ensures Valid() && this.ops == ops && this.heap == heap && tables == map[]
    {
      this.ops, this.heap := ops, heap;
      mem, tables := map[], map[];
    }

    static ghost predicate HeapInWindow(heap: Heap) {
      forall p | p in heap.AllPages() :: KernPtr(p)
    }

    ghost predicate Valid()
      reads this, heap.allocMap
    {
      && Lawful(ops) && heap.Valid() && HeapInWindow(heap)
      && TreeInv(ops, mem, tables) && AllWritten(ops, mem)
      && tables.Keys <= heap.Allocated()
    }

    /** memset of a page of table memory. */
    method Zero(p: nat)
      requires AllWritten(ops, mem)
      modifies this`mem
      ensures AllWritten(ops, mem) && (forall i | 0 <= i < ENTRIES :: Read(mem, Slot(p, i)) == 0)
      ensures forall s: Slot | s.table != p :: Read(mem, s) == Read(old(mem), s)
    {
      EmptyWritten(ops);
      hide Written;
      for i := 0 to ENTRIES
        invariant AllWritten(ops, mem) && (forall j | 0 <= j < i :: Read(mem, Slot(p, j)) == 0)
        invariant forall s: Slot | s.table != p :: Read(mem, s) == Read(old(mem), s)
      {
        mem := mem[Slot(p, i) := 0];
      }
    }

    /** Allocates a page and fills it with zeros: alloc_page and memset (src/kernel/vm.c:50-55). */
    method AllocZeroed() returns (r: Option<nat>)
      requires Valid()
      modifies this`mem, heap.allocMap
      ensures Valid()
      ensures r.None? ==> mem == old(mem) && heap.Allocated() == old(heap.Allocated()) == heap.AllPages()
      ensures r.Some? ==>
        && KernPtr(r.value) && r.value !in old(heap.Allocated()) && r.value !in tables
        && heap.Allocated() == old(heap.Allocated()) + {r.value}
        && (forall i | 0 <= i < ENTRIES :: Read(mem, Slot(r.value, i)) == 0)
        && (forall s: Slot | s.table != r.value :: Read(mem, s) == Read(old(mem), s))
    {
      r := heap.AllocPage();
      if r.None? { return; }
      var p := r.value;
      Zero(p);
      SameMemKeepsTree(ops, old(mem), mem, tables);
    }

    /** The table below t on the way to v, allocated and linked if missing (src/kernel/vm.c:63-74). */
    method EnterTable(t: nat, l: nat, v: Vpn, ghost target: nat) returns (next: Option<nat>)
      requires Valid() && InTable(v) && t in tables && Through(tables, t, v) && target < l == tables[t].level
      requires IsRoot(tables, tables[t].root)
      requires CanMap(ops, mem, tables, tables[t].root, target, v)
      modifies this, heap.allocMap
      ensures Valid() && Extends(old(tables), tables)
      ensures SameLookups(ops, old(mem), mem, old(tables))
      ensures next.None? ==> tables == old(tables) && heap.Allocated() == heap.AllPages() == old(heap.Allocated())
      ensures next.Some? ==>
        && next.value in tables && tables[next.value].level == l - 1
        && tables[next.value].root == tables[t].root && Through(tables, next.value, v)
        && tables.Keys == old(tables).Keys + {next.value}
        && heap.Allocated() == old(heap.Allocated()) + {next.value}
        && (next.value in old(heap.Allocated()) ==> next.value in old(tables))
        && CanMap(ops, mem, tables, tables[t].root, target, v)
    {
      hide TreeInv, AllWritten, CanMap, SameLookups, Lawful, Through, LinkWrite;
      var s := Slot(t, Ix(v, l));
      if ops.isValid(Read(mem, s)) {
        DescendEffect(ops, mem, tables, t, v, target);
        SameLookupsRefl(ops, mem, tables);
        return Some(Child(ops, Read(mem, s)));
      }
      next := AllocZeroed();
      if next.None? { SameLookupsRefl(ops, mem, tables); return; }
      var c := next.value;
      StoreLink(ops, old(mem), mem, tables, s, c);
      LinkWritten(ops, mem, s, l, c);
      mem := mem[s := TableEntry(ops, Read(mem, s), l, V2P(c))];
      LinkEffect(ops, old(mem), mem, tables, t, c, v, target);
      tables := Linked(tables, s, c);
    }

    /** The final entry (src/kernel/vm.c:80-85). */
    method WriteLeaf(t: nat, l: nat, v: Vpn, pa: nat, priv: Mode)
      requires Valid() && InTable(v) && t in tables && Through(tables, t, v) && l == tables[t].level
      requires CanMap(ops, mem, tables, tables[t].root, l, v)
      requires pa % SMALL == 0 && pa < ops.maxPhys
      modifies this`mem
      ensures Valid()
      ensures Updated(ops, old(mem), mem, tables, tables[t].root, l, v, pa, priv)
    {
      hide TreeInv, AllWritten, CanMap, Updated;
      var s := Slot(t, Ix(v, l));
      LeafEntryView(ops, Read(mem, s), l, pa, priv);
      ReadWritten(ops, mem, s);
      LeafEntryWritten(ops, Read(mem, s), l, pa, priv);
      WriteKeeps(ops, mem, s, LeafEntry(ops, Read(mem, s), l, pa, priv));
      mem := mem[s := LeafEntry(ops, Read(mem, s), l, pa, priv)];
      LeafEffect(ops, old(mem), mem, tables, t, v, pa, priv);
    }

    /** map_page (src/kernel/vm.c:57-86). False only where the source panics for lack of memory. */
    method MapPage(root: nat, va: nat, pa: nat, level: nat, priv: Mode) returns (ok: bool)
      requires Valid() && IsRoot(tables, root) && level <= TOP
      requires va % Size(level) == 0 && pa % Size(level) == 0 && pa < ops.maxPhys
      requires CanMap(ops, mem, tables, root, level, Split(va))
      modifies this, heap.allocMap
      ensures Valid()
      ensures NewTablesOnly(old(tables), tables, old(heap.Allocated()), heap.Allocated(), root, level)
      ensures !ok ==> heap.Allocated() == heap.AllPages()
      ensures ok ==> Updated(ops, old(mem), mem, old(tables), root, level, Split(va), pa, priv)
    {
      hide TreeInv, AllWritten, CanMap, SameLookups, Lawful, Through, Updated, Split, NewTablesOnly;
      var v := Split(va);
      var t, l := root, TOP;
      RootThrough(ops, mem, tables, root, v);
      SameLookupsRefl(ops, mem, tables);
      NewTablesStart(tables, heap.Allocated(), root, level);
      while l > level
        invariant level <= l <= TOP
        invariant Valid() && Extends(old(tables), tables)
        invariant NewTablesOnly(old(tables), tables, old(heap.Allocated()), heap.Allocated(), root, level)
        invariant t in tables && tables[t].level == l && tables[t].root == root && Through(tables, t, v)
        invariant SameLookups(ops, old(mem), mem, old(tables))
        invariant CanMap(ops, mem, tables, root, level, v)
      {
        ghost var mem1, tables1, alloc1 := mem, tables, heap.Allocated();
        var next := EnterTable(t, l, v, level);
        SameLookupsTrans(ops, old(mem), mem1, mem, old(tables), tables1);
        if next.None? { return false; }
        NewTablesStep(old(tables), tables1, tables, old(heap.Allocated()), alloc1, heap.Allocated(), root, level,
                      next.value);
        t, l := next.value, l - 1;
      }
      ghost var mem1 := mem;
      WriteLeaf(t, l, v, pa, priv);
      UpdatedAfterSame(ops, old(mem), mem1, mem, old(tables), tables, root, level, v, pa, priv);
      return true;
    }

    /** walk_page (src/kernel/vm.c:88-97): the loop stops because a valid entry of the last level is a leaf. */
    method WalkPage(root: nat, va: nat) returns (w: Walked)
      requires Valid() && IsRoot(tables, root)
      ensures w == Walk(ops, mem, root, TOP, Split(va))
    {
      hide TreeInv, Walk, Through, Lawful, Split;
      var v := Split(va);
      var t, level := root, TOP;
      RootThrough(ops, mem, tables, root, v);
      while true
        invariant t in tables && tables[t].level == level && Through(tables, t, v)
        invariant Walk(ops, mem, root, TOP, v) == Walk(ops, mem, t, level, v)
        decreases level
      {
        WalkStep(ops, mem, tables, t, v);
        var s := Slot(t, Ix(v, level));
        var e := Read(mem, s);
        if !ops.isValid(e) { return Miss; }
        if ops.isLeaf(e, level) { return Hit(s, level); }
        t, level := Child(ops, e), level - 1;
      }
    }

    /** get_page_size (src/kernel/vm.c:111-121). */
    method GetPageSize(root: nat, va: nat) returns (size: nat)
      requires Valid() && IsRoot(tables, root)
      ensures var m := Lookup(ops, mem, root, Split(va)); size == if m.Mapped? then Size(m.level) else 0
    {
      hide TreeInv, Walk, Through, Lawful, Split;
      var v := Split(va);
      var t, level := root, TOP;
      RootThrough(ops, mem, tables, root, v);
      while true
        invariant t in tables && tables[t].level == level && Through(tables, t, v)
        invariant Walk(ops, mem, root, TOP, v) == Walk(ops, mem, t, level, v)
        decreases level
      {
        WalkStep(ops, mem, tables, t, v);
        var e := Read(mem, Slot(t, Ix(v, level)));
        if !ops.isValid(e) { return 0; }
        if ops.isLeaf(e, level) { return Size(level); }
        t, level := Child(ops, e), level - 1;
      }
    }

    /** translate_page (src/kernel/vm.c:105-109): the page's base plus the low 12 bits of the address. */
    method TranslatePage(root: nat, va: nat) returns (pa: nat)
      requires Valid() && IsRoot(tables, root)
      ensures pa == Translation(Lookup(ops, mem, root, Split(va)), va)
    {
      hide TreeInv, Walk, Lawful, Split;
      var w := WalkPage(root, va);
      if w.Miss? { return PHYS_ADDR_INVALID; }
      var e := Read(mem, w.slot);
      PhysInRange(ops, e);
      Bits.AndMaskIsMod(va, 12, Bits.WIDTH);
      Bits.Pow2Values();
      OrOffset(ops.getPhys(e), va % SMALL);
      return Bits.Or(ops.getPhys(e), Bits.And(va, Bits.MASK(12)));
    }

    /** is_page_mapped (src/kernel/vm.c:123-125): no real translation is the sentinel. */
    method IsPageMapped(root: nat, va: nat) returns (b: bool)
      requires Valid() && IsRoot(tables, root)
      ensures b <==> Lookup(ops, mem, root, Split(va)).Mapped?
    {
      hide TreeInv, Walk, Lawful, Split;
      var pa := TranslatePage(root, va);
      ghost var w := Walk(ops, mem, root, TOP, Split(va));
      if w.Hit? { PhysInRange(ops, Read(mem, w.slot)); }
      SentinelMeansUnmapped(Lookup(ops, mem, root, Split(va)), va);
      return PHYS_ADDR_INVALID != pa;
    }

    /** page_set_cache_policy (src/kernel/vm.c:99-103). */
    method PageSetCachePolicy(root: nat, va: nat, pol: Policy)
      requires Valid() && IsRoot(tables, root)
      modifies this`mem
      ensures Valid()
      ensures var m := Lookup(ops, old(mem), root, Split(va));
        if m.Unmapped? then mem == old(mem)
        else Replaced(ops, old(mem), mem, tables, root, m.level, Split(va), m.(attr := ops.attrOf(pol)))
    {
      hide TreeInv, AllWritten, Lawful, Split, Walk, Replaced;
      var w := WalkPage(root, va);
      if w.Miss? { return; }
      var v := Split(va);
      var e := ops.setCachePolicy(Read(mem, w.slot), pol);
      HitIsLeaf(ops, mem, tables, root, v);
      PolicyKeepsEntry(ops, Read(mem, w.slot), w.level, pol);
      HitEffect(ops, mem, tables, root, v, e);
      SetterKeeps(ops, mem, w.slot, ToPolicy(pol));
      mem := mem[w.slot := e];
    }

    /** unmap_page (src/kernel/vm.c:127-131). */
    method UnmapPage(root: nat, va: nat)
      requires Valid() && IsRoot(tables, root)
      modifies this`mem
      ensures Valid()
      ensures var m := Lookup(ops, old(mem), root, Split(va));
        if m.Unmapped? then mem == old(mem)
        else Replaced(ops, old(mem), mem, tables, root, m.level, Split(va), Unmapped)
    {
      hide TreeInv, AllWritten, Lawful, Split, Walk, Replaced;
      var w := WalkPage(root, va);
      if w.Miss? { return; }
      var e := ops.setValid(Read(mem, w.slot), false);
      InvalidatedEntry(ops, Read(mem, w.slot), w.level);
      HitEffect(ops, mem, tables, root, Split(va), e);
      SetterKeeps(ops, mem, w.slot, ToValid(false));
      mem := mem[w.slot := e];
    }

    /** alloc_pagetable: an empty address space (src/kernel/vm.c:50-55). */
    method AllocPagetable() returns (r: Option<nat>)
      requires Valid()
      modifies this, heap.allocMap
      ensures Valid()
      ensures r.None? ==> tables == old(tables) && heap.Allocated() == old(heap.Allocated()) == heap.AllPages()
      ensures r.Some? ==>
        && r.value !in old(heap.Allocated()) && heap.Allocated() == old(heap.Allocated()) + {r.value}
        && tables == WithRoot(old(tables), r.value) && IsRoot(tables, r.value)
        && SameLookups(ops, old(mem), mem, old(tables))
        && (forall v | InTable(v) :: Lookup(ops, mem, r.value, v) == Unmapped)
    {
      hide TreeInv, AllWritten, Lawful, SameLookups, Lookup;
      r := AllocZeroed();
      if r.None? { return; }
      EmptyEntry(ops);
      NewSpaceEffect(ops, old(mem), mem, tables, r.value);
      tables := WithRoot(tables, r.value);
    }
  }
}
