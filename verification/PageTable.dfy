/**
 Page tables in memory (src/kernel/vm.c): what the hardware and walk_page read, the tree
 invariant, and what writing one entry does to every translation.
 */
module PageTable {
  import opened Common
  import opened Addr
  import opened Pte

  /** The address of one entry: &page_table[index]. */
  datatype Slot = Slot(table: nat, index: nat)

  /** The words of memory that hold page table entries. */
  type Mem = map<Slot, nat>

  function Read(mem: Mem, s: Slot): nat { if s in mem then mem[s] else 0 }

  /** The table an entry points to: KERN_P2V(pte_get_phys(entry)). */
  function Child(ops: PteOps, e: nat): nat { P2V(ops.getPhys(e)) }

  /** walk_page: the entry that translates an address, and its level. */
  datatype Walked = Miss | Hit(slot: Slot, level: nat)

  function Walk(ops: PteOps, mem: Mem, t: nat, level: nat, v: Vpn): Walked
    decreases level, t
  {
    var s := Slot(t, Ix(v, level));
    var e := Read(mem, s);
    if !ops.isValid(e) then Miss
    else if ops.isLeaf(e, level) then Hit(s, level)
    else if level == 0 then Miss
    else Walk(ops, mem, Child(ops, e), level - 1, v)
  }

  /** What an address maps to: the page's level (its size), physical base, privilege and attribute. */
  datatype Mapping = Unmapped | Mapped(level: nat, phys: nat, priv: Mode, attr: nat)

  function MappingOf(ops: PteOps, mem: Mem, w: Walked): Mapping {
    match w
    case Miss => Unmapped
    case Hit(s, l) => var e := Read(mem, s); Mapped(l, ops.getPhys(e), ops.priv(e), ops.attr(e))
  }

  /** The address space of the table rooted at root, as a function of the address. */
  function Lookup(ops: PteOps, mem: Mem, root: nat, v: Vpn): Mapping {
    MappingOf(ops, mem, Walk(ops, mem, root, TOP, v))
  }

  // ---- The tree invariant ---------------------------------------------------

  /** Where a live table sits: in the tree of `root`, holding entries of `level`, for the
      addresses whose indices above `level` are those of `base`, and linked from `parent`. */
  datatype Label = Label(root: nat, level: nat, base: Vpn, parent: nat)

  /** The live tables. A table has one label, so no table is shared or reachable twice. */
  type Tables = map<nat, Label>

  ghost predicate LinkOk(T: Tables, p: nat, i: nat, c: nat)
    requires p in T
  {
    c in T && T[p].level > 0 && T[c] == Label(T[p].root, T[p].level - 1, WithIx(T[p].base, T[p].level, i), p)
  }

  /** A valid entry is a leaf or links to the live table labelled for it; at the last level it is a leaf. */
  ghost predicate SlotOk(ops: PteOps, mem: Mem, T: Tables, p: nat, i: nat)
    requires p in T
  {
    var e := Read(mem, Slot(p, i));
    ops.isValid(e) ==> ops.isLeaf(e, T[p].level) || LinkOk(T, p, i, Child(ops, e))
  }

  /** Every table below the root is linked from its parent. */
  ghost predicate ParentOk(ops: PteOps, mem: Mem, T: Tables, p: nat)
    requires p in T
  {
    var q := T[p].parent;
    && q in T && T[q].level == T[p].level + 1 && T[q].root == T[p].root
    && T[q].base == Prefix(T[p].base, T[q].level + 1)
    && var e := Read(mem, Slot(q, Ix(T[p].base, T[q].level)));
       ops.isValid(e) && !ops.isLeaf(e, T[q].level) && Child(ops, e) == p
  }

  ghost predicate TableOk(ops: PteOps, mem: Mem, T: Tables, p: nat)
    requires p in T
  {
    var l := T[p];
    && KernPtr(p) && l.level <= TOP && InTable(l.base) && l.base == Prefix(l.base, l.level + 1)
    && l.root in T
    && (if l.level == TOP then l.root == p else ParentOk(ops, mem, T, p))
    && forall i | 0 <= i < ENTRIES :: SlotOk(ops, mem, T, p, i)
  }

  ghost predicate TreeInv(ops: PteOps, mem: Mem, T: Tables) {
    forall p | p in T :: TableOk(ops, mem, T, p)
  }

  predicate IsRoot(T: Tables, r: nat) { r in T && T[r].level == TOP && T[r].root == r }

  /** v is translated through table p. */
  predicate Through(T: Tables, p: nat, v: Vpn)
    requires p in T
  {
    Prefix(v, T[p].level + 1) == T[p].base
  }

  // ---- Walks and labels -------------------------------------------------------

  /** One step of a walk stays on the labelled path. */
  lemma StepLabel(ops: PteOps, mem: Mem, T: Tables, p: nat, v: Vpn)
    requires TreeInv(ops, mem, T) && p in T && InTable(v) && Through(T, p, v)
    ensures var e := Read(mem, Slot(p, Ix(v, T[p].level)));
      ops.isValid(e) && !ops.isLeaf(e, T[p].level) ==>
        T[p].level > 0 && LinkOk(T, p, Ix(v, T[p].level), Child(ops, e)) && Through(T, Child(ops, e), v)
  {
    hide ParentOk, KernPtr, Child;
    assert TableOk(ops, mem, T, p);
    assert SlotOk(ops, mem, T, p, Ix(v, T[p].level));
  }

  lemma TableLevel(ops: PteOps, mem: Mem, T: Tables, t: nat)
    requires TreeInv(ops, mem, T) && t in T
    ensures T[t].level <= TOP
  {
    hide SlotOk, ParentOk, KernPtr;
    assert TableOk(ops, mem, T, t);
  }

  /** A walk that hits, hits a leaf of a live table on the path of v. */
  lemma {:induction false} HitLabel(ops: PteOps, mem: Mem, T: Tables, t: nat, v: Vpn)
    requires TreeInv(ops, mem, T) && t in T && InTable(v) && Through(T, t, v)
    ensures var w := Walk(ops, mem, t, T[t].level, v);
      w.Hit? ==>
        && w.slot.table in T && T[w.slot.table].level == w.level && T[w.slot.table].root == T[t].root
        && Through(T, w.slot.table, v) && w.slot.index == Ix(v, w.level) && w.level <= TOP
        && ops.isValid(Read(mem, w.slot)) && ops.isLeaf(Read(mem, w.slot), w.level)
    decreases T[t].level
  {
    hide TreeInv, Child, Prefix, Ix;
    assert T[t].level <= TOP by { TableLevel(ops, mem, T, t); }
    StepLabel(ops, mem, T, t, v);
    var e := Read(mem, Slot(t, Ix(v, T[t].level)));
    if ops.isValid(e) && !ops.isLeaf(e, T[t].level) { HitLabel(ops, mem, T, Child(ops, e), v); }
  }

  /** Every live table is on the walk of each address it serves. */
  lemma {:induction false} WalkReaches(ops: PteOps, mem: Mem, T: Tables, p: nat, v: Vpn)
    requires TreeInv(ops, mem, T) && p in T && Through(T, p, v)
    ensures Walk(ops, mem, T[p].root, TOP, v) == Walk(ops, mem, p, T[p].level, v)
    decreases TOP - T[p].level
  {
    hide KernPtr, Child, SlotOk;
    assert TableOk(ops, mem, T, p);
    if T[p].level < TOP {
      var q := T[p].parent;
      assert ParentOk(ops, mem, T, p);
      assert TableOk(ops, mem, T, q);
      assert Through(T, q, v) && Ix(v, T[q].level) == Ix(T[p].base, T[q].level);
      WalkReaches(ops, mem, T, q, v);
    }
  }

  // ---- Writing one entry ----------------------------------------------------

  /** mem' differs from mem, on the live tables, in the one entry s0 only. */
  ghost predicate ChangedAt(mem: Mem, mem': Mem, T: Tables, s0: Slot) {
    forall s: Slot | s.table in T && s != s0 :: Read(mem', s) == Read(mem, s)
  }

  /** Entry s does not point to a live table. */
  ghost predicate NotTable(ops: PteOps, mem: Mem, T: Tables, s: Slot)
    requires s.table in T
  {
    var e := Read(mem, s);
    ops.isValid(e) ==> ops.isLeaf(e, T[s.table].level)
  }

  /** The entry is part of the page table tree and is no link, before and after the write. */
  ghost predicate LeafWrite(ops: PteOps, mem: Mem, mem': Mem, T: Tables, s: Slot) {
    && s.table in T && s.index < ENTRIES
    && ChangedAt(mem, mem', T, s) && NotTable(ops, mem, T, s) && NotTable(ops, mem', T, s)
  }

  ghost predicate Extends(T: Tables, T': Tables) { forall p | p in T :: p in T' && T'[p] == T[p] }

  /** A live table stays well formed when the one changed entry was no link and is well formed now. */
  lemma KeepTableOk(ops: PteOps, mem: Mem, mem': Mem, T: Tables, T': Tables, s: Slot, p: nat)
    requires Extends(T, T') && ChangedAt(mem, mem', T, s) && p in T && TableOk(ops, mem, T, p)
    requires s.table in T ==> NotTable(ops, mem, T, s) && SlotOk(ops, mem', T', s.table, s.index)
    ensures TableOk(ops, mem', T', p)
  {
    hide KernPtr, Child, Prefix, WithIx, Ix;
    forall i | 0 <= i < ENTRIES ensures SlotOk(ops, mem', T', p, i) { assert SlotOk(ops, mem, T, p, i); }
    if T[p].level < TOP { assert ParentOk(ops, mem, T, p); }
  }

  lemma SameTableOk(ops: PteOps, mem: Mem, mem': Mem, T: Tables, p: nat)
    requires p in T && TableOk(ops, mem, T, p)
    requires forall s: Slot | s.table in T :: Read(mem', s) == Read(mem, s)
    ensures TableOk(ops, mem', T, p)
  {
    hide KernPtr, Child, Prefix, WithIx, Ix, LinkOk;
    forall i | 0 <= i < ENTRIES ensures SlotOk(ops, mem', T, p, i) { assert SlotOk(ops, mem, T, p, i); }
  }

  lemma SameMemKeepsTree(ops: PteOps, mem: Mem, mem': Mem, T: Tables)
    requires TreeInv(ops, mem, T)
    requires forall s: Slot | s.table in T :: Read(mem', s) == Read(mem, s)
    ensures TreeInv(ops, mem', T)
  {
    hide TableOk;
    forall p | p in T ensures TableOk(ops, mem', T, p) { SameTableOk(ops, mem, mem', T, p); }
  }

  lemma LeafWriteKeepsTree(ops: PteOps, mem: Mem, mem': Mem, T: Tables, s: Slot)
    requires TreeInv(ops, mem, T) && LeafWrite(ops, mem, mem', T, s)
    ensures TreeInv(ops, mem', T)
  {
    forall p | p in T ensures TableOk(ops, mem', T, p) { KeepTableOk(ops, mem, mem', T, T, s, p); }
  }

  /** Addresses not served by the written entry walk as before. */
  lemma {:induction false} WalkElsewhere(ops: PteOps, mem: Mem, mem': Mem, T: Tables, s: Slot, t: nat, v: Vpn)
    requires TreeInv(ops, mem, T) && ChangedAt(mem, mem', T, s) && s.table in T
    requires t in T && InTable(v) && Through(T, t, v)
    requires !(T[s.table].root == T[t].root && Through(T, s.table, v) && s.index == Ix(v, T[s.table].level))
    ensures Walk(ops, mem', t, T[t].level, v) == Walk(ops, mem, t, T[t].level, v)
    decreases T[t].level
  {
    hide TreeInv, Child;
    StepLabel(ops, mem, T, t, v);
    var e := Read(mem, Slot(t, Ix(v, T[t].level)));
    if ops.isValid(e) && !ops.isLeaf(e, T[t].level) { WalkElsewhere(ops, mem, mem', T, s, Child(ops, e), v); }
  }

  /** The walk of an address after a leaf write: the written entry answers for the addresses
      it serves, and every other address of every address space walks as before. */
  lemma LeafWriteWalk(ops: PteOps, mem: Mem, mem': Mem, T: Tables, s: Slot, r: nat, v: Vpn)
    requires TreeInv(ops, mem, T) && LeafWrite(ops, mem, mem', T, s) && IsRoot(T, r) && InTable(v)
    ensures var served := T[s.table].root == r && Through(T, s.table, v) && s.index == Ix(v, T[s.table].level);
      Walk(ops, mem', r, TOP, v) ==
        if !served then Walk(ops, mem, r, TOP, v)
        else if ops.isValid(Read(mem', s)) then Hit(s, T[s.table].level) else Miss
  {
    assert TableOk(ops, mem, T, r);
    if T[s.table].root == r && Through(T, s.table, v) && s.index == Ix(v, T[s.table].level) {
      LeafWriteKeepsTree(ops, mem, mem', T, s);
      WalkReaches(ops, mem', T, s.table, v);
    } else {
      WalkElsewhere(ops, mem, mem', T, s, r, v);
    }
  }

  /** An address served by another entry keeps its mapping. */
  lemma LeafWriteLookup(ops: PteOps, mem: Mem, mem': Mem, T: Tables, s: Slot, r: nat, v: Vpn)
    requires TreeInv(ops, mem, T) && LeafWrite(ops, mem, mem', T, s) && IsRoot(T, r) && InTable(v)
    ensures var l := T[s.table].level;
      Lookup(ops, mem', r, v) ==
        if !(T[s.table].root == r && Through(T, s.table, v) && s.index == Ix(v, l)) then Lookup(ops, mem, r, v)
        else if ops.isValid(Read(mem', s)) then MappingOf(ops, mem', Hit(s, l)) else Unmapped
  {
    hide Child;
    assert TableOk(ops, mem, T, r);
    LeafWriteWalk(ops, mem, mem', T, s, r, v);
    HitLabel(ops, mem, T, r, v);
  }

  // ---- Adding a table ---------------------------------------------------------

  /** mem' links the fresh empty table c into the free entry s. */
  ghost predicate LinkWrite(ops: PteOps, mem: Mem, mem': Mem, T: Tables, s: Slot, c: nat) {
    && s.table in T && s.index < ENTRIES && T[s.table].level > 0 && KernPtr(c) && c !in T
    && ChangedAt(mem, mem', T, s)
    && !ops.isValid(Read(mem, s))
    && (forall i | 0 <= i < ENTRIES :: Read(mem', Slot(c, i)) == 0)
    && var e := Read(mem', s);
       ops.isValid(e) && !ops.isLeaf(e, T[s.table].level) && Child(ops, e) == c
  }

  function Linked(T: Tables, s: Slot, c: nat): Tables
    requires s.table in T
  {
    var l := T[s.table];
    if l.level == 0 then T else T[c := Label(l.root, l.level - 1, WithIx(l.base, l.level, s.index), s.table)]
  }

  lemma LinkNewTableOk(ops: PteOps, mem: Mem, mem': Mem, T: Tables, s: Slot, c: nat)
    requires TreeInv(ops, mem, T) && LinkWrite(ops, mem, mem', T, s, c) && !ops.isValid(0)
    ensures TableOk(ops, mem', Linked(T, s, c), c)
  {
    hide LinkOk, Child, KernPtr, TreeInv;
    var T' := Linked(T, s, c);
    SlotLabel(ops, mem, T, s);
    forall i | 0 <= i < ENTRIES ensures SlotOk(ops, mem', T', c, i) { assert Read(mem', Slot(c, i)) == 0; }
  }

  lemma SlotLabel(ops: PteOps, mem: Mem, T: Tables, s: Slot)
    requires TreeInv(ops, mem, T) && s.table in T && s.index < ENTRIES && T[s.table].level > 0
    ensures T[s.table].level <= TOP && T[s.table].root in T
    ensures var l := T[s.table].level; var b := WithIx(T[s.table].base, l, s.index);
      InTable(b) && b == Prefix(b, l) && Prefix(b, l + 1) == T[s.table].base && Ix(b, l) == s.index
  {
    hide SlotOk, ParentOk, KernPtr;
    assert TableOk(ops, mem, T, s.table);
  }

  lemma LinkKeepsTree(ops: PteOps, mem: Mem, mem': Mem, T: Tables, s: Slot, c: nat)
    requires TreeInv(ops, mem, T) && LinkWrite(ops, mem, mem', T, s, c) && !ops.isValid(0)
    ensures TreeInv(ops, mem', Linked(T, s, c))
  {
    hide TableOk;
    var T' := Linked(T, s, c);
    LinkNewTableOk(ops, mem, mem', T, s, c);
    forall p | p in T' && p != c ensures TableOk(ops, mem', T', p) { KeepTableOk(ops, mem, mem', T, T', s, p); }
  }

  /** Linking an empty table changes no walk. */
  lemma {:induction false} LinkWalk(ops: PteOps, mem: Mem, mem': Mem, T: Tables, s: Slot, c: nat, t: nat, v: Vpn)
    requires TreeInv(ops, mem, T) && LinkWrite(ops, mem, mem', T, s, c) && !ops.isValid(0)
    requires t in T && InTable(v) && Through(T, t, v)
    ensures Walk(ops, mem', t, T[t].level, v) == Walk(ops, mem, t, T[t].level, v)
    decreases T[t].level
  {
    hide TreeInv, Child;
    StepLabel(ops, mem, T, t, v);
    var here := Slot(t, Ix(v, T[t].level));
    if here == s {
      assert Read(mem', Slot(c, Ix(v, T[t].level - 1))) == 0;
    } else {
      var e := Read(mem, here);
      if ops.isValid(e) && !ops.isLeaf(e, T[t].level) { LinkWalk(ops, mem, mem', T, s, c, Child(ops, e), v); }
    }
  }

  lemma LinkLookup(ops: PteOps, mem: Mem, mem': Mem, T: Tables, s: Slot, c: nat, r: nat, v: Vpn)
    requires TreeInv(ops, mem, T) && LinkWrite(ops, mem, mem', T, s, c) && !ops.isValid(0)
    requires IsRoot(T, r) && InTable(v)
    ensures Lookup(ops, mem', r, v) == Lookup(ops, mem, r, v)
  {
    assert TableOk(ops, mem, T, r);
    LinkWalk(ops, mem, mem', T, s, c, r, v);
    HitLabel(ops, mem, T, r, v);
  }

  // ---- A new address space ---------------------------------------------------

  const ORIGIN: Vpn := Vpn(0, 0, 0, 0)

  function WithRoot(T: Tables, r: nat): Tables { T[r := Label(r, TOP, ORIGIN, r)] }

  lemma RootKeepsTree(ops: PteOps, mem: Mem, mem': Mem, T: Tables, r: nat)
    requires TreeInv(ops, mem, T) && KernPtr(r) && r !in T && !ops.isValid(0)
    requires forall s: Slot | s.table in T :: Read(mem', s) == Read(mem, s)
    requires forall i | 0 <= i < ENTRIES :: Read(mem', Slot(r, i)) == 0
    ensures TreeInv(ops, mem', WithRoot(T, r))
  {
    hide TableOk, SlotOk;
    var T' := WithRoot(T, r);
    RootTableOk(ops, mem', T', r);
    forall p | p in T' && p != r ensures TableOk(ops, mem', T', p) {
      KeepTableOk(ops, mem, mem', T, T', Slot(r, 0), p);
    }
  }

  lemma RootTableOk(ops: PteOps, mem: Mem, T: Tables, r: nat)
    requires r in T && T[r] == Label(r, TOP, ORIGIN, r) && KernPtr(r) && !ops.isValid(0)
    requires forall i | 0 <= i < ENTRIES :: Read(mem, Slot(r, i)) == 0
    ensures TableOk(ops, mem, T, r)
  {
    hide LinkOk, Child, ParentOk, KernPtr;
    forall i | 0 <= i < ENTRIES ensures SlotOk(ops, mem, T, r, i) { assert Read(mem, Slot(r, i)) == 0; }
  }

  /** An empty table maps nothing; the other address spaces keep their mappings. */
  lemma {:induction false} WalkSame(ops: PteOps, mem: Mem, mem': Mem, T: Tables, t: nat, v: Vpn)
    requires TreeInv(ops, mem, T) && t in T && InTable(v) && Through(T, t, v)
    requires forall s: Slot | s.table in T && T[s.table].root == T[t].root :: Read(mem', s) == Read(mem, s)
    ensures Walk(ops, mem', t, T[t].level, v) == Walk(ops, mem, t, T[t].level, v)
    ensures MappingOf(ops, mem', Walk(ops, mem', t, T[t].level, v))
      == MappingOf(ops, mem, Walk(ops, mem, t, T[t].level, v))
    decreases T[t].level
  {
    hide TreeInv, Child;
    StepLabel(ops, mem, T, t, v);
    var e := Read(mem, Slot(t, Ix(v, T[t].level)));
    if ops.isValid(e) && !ops.isLeaf(e, T[t].level) { WalkSame(ops, mem, mem', T, Child(ops, e), v); }
  }
}
