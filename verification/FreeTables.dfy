/** free_pagetable (src/kernel/vm.c:133-160): which pages it returns to the heap, each exactly once. */
module FreeTables {
  import opened Addr
  import opened Pte
  import opened PageTable
  import opened KHeap
  import opened Vm

  /** The one place a backing page is mapped: an address of one address space. */
  datatype Home = Home(root: nat, v: Vpn)

  /** The pages that back small mappings. */
  type Backing = map<nat, Home>

  /** Small mappings and backing pages correspond one to one. */
  ghost predicate BackingInv(ops: PteOps, mem: Mem, T: Tables, B: Backing) {
    && (forall r, v | IsRoot(T, r) && InTable(v) :: SmallIsBacked(ops, mem, B, r, v))
    && (forall d | d in B :: BackingMapped(ops, mem, T, B, d))
  }

  ghost predicate SmallIsBacked(ops: PteOps, mem: Mem, B: Backing, r: nat, v: Vpn) {
    var m := Lookup(ops, mem, r, v);
    m.Mapped? && m.level == 0 ==> P2V(m.phys) in B && B[P2V(m.phys)] == Home(r, v)
  }

  ghost predicate BackingMapped(ops: PteOps, mem: Mem, T: Tables, B: Backing, d: nat)
    requires d in B
  {
    && IsRoot(T, B[d].root) && InTable(B[d].v)
    && var m := Lookup(ops, mem, B[d].root, B[d].v);
       m.Mapped? && m.level == 0 && P2V(m.phys) == d
  }

  // ---- Pages below a table ----------------------------------------------------

  /** Table p is t or hangs below t. */
  ghost predicate TableUnder(T: Tables, t: nat, p: nat)
    requires t in T && p in T
  {
    T[p].root == T[t].root && T[p].level <= T[t].level && Prefix(T[p].base, T[t].level + 1) == T[t].base
  }

  ghost predicate BackingUnder(T: Tables, B: Backing, t: nat, d: nat)
    requires t in T && d in B
  {
    B[d].root == T[t].root && Prefix(B[d].v, T[t].level + 1) == T[t].base
  }

  /** Page x is reached from t through an entry with index below n. */
  ghost predicate Below(T: Tables, B: Backing, t: nat, n: nat, x: nat)
    requires t in T
  {
    || (x in T && TableUnder(T, t, x) && T[x].level < T[t].level && Ix(T[x].base, T[t].level) < n)
    || (x in B && BackingUnder(T, B, t, x) && Ix(B[x].v, T[t].level) < n)
  }

  ghost function PagesBelow(T: Tables, B: Backing, t: nat, n: nat): set<nat>
    requires t in T
  {
    set x | x in T.Keys + B.Keys && Below(T, B, t, n, x)
  }

  /** Everything _free_pagetable_recursive(t) is to free. */
  ghost function PagesUnder(T: Tables, B: Backing, t: nat): set<nat>
    requires t in T
  {
    PagesBelow(T, B, t, ENTRIES) + {t}
  }

  /** A table strictly below t hangs from a link in t. */
  lemma {:induction false} LinkAbove(ops: PteOps, mem: Mem, T: Tables, t: nat, p: nat)
    requires TreeInv(ops, mem, T) && t in T && p in T && TableUnder(T, t, p) && T[p].level < T[t].level
    ensures var e := Read(mem, Slot(t, Ix(T[p].base, T[t].level)));
      ops.isValid(e) && !ops.isLeaf(e, T[t].level) && Child(ops, e) in T && TableUnder(T, Child(ops, e), p)
    decreases T[t].level - T[p].level
  {
    hide SlotOk, KernPtr, Child;
    assert TableOk(ops, mem, T, p);
    assert TableOk(ops, mem, T, t);
    var q := T[p].parent;
    assert ParentOk(ops, mem, T, p);
    assert TableOk(ops, mem, T, q);
    if T[q].level == T[t].level {
      SameTable(ops, mem, T, t, q);
    } else {
      LinkAbove(ops, mem, T, t, q);
    }
  }

  /** Two live tables of one space at the same place are the same table. */
  lemma {:induction false} SameTable(ops: PteOps, mem: Mem, T: Tables, p: nat, q: nat)
    requires TreeInv(ops, mem, T) && p in T && q in T
    requires T[p].root == T[q].root && T[p].level == T[q].level && T[p].base == T[q].base
    ensures p == q
    decreases TOP - T[p].level
  {
    hide SlotOk, KernPtr, Child;
    assert TableOk(ops, mem, T, p);
    assert TableOk(ops, mem, T, q);
    if T[p].level < TOP {
      assert ParentOk(ops, mem, T, p) && ParentOk(ops, mem, T, q);
      SameTable(ops, mem, T, T[p].parent, T[q].parent);
    }
  }

  // ---- What hangs from one entry ----------------------------------------------

  /** Page x hangs from entry i of table t. */
  ghost predicate Hangs(T: Tables, B: Backing, t: nat, i: nat, x: nat)
    requires t in T
  {
    || (x in T && TableUnder(T, t, x) && T[x].level < T[t].level && Ix(T[x].base, T[t].level) == i)
    || (x in B && BackingUnder(T, B, t, x) && Ix(B[x].v, T[t].level) == i)
  }

  /** Where a backing page is mapped: the last-level table on its home's path. */
  lemma BackingSlot(ops: PteOps, mem: Mem, T: Tables, B: Backing, d: nat) returns (q: nat)
    requires TreeInv(ops, mem, T) && BackingInv(ops, mem, T, B) && d in B
    ensures q in T && T[q].level == 0 && T[q].root == B[d].root && Through(T, q, B[d].v)
    ensures var e := Read(mem, Slot(q, Ix(B[d].v, 0))); ops.isValid(e) && Child(ops, e) == d
  {
    hide TreeInv, Walk, P2V;
    assert BackingMapped(ops, mem, T, B, d);
    var r, v := B[d].root, B[d].v;
    RootThrough(ops, mem, T, r, v);
    HitLabel(ops, mem, T, r, v);
    q := Walk(ops, mem, r, TOP, v).slot.table;
  }

  /** A backing page hangs from its table through a valid entry; if that table is above the last level, through a
      link. */
  lemma BackingHangs(ops: PteOps, mem: Mem, T: Tables, B: Backing, t: nat, d: nat)
    requires TreeInv(ops, mem, T) && BackingInv(ops, mem, T, B) && t in T && d in B && BackingUnder(T, B, t, d)
    ensures var l := T[t].level; var e := Read(mem, Slot(t, Ix(B[d].v, l)));
      ops.isValid(e) && if l == 0 then Child(ops, e) == d else !ops.isLeaf(e, l)
  {
    hide TreeInv, BackingInv, Child;
    var q := BackingSlot(ops, mem, T, B, d);
    LabelFacts(ops, mem, T, q, 0);
    LabelFacts(ops, mem, T, t, 0);
    if T[t].level == 0 { SameTable(ops, mem, T, t, q); } else {
      ThroughUnder(T, t, q, B[d].v);
      LinkAbove(ops, mem, T, t, q);
    }
  }

  /** A table on the path of an address below t hangs below t, and shares its index there. */
  lemma ThroughUnder(T: Tables, t: nat, q: nat, v: Vpn)
    requires t in T && q in T && T[q].level < T[t].level <= TOP && T[q].root == T[t].root
    requires Through(T, q, v) && Prefix(v, T[t].level + 1) == T[t].base
    ensures TableUnder(T, t, q) && Ix(T[q].base, T[t].level) == Ix(v, T[t].level)
  {}

  /** At the last level, the page of a valid entry hangs from it. */
  lemma LeafPageHangs(ops: PteOps, mem: Mem, T: Tables, B: Backing, t: nat, i: nat)
    requires TreeInv(ops, mem, T) && BackingInv(ops, mem, T, B) && t in T && T[t].level == 0 && i < ENTRIES
    requires ops.isValid(Read(mem, Slot(t, i)))
    ensures Hangs(T, B, t, i, Child(ops, Read(mem, Slot(t, i))))
  {
    hide TreeInv, P2V;
    var v := WithIx(T[t].base, 0, i);
    RootOf(ops, mem, T, t);
    LastLevelWalk(ops, mem, T, t, i);
    assert SmallIsBacked(ops, mem, B, T[t].root, v);
  }

  lemma LastLevelWalk(ops: PteOps, mem: Mem, T: Tables, t: nat, i: nat)
    requires TreeInv(ops, mem, T) && t in T && T[t].level == 0 && i < ENTRIES && ops.isValid(Read(mem, Slot(t, i)))
    ensures var v := WithIx(T[t].base, 0, i);
      && InTable(v) && Prefix(v, 1) == T[t].base && Ix(v, 0) == i
      && Walk(ops, mem, T[t].root, TOP, v) == Hit(Slot(t, i), 0)
  {
    hide TreeInv;
    var v := WithIx(T[t].base, 0, i);
    LastLevelSlot(ops, mem, T, t, i);
    WalkReaches(ops, mem, T, t, v);
  }

  lemma LastLevelSlot(ops: PteOps, mem: Mem, T: Tables, t: nat, i: nat)
    requires TreeInv(ops, mem, T) && t in T && T[t].level == 0 && i < ENTRIES && ops.isValid(Read(mem, Slot(t, i)))
    ensures var v := WithIx(T[t].base, 0, i); InTable(v) && Prefix(v, 1) == T[t].base && Ix(v, 0) == i
    ensures ops.isLeaf(Read(mem, Slot(t, i)), 0)
  {
    hide ParentOk, KernPtr, Child;
    assert TableOk(ops, mem, T, t);
    assert SlotOk(ops, mem, T, t, i);
  }

  lemma {:induction false} RootOf(ops: PteOps, mem: Mem, T: Tables, t: nat)
    requires TreeInv(ops, mem, T) && t in T
    ensures IsRoot(T, T[t].root)
    decreases TOP - T[t].level
  {
    hide SlotOk, KernPtr, Child;
    assert TableOk(ops, mem, T, t);
    if T[t].level < TOP { RootOf(ops, mem, T, T[t].parent); }
  }

  /** At the last level, entry i holds up the page it points to, if it is valid. */
  lemma HangsFromLeaf(ops: PteOps, mem: Mem, T: Tables, B: Backing, t: nat, i: nat, x: nat)
    requires TreeInv(ops, mem, T) && BackingInv(ops, mem, T, B) && t in T && T[t].level == 0 && i < ENTRIES
    ensures var e := Read(mem, Slot(t, i)); Hangs(T, B, t, i, x) <==> ops.isValid(e) && x == Child(ops, e)
  {
    hide TreeInv, BackingInv, BackingUnder, Child;
    if Hangs(T, B, t, i, x) { BackingHangs(ops, mem, T, B, t, x); }
    if ops.isValid(Read(mem, Slot(t, i))) { LeafPageHangs(ops, mem, T, B, t, i); }
  }

  /** The block of entry i below base. */
  lemma PrefixStep(base: Vpn, w: Vpn, l: nat, i: nat)
    requires l <= TOP && base == Prefix(base, l + 1)
    ensures Prefix(w, l) == WithIx(base, l, i) <==> Prefix(w, l + 1) == base && Ix(w, l) == i
  {}

  /** A link holds up the pages of the table it points to. */
  lemma HangsFromLink(ops: PteOps, mem: Mem, T: Tables, B: Backing, t: nat, i: nat, x: nat)
    requires TreeInv(ops, mem, T) && BackingInv(ops, mem, T, B) && t in T && T[t].level > 0 && i < ENTRIES
    requires var e := Read(mem, Slot(t, i)); ops.isValid(e) && !ops.isLeaf(e, T[t].level)
    ensures var c := Child(ops, Read(mem, Slot(t, i)));
      && c in T && T[c].level == T[t].level - 1
      && (x in PagesUnder(T, B, c) <==> x in T.Keys + B.Keys && Hangs(T, B, t, i, x))
  {
    hide TreeInv, BackingInv, Prefix, WithIx, Ix, Hangs, PagesUnder, TableUnder;
    var c, l := Child(ops, Read(mem, Slot(t, i))), T[t].level;
    LinkLabel(ops, mem, T, t, i);
    LabelFacts(ops, mem, T, t, l);
    if x in T {
      LabelFacts(ops, mem, T, x, l - 1);
      if TableUnder(T, c, x) && T[x].level == l - 1 { AtChild(ops, mem, T, c, x); }
    }
    if x in B { BackingLabel(ops, mem, T, B, x, l - 1); }
    UnderChild(T, B, t, c, i, x);
  }

  lemma LinkLabel(ops: PteOps, mem: Mem, T: Tables, t: nat, i: nat)
    requires TreeInv(ops, mem, T) && t in T && i < ENTRIES
    requires var e := Read(mem, Slot(t, i)); ops.isValid(e) && !ops.isLeaf(e, T[t].level)
    ensures LinkOk(T, t, i, Child(ops, Read(mem, Slot(t, i))))
  {
    assert TableOk(ops, mem, T, t);
    assert SlotOk(ops, mem, T, t, i);
  }

  lemma BackingLabel(ops: PteOps, mem: Mem, T: Tables, B: Backing, d: nat, l: nat)
    requires BackingInv(ops, mem, T, B) && d in B
    ensures Ix(B[d].v, l) < ENTRIES
  { assert BackingMapped(ops, mem, T, B, d); }

  /** Labels alone decide what is under a linked table. */
  lemma UnderChild(T: Tables, B: Backing, t: nat, c: nat, i: nat, x: nat)
    requires t in T && LinkOk(T, t, i, c) && T[t].level <= TOP && T[t].base == Prefix(T[t].base, T[t].level + 1)
    requires x in T ==>
      Ix(T[x].base, T[c].level) < ENTRIES && (TableUnder(T, c, x) && T[x].level == T[c].level ==> x == c)
    requires x in B ==> Ix(B[x].v, T[c].level) < ENTRIES
    ensures x in PagesUnder(T, B, c) <==> x in T.Keys + B.Keys && Hangs(T, B, t, i, x)
  {
    hide Prefix, WithIx, Ix;
    var l := T[t].level;
    if x in T { PrefixStep(T[t].base, T[x].base, l, i); }
    if x in B { PrefixStep(T[t].base, B[x].v, l, i); }
    PrefixStep(T[t].base, T[c].base, l, i);
    ChildPrefix(T[t].base, l, i);
  }

  lemma ChildPrefix(base: Vpn, l: nat, i: nat)
    requires l <= TOP && base == Prefix(base, l + 1)
    ensures Prefix(WithIx(base, l, i), l) == WithIx(base, l, i)
  {}

  lemma IxInTable(v: Vpn, l: nat)
    requires InTable(v)
    ensures Ix(v, l) < ENTRIES
  {}

  lemma LabelFacts(ops: PteOps, mem: Mem, T: Tables, x: nat, l: nat)
    requires TreeInv(ops, mem, T) && x in T
    ensures Ix(T[x].base, l) < ENTRIES && T[x].base == Prefix(T[x].base, T[x].level + 1) && T[x].level <= TOP
  {
    hide SlotOk, ParentOk, KernPtr;
    assert TableOk(ops, mem, T, x);
    IxInTable(T[x].base, l);
  }

  lemma AtChild(ops: PteOps, mem: Mem, T: Tables, c: nat, x: nat)
    requires TreeInv(ops, mem, T) && c in T && x in T && TableUnder(T, c, x) && T[x].level == T[c].level
    ensures x == c
  {
    assert TableOk(ops, mem, T, x);
    SameTable(ops, mem, T, c, x);
  }

  /** Above the last level nothing hangs from an entry that is no link. */
  lemma NothingHangs(ops: PteOps, mem: Mem, T: Tables, B: Backing, t: nat, i: nat, x: nat)
    requires TreeInv(ops, mem, T) && BackingInv(ops, mem, T, B) && t in T && T[t].level > 0 && i < ENTRIES
    requires var e := Read(mem, Slot(t, i)); !ops.isValid(e) || ops.isLeaf(e, T[t].level)
    ensures !Hangs(T, B, t, i, x)
  {
    if x in T && TableUnder(T, t, x) && T[x].level < T[t].level && Ix(T[x].base, T[t].level) == i {
      LinkAbove(ops, mem, T, t, x);
    }
    if x in B && BackingUnder(T, B, t, x) && Ix(B[x].v, T[t].level) == i { BackingHangs(ops, mem, T, B, t, x); }
  }

  /** What entry i of table t holds up. */
  ghost function PagesAt(ops: PteOps, mem: Mem, T: Tables, B: Backing, t: nat, i: nat): set<nat>
    requires t in T
  {
    var e := Read(mem, Slot(t, i));
    if !ops.isValid(e) then {}
    else if T[t].level == 0 then {Child(ops, e)}
    else if ops.isLeaf(e, T[t].level) || Child(ops, e) !in T then {}
    else PagesUnder(T, B, Child(ops, e))
  }

  /** The pages below entry i + 1 are those below entry i and, apart from them, those at entry i. */
  lemma NextEntry(ops: PteOps, mem: Mem, T: Tables, B: Backing, t: nat, i: nat)
    requires TreeInv(ops, mem, T) && BackingInv(ops, mem, T, B) && t in T && i < ENTRIES && T.Keys !! B.Keys
    ensures PagesBelow(T, B, t, i + 1) == PagesBelow(T, B, t, i) + PagesAt(ops, mem, T, B, t, i)
    ensures PagesBelow(T, B, t, i) !! PagesAt(ops, mem, T, B, t, i)
    ensures t !in PagesBelow(T, B, t, i + 1)
  {
    hide TreeInv, BackingInv, TableUnder, BackingUnder, PagesUnder;
    var e := Read(mem, Slot(t, i));
    forall x ensures x in PagesAt(ops, mem, T, B, t, i) <==> x in T.Keys + B.Keys && Hangs(T, B, t, i, x) {
      if T[t].level == 0 { HangsFromLeaf(ops, mem, T, B, t, i, x); }
      else if ops.isValid(e) && !ops.isLeaf(e, T[t].level) { HangsFromLink(ops, mem, T, B, t, i, x); }
      else { NothingHangs(ops, mem, T, B, t, i, x); }
    }
  }

  // ---- Freeing ------------------------------------------------------------------

  lemma BelowGrows(T: Tables, B: Backing, t: nat, i: nat)
    requires t in T && i <= ENTRIES
    ensures PagesBelow(T, B, t, i) <= PagesUnder(T, B, t)
    ensures PagesBelow(T, B, t, 0) == {}
  {
    hide TableUnder, BackingUnder;
    forall x | x in PagesBelow(T, B, t, i) ensures x in PagesBelow(T, B, t, ENTRIES) {
      assert Below(T, B, t, ENTRIES, x);
    }
    assert forall x :: !Below(T, B, t, 0, x);
  }

  /** _free_pagetable_recursive: frees the pages under t, each exactly once, and no other page. It never
      reaches a panic of free_page: ok is always true. */
  method FreePagetableRecursive(vm: AddressSpaces, t: nat, level: nat, ghost T: Tables, ghost B: Backing)
      returns (ok: bool)
    requires vm.heap.Valid() && TreeInv(vm.ops, vm.mem, T) && BackingInv(vm.ops, vm.mem, T, B) && T.Keys !! B.Keys
    requires t in T && T[t].level == level
    requires PagesUnder(T, B, t) <= vm.heap.Allocated()
    modifies vm.heap.allocMap
    ensures ok && vm.heap.Allocated() == old(vm.heap.Allocated()) - PagesUnder(T, B, t)
    decreases level
  {
    hide TreeInv, BackingInv, PagesBelow;
    ghost var alloc0 := vm.heap.Allocated();
    BelowGrows(T, B, t, 0);
    for i := 0 to ENTRIES
      invariant vm.heap.Allocated() == alloc0 - PagesBelow(T, B, t, i) && t !in PagesBelow(T, B, t, i)
    {
      NextEntry(vm.ops, vm.mem, T, B, t, i);
      BelowGrows(T, B, t, i + 1);
      ok := FreeEntry(vm, t, level, i, T, B);
      if !ok { return; }
    }
    vm.heap.AllocatedArePages();
    ok := vm.heap.FreePage(t);
  }

  /** One turn of the loop: frees what entry i of t holds up. */
  method FreeEntry(vm: AddressSpaces, t: nat, level: nat, i: nat, ghost T: Tables, ghost B: Backing) returns (ok: bool)
    requires vm.heap.Valid() && TreeInv(vm.ops, vm.mem, T) && BackingInv(vm.ops, vm.mem, T, B) && T.Keys !! B.Keys
    requires t in T && T[t].level == level && i < ENTRIES
    requires PagesAt(vm.ops, vm.mem, T, B, t, i) <= vm.heap.Allocated()
    modifies vm.heap.allocMap
    ensures ok && vm.heap.Allocated() == old(vm.heap.Allocated()) - PagesAt(vm.ops, vm.mem, T, B, t, i)
    decreases level, 0
  {
    hide TreeInv, BackingInv, PagesUnder;
    var e := Read(vm.mem, Slot(t, i));
    if !vm.ops.isValid(e) { return true; }
    if level == 0 {
      vm.heap.AllocatedArePages();
      ok := vm.heap.FreePage(Child(vm.ops, e));
    } else if !vm.ops.isLeaf(e, level) {
      LinkLabel(vm.ops, vm.mem, T, t, i);
      ok := FreePagetableRecursive(vm, Child(vm.ops, e), level - 1, T, B);
    } else {
      ok := true;
    }
  }

  /** The pages of one address space. */
  ghost function PagesOf(T: Tables, B: Backing, root: nat): set<nat> {
    (set p | p in T && T[p].root == root) + (set d | d in B && B[d].root == root)
  }

  lemma UnderRoot(ops: PteOps, mem: Mem, T: Tables, B: Backing, root: nat)
    requires TreeInv(ops, mem, T) && BackingInv(ops, mem, T, B) && IsRoot(T, root)
    ensures PagesUnder(T, B, root) == PagesOf(T, B, root)
  {
    hide TreeInv, BackingInv;
    forall p | p in T && T[p].root == root ensures p == root || Below(T, B, root, ENTRIES, p) {
      UnderRootTable(ops, mem, T, root, p);
    }
    forall d | d in B && B[d].root == root ensures Below(T, B, root, ENTRIES, d) {
      BackingLabel(ops, mem, T, B, d, TOP);
      LabelFacts(ops, mem, T, root, TOP);
    }
  }

  lemma UnderRootTable(ops: PteOps, mem: Mem, T: Tables, root: nat, p: nat)
    requires TreeInv(ops, mem, T) && IsRoot(T, root) && p in T && T[p].root == root
    ensures p != root ==> T[p].level < TOP && TableUnder(T, root, p) && Ix(T[p].base, TOP) < ENTRIES
  {
    LabelFacts(ops, mem, T, p, TOP);
    LabelFacts(ops, mem, T, root, TOP);
    assert TableOk(ops, mem, T, p);
  }

  /** What is left of T and B without the space at root. */
  ghost function OtherTables(T: Tables, root: nat): Tables { map p | p in T && T[p].root != root :: T[p] }
  ghost function OtherBacking(B: Backing, root: nat): Backing { map d | d in B && B[d].root != root :: B[d] }

  lemma OthersKept(ops: PteOps, mem: Mem, T: Tables, B: Backing, root: nat)
    requires TreeInv(ops, mem, T) && BackingInv(ops, mem, T, B)
    ensures TreeInv(ops, mem, OtherTables(T, root)) && BackingInv(ops, mem, OtherTables(T, root), OtherBacking(B, root))
  {
    hide TreeInv, TableOk, Lookup;
    var T', B' := OtherTables(T, root), OtherBacking(B, root);
    assert TreeInv(ops, mem, T') by { OtherTreeInv(ops, mem, T, root); }
    forall r, v | IsRoot(T', r) && InTable(v) ensures SmallIsBacked(ops, mem, B', r, v) {
      assert IsRoot(T, r);
      assert SmallIsBacked(ops, mem, B, r, v);
    }
    forall d | d in B' ensures BackingMapped(ops, mem, T', B', d) { assert BackingMapped(ops, mem, T, B, d); }
  }

  lemma OtherTreeInv(ops: PteOps, mem: Mem, T: Tables, root: nat)
    requires TreeInv(ops, mem, T)
    ensures TreeInv(ops, mem, OtherTables(T, root))
  {
    hide TableOk;
    forall p | p in OtherTables(T, root) ensures TableOk(ops, mem, OtherTables(T, root), p) {
      RootOf(ops, mem, T, p);
      OtherTableOk(ops, mem, T, root, p);
    }
  }

  lemma OtherTableOk(ops: PteOps, mem: Mem, T: Tables, root: nat, p: nat)
    requires p in T && T[p].root != root && TableOk(ops, mem, T, p) && IsRoot(T, T[p].root)
    ensures TableOk(ops, mem, OtherTables(T, root), p)
  {
    hide Child, KernPtr, Prefix, WithIx, Ix;
    var T' := OtherTables(T, root);
    forall i | 0 <= i < ENTRIES ensures SlotOk(ops, mem, T', p, i) { assert SlotOk(ops, mem, T, p, i); }
  }
}
