/**
 Page table entries (src/arch/<isa>/pte.c). The kernel is linked against one of three
 implementations of the same eight operations; `PteOps` is that link-time choice, and
 `Lawful` is the single abstract entry they all refine.
 */
module Pte {
  import opened Common

  datatype Policy = WriteBack | WriteComb | CacheDisable

  /** The pte_* operations of one instruction set, and the hardware's reading of an entry:
      its privilege and its memory attribute. `maxPhys` bounds the addresses an entry can hold. */
  datatype PteOps = PteOps(
    isValid: nat -> bool,
    setValid: (nat, bool) -> nat,
    isLeaf: (nat, nat) -> bool,
    setLeaf: (nat, nat, bool) -> nat,
    getPhys: nat -> nat,
    setPhys: (nat, nat) -> nat,
    setPriv: (nat, Mode) -> nat,
    setCachePolicy: (nat, Policy) -> nat,
    priv: nat -> Mode,
    attr: nat -> nat,
    attrOf: Policy -> nat,
    maxPhys: nat)

  const MIN_PHYS_SPACE: nat := 0x10_0000_0000_0000   // 2^52
  const PHYS_SPACE: nat := 0x80_0000_0000_0000       // 2^55

  /** What an entry says, whatever its encoding. */
  datatype Entry = Entry(valid: bool, leaf: bool, phys: nat, priv: Mode, attr: nat)

  ghost function View(ops: PteOps, e: nat, level: nat): Entry {
    Entry(ops.isValid(e), ops.isLeaf(e, level), ops.getPhys(e), ops.priv(e), ops.attr(e))
  }

  // Each setter changes its own field of the abstract entry. (Making an entry valid may also
  // grant user access: x86_64 does.)

  ghost predicate ValidLaw(ops: PteOps, e: nat, l: nat, b: bool) {
    var v, v' := View(ops, e, l), View(ops, ops.setValid(e, b), l);
    v'.(priv := v.priv) == v.(valid := b) && (b || v'.priv == v.priv)
  }

  ghost predicate PhysLaw(ops: PteOps, e: nat, l: nat, pa: nat) {
    pa % SMALL == 0 && pa < ops.maxPhys ==> View(ops, ops.setPhys(e, pa), l) == View(ops, e, l).(phys := pa)
  }

  ghost predicate PrivLaw(ops: PteOps, e: nat, l: nat, m: Mode) {
    View(ops, ops.setPriv(e, m), l) == View(ops, e, l).(priv := m)
  }

  ghost predicate LeafLaw(ops: PteOps, e: nat, l: nat, b: bool) {
    l > 0 || b ==> View(ops, ops.setLeaf(e, l, b), l) == View(ops, e, l).(leaf := b)
  }

  ghost predicate CacheLaw(ops: PteOps, e: nat, l: nat, pol: Policy) {
    View(ops, ops.setCachePolicy(e, pol), l) == View(ops, e, l).(attr := ops.attrOf(pol))
  }

  ghost predicate PhysRange(ops: PteOps, e: nat) {
    ops.getPhys(e) % SMALL == 0 && ops.getPhys(e) < ops.maxPhys
  }

  ghost predicate Lawful(ops: PteOps) {
    && !ops.isValid(0)
    && MIN_PHYS_SPACE <= ops.maxPhys <= PHYS_SPACE
    && (forall e: nat :: PhysRange(ops, e))
    && (forall e: nat, l: nat, b: bool :: ValidLaw(ops, e, l, b))
    && (forall e: nat, l: nat, pa: nat :: PhysLaw(ops, e, l, pa))
    && (forall e: nat, l: nat, m: Mode :: PrivLaw(ops, e, l, m))
    && (forall e: nat, l: nat, b: bool :: LeafLaw(ops, e, l, b))
    && (forall e: nat, l: nat, pol: Policy :: CacheLaw(ops, e, l, pol))
  }

  /** The entry map_page writes for an intermediate table (src/kernel/vm.c:68-70). */
  function TableEntry(ops: PteOps, e: nat, level: nat, pa: nat): nat {
    ops.setLeaf(ops.setPhys(ops.setValid(e, true), pa), level, false)
  }

  /** The entry map_page writes for the final page (src/kernel/vm.c:82-85). */
  function LeafEntry(ops: PteOps, e: nat, level: nat, pa: nat, m: Mode): nat {
    ops.setLeaf(ops.setPriv(ops.setPhys(ops.setValid(e, true), pa), m), level, true)
  }

  lemma TableEntryView(ops: PteOps, e: nat, level: nat, pa: nat)
    requires Lawful(ops) && level > 0 && pa % SMALL == 0 && pa < ops.maxPhys
    ensures View(ops, TableEntry(ops, e, level, pa), level).(priv := Kern)
         == Entry(true, false, pa, Kern, ops.attr(e))
  {
    var v := ops.setValid(e, true);
    assert ValidLaw(ops, e, level, true);
    assert PhysLaw(ops, v, level, pa);
    assert LeafLaw(ops, ops.setPhys(v, pa), level, false);
  }

  lemma LeafEntryView(ops: PteOps, e: nat, level: nat, pa: nat, m: Mode)
    requires Lawful(ops) && pa % SMALL == 0 && pa < ops.maxPhys
    ensures View(ops, LeafEntry(ops, e, level, pa, m), level) == Entry(true, true, pa, m, ops.attr(e))
  {
    var v := ops.setValid(e, true);
    var w := ops.setPhys(v, pa);
    assert ValidLaw(ops, e, level, true);
    assert PhysLaw(ops, v, level, pa);
    assert PrivLaw(ops, w, level, m);
    assert LeafLaw(ops, ops.setPriv(w, m), level, true);
  }

  // ---- Everything the kernel writes ------------------------------------------------------------

  /** One call of a setter. */
  datatype Setter =
    | ToValid(b: bool) | ToLeaf(level: nat, b: bool) | ToPhys(pa: nat) | ToPriv(m: Mode) | ToPolicy(pol: Policy)

  predicate GoodSetter(ops: PteOps, w: Setter) { w.ToPhys? ==> w.pa % SMALL == 0 && w.pa < ops.maxPhys }

  function Apply(ops: PteOps, e: nat, w: Setter): nat {
    match w
    case ToValid(b) => ops.setValid(e, b)
    case ToLeaf(level, b) => ops.setLeaf(e, level, b)
    case ToPhys(pa) => ops.setPhys(e, pa)
    case ToPriv(m) => ops.setPriv(e, m)
    case ToPolicy(pol) => ops.setCachePolicy(e, pol)
  }

  /** The entry that a sequence of calls makes of the empty entry. */
  function ApplyAll(ops: PteOps, ws: seq<Setter>): nat {
    if |ws| == 0 then 0 else Apply(ops, ApplyAll(ops, ws[..|ws| - 1]), ws[|ws| - 1])
  }

  ghost predicate GoodSetters(ops: PteOps, ws: seq<Setter>) { forall i | 0 <= i < |ws| :: GoodSetter(ops, ws[i]) }

  /** e was made from the empty entry by the setters. */
  ghost predicate Written(ops: PteOps, e: nat) { exists ws :: GoodSetters(ops, ws) && ApplyAll(ops, ws) == e }

  lemma EmptyWritten(ops: PteOps)
    ensures Written(ops, 0)
  { assert GoodSetters(ops, []) && ApplyAll(ops, []) == 0; }

  lemma SetterWritten(ops: PteOps, e: nat, w: Setter)
    requires Written(ops, e) && GoodSetter(ops, w)
    ensures Written(ops, Apply(ops, e, w))
  {
    var ws :| GoodSetters(ops, ws) && ApplyAll(ops, ws) == e;
    var ws' := ws + [w];
    assert ws'[..|ws'| - 1] == ws;
    assert GoodSetters(ops, ws') && ApplyAll(ops, ws') == Apply(ops, e, w);
  }

  lemma TableEntryWritten(ops: PteOps, e: nat, level: nat, pa: nat)
    requires Written(ops, e) && pa % SMALL == 0 && pa < ops.maxPhys
    ensures Written(ops, TableEntry(ops, e, level, pa))
  {
    hide Written;
    SetterWritten(ops, e, ToValid(true));
    SetterWritten(ops, ops.setValid(e, true), ToPhys(pa));
    SetterWritten(ops, ops.setPhys(ops.setValid(e, true), pa), ToLeaf(level, false));
  }

  lemma LeafEntryWritten(ops: PteOps, e: nat, level: nat, pa: nat, m: Mode)
    requires Written(ops, e) && pa % SMALL == 0 && pa < ops.maxPhys
    ensures Written(ops, LeafEntry(ops, e, level, pa, m))
  {
    hide Written;
    SetterWritten(ops, e, ToValid(true));
    SetterWritten(ops, ops.setValid(e, true), ToPhys(pa));
    SetterWritten(ops, ops.setPhys(ops.setValid(e, true), pa), ToPriv(m));
    SetterWritten(ops, ops.setPriv(ops.setPhys(ops.setValid(e, true), pa), m), ToLeaf(level, true));
  }
}
