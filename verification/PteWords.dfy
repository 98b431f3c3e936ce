/**
 The words that map_page and page_set_cache_policy write, in numbers: where each processor expects its bits
 (section 4.5 of the Intel SDM volume 3A; chapter D8 of the Arm Architecture Reference Manual; section 4.5 of the RISC-V
 Privileged Specification v1.12).
 */
module PteWords {
  import opened Common
  import opened Bits
  import opened Pte
  import opened Addr
  import opened PageTable
  import opened Windows
  import PteField
  import PteX86
  import PteAarch64
  import PteRiscv

  // ---- Literal words ---------------------------------------------------------------------------

  /** The bits of w are those in s, all below 12. */
  ghost predicate HasBits(w: nat, s: set<nat>) {
    && w < 4096 && (forall i | i in s :: i < 12)
    && forall i | 0 <= i < 12 :: Bit(w, i) <==> i in s
  }

  lemma WordBit(w: nat, s: set<nat>, i: nat)
    requires HasBits(w, s)
    ensures Bit(w, i) <==> i in s
  {
    Pow2Values();
    if i >= 12 { HighBitsClear(w, 12, i); }
  }

  /** The first twelve digits of a literal, one by one. */
  lemma Digits(w: nat, s: set<nat>)
    requires w < 4096 && forall i | i in s :: i < 12
    requires (Bit(w, 0) <==> 0 in s) && (Bit(w, 1) <==> 1 in s) && (Bit(w, 2) <==> 2 in s) && (Bit(w, 3) <==> 3 in s)
    requires (Bit(w, 4) <==> 4 in s) && (Bit(w, 5) <==> 5 in s) && (Bit(w, 6) <==> 6 in s) && (Bit(w, 7) <==> 7 in s)
    requires (Bit(w, 8) <==> 8 in s) && (Bit(w, 9) <==> 9 in s)
    requires (Bit(w, 10) <==> 10 in s) && (Bit(w, 11) <==> 11 in s)
    ensures HasBits(w, s)
  {
    hide Bit;
    forall i | 0 <= i < 12 ensures Bit(w, i) <==> i in s {
      if i == 0 {} else if i == 1 {} else if i == 2 {} else if i == 3 {} else if i == 4 {} else if i == 5 {}
      else if i == 6 {} else if i == 7 {} else if i == 8 {} else if i == 9 {} else if i == 10 {} else {}
    }
  }

  lemma BitsOf07()
    ensures HasBits(0x07, {0, 1, 2})
  { Digits(0x07, {0, 1, 2}); }

  lemma BitsOf03()
    ensures HasBits(0x03, {0, 1})
  { Digits(0x03, {0, 1}); }

  lemma BitsOf87()
    ensures HasBits(0x87, {0, 1, 2, 7})
  { Digits(0x87, {0, 1, 2, 7}); }

  lemma BitsOf83()
    ensures HasBits(0x83, {0, 1, 7})
  { Digits(0x83, {0, 1, 7}); }

  lemma BitsOf443()
    ensures HasBits(0x443, {0, 1, 6, 10})
  { Digits(0x443, {0, 1, 6, 10}); }

  lemma BitsOf403()
    ensures HasBits(0x403, {0, 1, 10})
  { Digits(0x403, {0, 1, 10}); }

  lemma BitsOf441()
    ensures HasBits(0x441, {0, 6, 10})
  { Digits(0x441, {0, 6, 10}); }

  lemma BitsOf401()
    ensures HasBits(0x401, {0, 10})
  { Digits(0x401, {0, 10}); }

  lemma BitsOfDF()
    ensures HasBits(0xDF, {0, 1, 2, 3, 4, 6, 7})
  { Digits(0xDF, {0, 1, 2, 3, 4, 6, 7}); }

  lemma BitsOfCF()
    ensures HasBits(0xCF, {0, 1, 2, 3, 6, 7})
  { Digits(0xCF, {0, 1, 2, 3, 6, 7}); }

  lemma BitsOf01()
    ensures HasBits(0x01, {0})
  { Digits(0x01, {0}); }

  /** Two words with the same bits. */
  lemma SameWord(x: nat, base: nat, w: nat, s: set<nat>)
    requires HasBits(w, s) && x < WORD
    requires forall i | 0 <= i < WIDTH :: Bit(x, i) <==> Bit(base, i) || i in s
    ensures x == Or(base, w)
  {
    hide Bit, HasBits, OrK;
    assert Pow2(WIDTH) == WORD by { Pow2Values(); }
    OrBound(base, w, WIDTH);
    forall i | 0 <= i < WIDTH ensures Bit(x, i) <==> Bit(Or(base, w), i) {
      OrBit(base, w, i);
      WordBit(w, s, i);
    }
    SameBits(x, Or(base, w), WIDTH);
  }

  /** Every result of a bit operation is a 64-bit word. */
  lemma OrIsWord(x: nat, y: nat)
    ensures Or(x, y) < WORD
  { OrBound(x, y, WIDTH); Pow2Values(); }

  lemma AndIsWord(x: nat, y: nat)
    ensures And(x, y) < WORD
  { AndBound(x, y, WIDTH); Pow2Values(); }

  // ---- x86_64 ----------------------------------------------------------------------------------

  lemma X86ValidBit(pa: nat, i: nat)
    requires pa % 4096 == 0 && pa < 0x10_0000_0000_0000 && i < WIDTH
    ensures Bit(PteX86.SetPhys(PteX86.SetValid(0, true), pa), i) <==> Bit(pa, i) || i in {0, 1, 2}
  {
    hide Bit;
    PteX86.SetValidBit(0, true, i);
    ZeroBit(i);
    PteField.AddressInField(pa);
    if 12 <= i < 52 {
      PteField.SetFieldBit(PteX86.SetValid(0, true), PteField.PA_MASK(), pa, i);
      PteField.PaMaskBit(i);
    } else {
      PteField.SetPaBit(PteX86.SetValid(0, true), pa, i);
    }
  }

  /** The leaf entry: P and RW, U/S for user pages, PS above the last level, and the address. */
  lemma X86Leaf(level: nat, pa: nat, m: Mode)
    requires pa % 4096 == 0 && pa < 0x10_0000_0000_0000
    ensures LeafEntry(PteX86.Ops(), 0, level, pa, m)
         == Or(pa, if level == 0 then if m == User then 0x07 else 0x03 else if m == User then 0x87 else 0x83)
  {
    hide Bit, HasBits, PteX86.SetValid, PteX86.SetPhys, PteX86.SetPriv;
    BitsOf07(); BitsOf03(); BitsOf87(); BitsOf83();
    var v := PteX86.SetPhys(PteX86.SetValid(0, true), pa);
    var p := PteX86.SetPriv(v, m);
    var e := PteX86.SetLeaf(p, level, true);
    assert e < WORD by { X86LeafIsWord(v, level, m); }
    forall i | 0 <= i < WIDTH ensures Bit(e, i) <==>
      Bit(pa, i) || i in {0, 1} || (i == 2 && m == User) || (i == 7 && level > 0)
    {
      X86ValidBit(pa, i);
      PteX86.SetPrivBit(v, m, i);
      PteX86.SetLeafBit(p, level, true, i);
      PteField.AddressInField(pa);
    }
    SameWord(e, pa, if level == 0 then if m == User then 0x07 else 0x03 else if m == User then 0x87 else 0x83,
             if level == 0 then if m == User then {0, 1, 2} else {0, 1}
             else if m == User then {0, 1, 2, 7} else {0, 1, 7});
  }

  lemma X86LeafIsWord(v: nat, level: nat, m: Mode)
    ensures PteX86.SetLeaf(PteX86.SetPriv(v, m), level, true) < WORD
  {
    OrIsWord(v, BIT(PteX86.U));
    AndIsWord(v, Not(BIT(PteX86.U)));
    OrIsWord(PteX86.SetPriv(v, m), BIT(PteX86.PS));
  }

  /** The link to a table: P, RW and U/S, so that the leaf decides who may access. */
  lemma X86Link(level: nat, pa: nat)
    requires level > 0 && pa % 4096 == 0 && pa < 0x10_0000_0000_0000
    ensures TableEntry(PteX86.Ops(), 0, level, pa) == Or(pa, 0x07)
  {
    hide Bit, HasBits, PteX86.SetValid, PteX86.SetPhys;
    BitsOf07();
    var v := PteX86.SetPhys(PteX86.SetValid(0, true), pa);
    var e := PteX86.SetLeaf(v, level, false);
    AndIsWord(v, Or(Not(BIT(PteX86.PS)), BIT(PteX86.U)));
    forall i | 0 <= i < WIDTH ensures Bit(e, i) <==> Bit(pa, i) || i in {0, 1, 2} {
      X86ValidBit(pa, i);
      PteX86.SetLeafBit(v, level, false, i);
      PteField.AddressInField(pa);
    }
    SameWord(e, pa, 0x07, {0, 1, 2});
  }

  /** Cache policy: PWT is bit 3 and PCD bit 4; write-back has neither, write-combining PWT, uncached PCD. */
  lemma X86Policy(e: nat, pol: Policy, i: nat)
    requires i < 64
    ensures Bit(PteX86.SetCachePolicy(e, pol), i) <==>
      if i == 3 then pol == WriteComb else if i == 4 then pol == CacheDisable else Bit(e, i)
    ensures PteX86.AttrOf(WriteBack) == 0 && PteX86.AttrOf(WriteComb) == 0x08 && PteX86.AttrOf(CacheDisable) == 0x10
  {
    PteX86.SetCachePolicyBit(e, pol, i);
  }

  // ---- aarch64 ---------------------------------------------------------------------------------

  lemma Aarch64ValidBit(pa: nat, i: nat)
    requires pa % 4096 == 0 && pa < 0x10_0000_0000_0000 && i < WIDTH
    ensures Bit(PteAarch64.SetPhys(PteAarch64.SetValid(0, true), pa), i) <==> Bit(pa, i) || i in {0, 10}
  {
    hide Bit;
    PteAarch64.SetValidBit(0, true, i);
    ZeroBit(i);
    PteField.AddressInField(pa);
    if 12 <= i < 52 {
      PteField.SetFieldBit(PteAarch64.SetValid(0, true), PteField.PA_MASK(), pa, i);
      PteField.PaMaskBit(i);
    } else {
      PteField.SetPaBit(PteAarch64.SetValid(0, true), pa, i);
    }
  }

  lemma Aarch64LeafIsWord(v: nat, level: nat, b: bool)
    ensures PteAarch64.SetLeaf(v, level, b) < WORD
  {
    OrIsWord(v, BIT(PteAarch64.SIZE));
    AndIsWord(v, Not(BIT(PteAarch64.SIZE)));
  }

  /** The leaf entry: valid, the access flag, AP[1] for user pages, the page bit at the last level only, and the
      address. */
  lemma Aarch64Leaf(level: nat, pa: nat, m: Mode)
    requires pa % 4096 == 0 && pa < 0x10_0000_0000_0000
    ensures LeafEntry(PteAarch64.Ops(), 0, level, pa, m)
         == Or(pa, if level == 0 then if m == User then 0x443 else 0x403 else if m == User then 0x441 else 0x401)
  {
    hide Bit, HasBits, PteAarch64.SetValid, PteAarch64.SetPhys, PteAarch64.SetPriv;
    BitsOf443(); BitsOf403(); BitsOf441(); BitsOf401();
    var v := PteAarch64.SetPhys(PteAarch64.SetValid(0, true), pa);
    var p := PteAarch64.SetPriv(v, m);
    var e := PteAarch64.SetLeaf(p, level, true);
    Aarch64LeafIsWord(p, level, true);
    forall i | 0 <= i < WIDTH ensures Bit(e, i) <==>
      Bit(pa, i) || i in {0, 10} || (i == 6 && m == User) || (i == 1 && level == 0)
    {
      Aarch64ValidBit(pa, i);
      PteAarch64.SetPrivBit(v, m, i);
      PteAarch64.SetLeafBit(p, level, true, i);
      PteField.AddressInField(pa);
    }
    SameWord(e, pa, if level == 0 then if m == User then 0x443 else 0x403 else if m == User then 0x441 else 0x401,
             if level == 0 then if m == User then {0, 1, 6, 10} else {0, 1, 10}
             else if m == User then {0, 6, 10} else {0, 10});
  }

  /** The link to a table: valid, table, and the access flag. */
  lemma Aarch64Link(level: nat, pa: nat)
    requires level > 0 && pa % 4096 == 0 && pa < 0x10_0000_0000_0000
    ensures TableEntry(PteAarch64.Ops(), 0, level, pa) == Or(pa, 0x403)
  {
    hide Bit, HasBits, PteAarch64.SetValid, PteAarch64.SetPhys;
    BitsOf403();
    var v := PteAarch64.SetPhys(PteAarch64.SetValid(0, true), pa);
    var e := PteAarch64.SetLeaf(v, level, false);
    Aarch64LeafIsWord(v, level, false);
    forall i | 0 <= i < WIDTH ensures Bit(e, i) <==> Bit(pa, i) || i in {0, 1, 10} {
      Aarch64ValidBit(pa, i);
      PteAarch64.SetLeafBit(v, level, false, i);
      PteField.AddressInField(pa);
    }
    SameWord(e, pa, 0x403, {0, 1, 10});
  }

  /** Cache policy: the index in bits 2 to 4 is 0 for write-back and 1 for the others. */
  lemma Aarch64Policy(e: nat, pol: Policy, i: nat)
    requires i < 64
    ensures Bit(PteAarch64.SetCachePolicy(e, pol), i) <==>
      if i == 2 then pol != WriteBack else if i == 3 || i == 4 then false else Bit(e, i)
    ensures PteAarch64.AttrOf(WriteBack) == 0 && PteAarch64.AttrOf(WriteComb) == 4 == PteAarch64.AttrOf(CacheDisable)
  {
    PteAarch64.SetCachePolicyBit(e, pol, i);
  }

  // ---- riscv64 ---------------------------------------------------------------------------------

  lemma RiscvValidBit(pa: nat, i: nat)
    requires pa % 4096 == 0 && pa < 0x80_0000_0000_0000 && i < WIDTH
    ensures Bit(PteRiscv.SetPhys(PteRiscv.SetValid(0, true), pa), i) <==> Bit(Shr(pa, 2), i) || i == 0
    ensures i < 10 ==> !Bit(Shr(pa, 2), i)
  {
    hide Bit;
    PteRiscv.SetValidBit(0, true, i);
    ZeroBit(i);
    PteRiscv.AddressInField(pa);
    ShrBit(pa, 2, i);
    PteRiscv.SetPhysBit(PteRiscv.SetValid(0, true), pa, i);
    if i + 2 < WIDTH { assert Bit(pa, i + 2) ==> 12 <= i + 2 < 55; } else { HighAddressBits(pa, i + 2); }
  }

  lemma HighAddressBits(pa: nat, i: nat)
    requires pa < 0x80_0000_0000_0000 && i >= WIDTH
    ensures !Bit(pa, i)
  { Pow2Values(); HighBitsClear(pa, 55, i); }

  lemma RiscvLeafIsWord(v: nat, level: nat, b: bool)
    ensures PteRiscv.SetLeaf(v, level, b) < WORD
  {
    OrIsWord(v, PteRiscv.LEAF_BITS());
    AndIsWord(v, Not(PteRiscv.LEAF_BITS()));
  }

  /** The leaf entry: V, R, W, X, A, D, U for user pages, and the page number. */
  lemma RiscvLeaf(level: nat, pa: nat, m: Mode)
    requires pa % 4096 == 0 && pa < 0x80_0000_0000_0000
    ensures LeafEntry(PteRiscv.Ops(), 0, level, pa, m) == Or(Shr(pa, 2), if m == User then 0xDF else 0xCF)
  {
    hide Bit, HasBits, PteRiscv.SetValid, PteRiscv.SetPhys, PteRiscv.SetPriv, Shr;
    BitsOfDF(); BitsOfCF();
    var v := PteRiscv.SetPhys(PteRiscv.SetValid(0, true), pa);
    var p := PteRiscv.SetPriv(v, m);
    var e := PteRiscv.SetLeaf(p, level, true);
    RiscvLeafIsWord(p, level, true);
    forall i | 0 <= i < WIDTH
      ensures Bit(e, i) <==> Bit(Shr(pa, 2), i) || i in {0, 1, 2, 3, 6, 7} || (i == 4 && m == User)
    {
      RiscvValidBit(pa, i);
      PteRiscv.SetPrivBit(v, m, i);
      PteRiscv.SetLeafBit(p, level, true, i);
    }
    SameWord(e, Shr(pa, 2), if m == User then 0xDF else 0xCF,
             if m == User then {0, 1, 2, 3, 4, 6, 7} else {0, 1, 2, 3, 6, 7});
  }

  /** The link to a table: V and the page number, with R, W and X clear. */
  lemma RiscvLink(level: nat, pa: nat)
    requires pa % 4096 == 0 && pa < 0x80_0000_0000_0000
    ensures TableEntry(PteRiscv.Ops(), 0, level, pa) == Or(Shr(pa, 2), 0x01)
  {
    hide Bit, HasBits, PteRiscv.SetValid, PteRiscv.SetPhys, Shr;
    BitsOf01();
    var v := PteRiscv.SetPhys(PteRiscv.SetValid(0, true), pa);
    var e := PteRiscv.SetLeaf(v, level, false);
    RiscvLeafIsWord(v, level, false);
    forall i | 0 <= i < WIDTH ensures Bit(e, i) <==> Bit(Shr(pa, 2), i) || i == 0 {
      RiscvValidBit(pa, i);
      PteRiscv.SetLeafBit(v, level, false, i);
    }
    SameWord(e, Shr(pa, 2), 0x01, {0});
  }

  /** The page number of the entry: pa / 4096, from bit 10 on. */
  lemma RiscvPageNumber(pa: nat)
    ensures Shr(pa, 2) == pa / 4
  { ShrIsDiv(pa, 2); }

  // ---- The kernel's windows ----------------------------------------------------------------------

  /** After map_kernel: on x86_64 device registers are uncached (PCD), the framebuffer window is PWT, and the direct map
      neither; on aarch64 the direct map has attribute index 0 and the other windows index 1. */
  lemma WindowAttributes(ops: PteOps, mem0: Mem, mem: Mem, T: Tables, root: nat, pa: nat, base: nat)
    requires KernelMapped(ops, mem0, mem, T, root) && IsRoot(T, root) && pa < 0x80_0000_0000
    requires base == pa / 0x4000_0000 * 0x4000_0000
    ensures ops == PteX86.Ops() ==>
      && Lookup(ops, mem, root, Split(0xFFFF_FF00_0000_0000 + pa)) == Mapped(2, base, Kern, 0)
      && Lookup(ops, mem, root, Split(0xFFFF_DD00_0000_0000 + pa)) == Mapped(2, base, Kern, 0x10)
      && Lookup(ops, mem, root, Split(0xFFFF_CC00_0000_0000 + pa)) == Mapped(2, base, Kern, 0x08)
    ensures ops == PteAarch64.Ops() ==>
      && Lookup(ops, mem, root, Split(0xFFFF_FF00_0000_0000 + pa)) == Mapped(2, base, Kern, 0)
      && Lookup(ops, mem, root, Split(0xFFFF_DD00_0000_0000 + pa)) == Mapped(2, base, Kern, 4)
      && Lookup(ops, mem, root, Split(0xFFFF_CC00_0000_0000 + pa)) == Mapped(2, base, Kern, 4)
  {
    hide Lookup, Split, KernelMapped;
    DirectMapAddresses(ops, mem0, mem, T, root, pa);
    X86Policy(0, WriteBack, 0);
    Aarch64Policy(0, WriteBack, 0);
  }
}
