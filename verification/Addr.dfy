/** Addresses: the kernel windows and the page geometry (inc/defs.h, inc/vm.h, inc/page.h). */
module Addr {
  import opened Common
  import opened Bits

  const KERNEL_LINK_ADDRESS: nat := 0xFFFF_FF00_0000_0000
  const WINDOW: nat := 0x100_0000_0000                    // 2^40
  const VA_SPACE: nat := 0x1_0000_0000_0000               // 2^48
  const LARGE: nat := 0x20_0000
  const GIANT: nat := 0x4000_0000
  const SUPER: nat := 0x80_0000_0000
  const ENTRIES: nat := 512
  const TOP: nat := 3

  /** page_size_in_bytes. */
  function Size(level: nat): (s: nat)
    ensures s > 0
  {
    if level == 0 then SMALL else if level == 1 then LARGE else if level == 2 then GIANT else SUPER
  }

  /** The four table indices of a virtual address. */
  datatype Vpn = Vpn(i3: nat, i2: nat, i1: nat, i0: nat)

  predicate InTable(v: Vpn) { v.i3 < ENTRIES && v.i2 < ENTRIES && v.i1 < ENTRIES && v.i0 < ENTRIES }

  function Split(va: nat): (v: Vpn)
    ensures InTable(v)
  {
    Vpn(va / SUPER % ENTRIES, va / GIANT % ENTRIES, va / LARGE % ENTRIES, va / SMALL % ENTRIES)
  }

  /** The index used at a level. */
  function Ix(v: Vpn, level: nat): nat {
    if level == 0 then v.i0 else if level == 1 then v.i1 else if level == 2 then v.i2 else v.i3
  }

  /** v with the index at one level replaced. */
  function WithIx(v: Vpn, level: nat, i: nat): Vpn {
    if level == 0 then v.(i0 := i) else if level == 1 then v.(i1 := i) else if level == 2 then v.(i2 := i)
    else v.(i3 := i)
  }

  /** v with the indices below a level cleared: the base of the level-sized block holding v. */
  function Prefix(v: Vpn, level: nat): Vpn {
    Vpn(if level > 3 then 0 else v.i3, if level > 2 then 0 else v.i2, if level > 1 then 0 else v.i1,
        if level > 0 then 0 else v.i0)
  }

  /** va and va' lie in the same aligned page of the given level (bits 48 to 63 are ignored). */
  predicate SameBlock(va: nat, va': nat, level: nat) {
    va % VA_SPACE / Size(level) == va' % VA_SPACE / Size(level)
  }

  /** KERN_V2P and KERN_P2V. */
  function V2P(va: nat): nat { va % WINDOW }
  function P2V(pa: nat): nat { KERNEL_LINK_ADDRESS + pa % WINDOW }

  predicate IsUserVa(va: nat) { va < VA_SPACE }

  /** A page-aligned pointer into the kernel's main window. */
  predicate KernPtr(p: nat) { KERNEL_LINK_ADDRESS <= p < KERNEL_LINK_ADDRESS + WINDOW && p % SMALL == 0 }

  lemma KernPtrRoundTrip(p: nat)
    requires KernPtr(p)
    ensures P2V(V2P(p)) == p && V2P(p) < WINDOW && V2P(p) % SMALL == 0
  {}

  // ---- The shift-and-mask forms --------------------------------------------

  /** get_pt_index as written: (va >> (12 + 9 * level)) & MASK(9). */
  lemma IxIsShiftMask(va: nat, level: nat)
    requires level <= TOP
    ensures And(Shr(va, 12 + 9 * level), MASK(9)) == Ix(Split(va), level)
  {
    ShrIsDiv(va, 12 + 9 * level);
    SizeIsPow2(level, 9, ENTRIES);
    AndMaskIsMod(va / Pow2(12 + 9 * level), 9, WIDTH);
    assert Pow2(9) == ENTRIES;
  }

  lemma {:induction false} SizeIsPow2(level: nat, k: nat, p: nat)
    requires level <= TOP && k == 9 && p == 512
    ensures Size(level) == Pow2(12 + k * level)
  {
    assert Pow2(9) == 512;
    if level == 0 { assert Pow2(12) == SMALL; } else {
      SizeIsPow2(level - 1, k, p);
      assert 12 + k * level == 12 + k * (level - 1) + k;
      Pow2Add(12 + k * (level - 1), k);
    }
  }

  /** The bits of hi * 2^k + lo. */
  lemma {:induction false} JoinBit(hi: nat, lo: nat, k: nat, i: nat)
    requires lo < Pow2(k)
    ensures Bit(hi * Pow2(k) + lo, i) <==> if i < k then Bit(lo, i) else Bit(hi, i - k)
  {
    if k > 0 {
      var x := hi * Pow2(k) + lo;
      assert hi * Pow2(k) == 2 * (hi * Pow2(k - 1));
      assert x / 2 == hi * Pow2(k - 1) + lo / 2 && x % 2 == lo % 2;
      if i > 0 { JoinBit(hi, lo / 2, k - 1, i - 1); }
    }
  }

  lemma Pow2Window()
    ensures Pow2(40) == WINDOW
  { assert Pow2(10) == 1024; Pow2Add(10, 10); Pow2Add(20, 20); }

  lemma Pow2Top()
    ensures MASK(24) == 0xFF_FFFF
  { assert Pow2(12) == 4096; Pow2Add(12, 12); }

  lemma LinkBit(pa: nat, i: nat)
    requires i < WIDTH
    ensures Bit(P2V(pa), i) <==> i >= 40 || Bit(pa, i)
    ensures Bit(KERNEL_LINK_ADDRESS, i) <==> i >= 40
  {
    Pow2Window();
    var hi: nat := 0xFF_FFFF;
    assert KERNEL_LINK_ADDRESS == hi * WINDOW;
    JoinBit(hi, pa % WINDOW, 40, i);
    JoinBit(hi, 0, 40, i);
    ModBit(pa, 40, i);
    ZeroBit(i);
    if i >= 40 { Pow2Top(); MaskBit(24, i - 40); }
  }

  /** KERN_P2V as written: pa | KERNEL_LINK_ADDRESS. */
  lemma P2VIsOr(pa: nat)
    ensures Or(pa, KERNEL_LINK_ADDRESS) == P2V(pa)
  {
    OrBound(pa, KERNEL_LINK_ADDRESS, WIDTH);
    Pow2Values();
    forall i | 0 <= i < WIDTH ensures Bit(Or(pa, KERNEL_LINK_ADDRESS), i) <==> Bit(P2V(pa), i) {
      OrBit(pa, KERNEL_LINK_ADDRESS, i);
      LinkBit(pa, i);
    }
    SameBits(Or(pa, KERNEL_LINK_ADDRESS), P2V(pa), WIDTH);
  }

  /** KERN_V2P as written: va & ~KERNEL_LINK_ADDRESS. */
  lemma V2PIsAndNot(va: nat)
    ensures And(va, Not(KERNEL_LINK_ADDRESS)) == V2P(va)
  {
    AndBound(va, Not(KERNEL_LINK_ADDRESS), WIDTH);
    Pow2Values();
    Pow2Window();
    forall i | 0 <= i < WIDTH ensures Bit(And(va, Not(KERNEL_LINK_ADDRESS)), i) <==> Bit(V2P(va), i) {
      AndNotBit(va, KERNEL_LINK_ADDRESS, i);
      LinkBit(0, i);
      ModBit(va, 40, i);
    }
    SameBits(And(va, Not(KERNEL_LINK_ADDRESS)), V2P(va), WIDTH);
  }

  // ---- Blocks ---------------------------------------------------------------

  lemma QuotientChain(x: nat)
    ensures x / LARGE == x / SMALL / ENTRIES
    ensures x / GIANT == x / LARGE / ENTRIES
    ensures x / SUPER == x / GIANT / ENTRIES
  {}

  lemma Digits(q: nat)
    ensures var q1 := q / ENTRIES; var q2 := q1 / ENTRIES; var q3 := q2 / ENTRIES;
      q % 0x10_0000_0000
      == ((q3 % ENTRIES * ENTRIES + q2 % ENTRIES) * ENTRIES + q1 % ENTRIES) * ENTRIES + q % ENTRIES
  {}

  lemma LowQuotient(va: nat)
    ensures va % VA_SPACE / SMALL == va / SMALL % 0x10_0000_0000
  {}

  /** The number of the level-sized block holding v. */
  function Block(v: Vpn, level: nat): nat
    decreases TOP - level
  {
    if level >= TOP then v.i3 else Block(v, level + 1) * ENTRIES + Ix(v, level)
  }

  /** The block number is the quotient of the 48-bit address. */
  lemma BlockIsQuotient(va: nat, level: nat)
    requires level <= TOP
    ensures va % VA_SPACE / Size(level) == Block(Split(va), level)
  {
    var v := Split(va);
    QuotientChain(va); LowQuotient(va); Digits(va / SMALL); QuotientChain(va % VA_SPACE);
    assert Block(v, 3) == v.i3;
    assert Block(v, 2) == v.i3 * ENTRIES + v.i2;
    assert Block(v, 1) == (v.i3 * ENTRIES + v.i2) * ENTRIES + v.i1;
    assert Block(v, 0) == ((v.i3 * ENTRIES + v.i2) * ENTRIES + v.i1) * ENTRIES + v.i0;
  }

  lemma {:induction false} SameBlockNumber(v: Vpn, v': Vpn, level: nat)
    requires InTable(v) && InTable(v') && level <= TOP
    ensures Block(v, level) == Block(v', level) <==> Prefix(v, level) == Prefix(v', level)
    decreases TOP - level
  {
    if level < TOP { SameBlockNumber(v, v', level + 1); }
  }

  /** Two addresses share a page of some level exactly when their indices agree from that level up. */
  lemma SameBlockIsSamePrefix(va: nat, va': nat, level: nat)
    requires level <= TOP
    ensures SameBlock(va, va', level) <==> Prefix(Split(va), level) == Prefix(Split(va'), level)
  {
    BlockIsQuotient(va, level); BlockIsQuotient(va', level);
    var v, v' := Split(va), Split(va');
    SameBlockNumber(v, v', level);
  }

  /** The first address after the level-sized page holding va. */
  function PageEnd(va: nat, level: nat): nat { va + (Size(level) - va % Size(level)) }

  /** Every address from va to the end of its page is in the same page; a page lies wholly below or
      above 2^48, and within 64 bits. */
  lemma RestOfPage(va: nat, b: nat, level: nat)
    requires level <= TOP && va <= b < PageEnd(va, level)
    ensures SameBlock(va, b, level)
    ensures va < VA_SPACE ==> b < VA_SPACE
    ensures va < WORD ==> b < WORD
  {
    if level == 0 { RestOfBlock(va, b, SMALL, 0x10_0000_0000); }
    else if level == 1 { RestOfBlock(va, b, LARGE, 0x800_0000); }
    else if level == 2 { RestOfBlock(va, b, GIANT, 0x4_0000); }
    else { RestOfBlock(va, b, SUPER, 512); }
  }

  lemma RestOfBlock(va: nat, b: nat, size: nat, blocks: nat)
    requires size > 0 && blocks > 0 && size * blocks == VA_SPACE && va <= b < va + (size - va % size)
    ensures va % VA_SPACE / size == b % VA_SPACE / size
    ensures b / size == va / size
  {
    var q := va / size;
    assert va == size * q + va % size;
    DivUnique(b, size, q, b - size * q);
    ModThenDiv(va, size, blocks);
    ModThenDiv(b, size, blocks);
  }

  lemma ModThenDiv(x: nat, s: nat, k: nat)
    requires s > 0 && k > 0
    ensures s * k > 0 && x % (s * k) / s == x / s % k
  {
    var q, r := x / s, x % s;
    var h, m := q / k, q % k;
    MulGap(s, k, 0);
    MulGap(s, k, m);
    SplitQuotient(x, s, k, q, r, h, m);
    MulNonneg(s, m);
    DivUnique(x, s * k, h, s * m + r);
    DivUnique(s * m + r, s, m, r);
  }

  lemma MulNonneg(a: nat, b: nat)
    ensures a * b >= 0
  {}

  lemma SplitQuotient(x: nat, s: nat, k: nat, q: nat, r: nat, h: nat, m: nat)
    requires x == s * q + r && q == k * h + m
    ensures x == (s * k) * h + (s * m + r)
  {
    calc {
      s * q;
      s * (k * h + m);
      s * (k * h) + s * m;
      (s * k) * h + s * m;
    }
  }

  lemma OrOffsetBit(hi: nat, offset: nat, i: nat)
    requires offset < SMALL && i < WIDTH
    ensures Bit(Or(hi * SMALL, offset), i) <==> Bit(hi * SMALL + offset, i)
  {
    hide Bit, Or, Pow2;
    assert Pow2(12) == SMALL by { Pow2Values(); }
    OrBit(hi * SMALL, offset, i);
    JoinBit(hi, offset, 12, i);
    JoinBit(hi, 0, 12, i);
    ZeroBit(i);
    if i >= 12 { HighBitsClear(offset, 12, i); }
  }

  lemma AlignedFits(hi: nat, offset: nat)
    requires hi * SMALL < WORD && offset < SMALL
    ensures hi * SMALL + offset < WORD
  { assert hi < WORD / SMALL; }

  /** Or-ing an offset into an aligned base adds it. */
  lemma OrOffset(base: nat, offset: nat)
    requires base % SMALL == 0 && base < WORD && offset < SMALL
    ensures Or(base, offset) == base + offset
  {
    hide Bit, OrK, Pow2;
    var hi := base / SMALL;
    assert base == hi * SMALL;
    AlignedFits(hi, offset);
    assert Pow2(WIDTH) == WORD by { Pow2Values(); }
    OrBound(base, offset, WIDTH);
    forall i | 0 <= i < WIDTH ensures Bit(Or(base, offset), i) <==> Bit(base + offset, i) {
      OrOffsetBit(hi, offset, i);
    }
    SameBits(Or(base, offset), base + offset, WIDTH);
  }
}
