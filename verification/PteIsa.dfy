/**
 The bit field holding a physical address, shared by the three encodings.
 */
module PteField {
  import opened Common
  import opened Bits


  function GetField(e: nat, mask: nat): nat { And(e, mask) }

  function SetField(e: nat, mask: nat, v: nat): nat { Or(And(e, Not(mask)), v) }

  lemma SetFieldBit(e: nat, mask: nat, v: nat, i: nat)
    requires i < WIDTH
    ensures Bit(SetField(e, mask, v), i) <==> (Bit(e, i) && !Bit(mask, i)) || Bit(v, i)
  {
    OrBit(And(e, Not(mask)), v, i);
    AndNotBit(e, mask, i);
  }

  /** A field reads the same from two words that agree on the field's bits. */
  lemma SameField(e: nat, e': nat, mask: nat)
    requires forall i | 0 <= i < WIDTH && Bit(mask, i) :: Bit(e, i) <==> Bit(e', i)
    ensures GetField(e, mask) == GetField(e', mask)
  {
    forall i | 0 <= i < WIDTH ensures Bit(GetField(e, mask), i) <==> Bit(GetField(e', mask), i) {
      AndBit(e, mask, i);
      AndBit(e', mask, i);
    }
    AndBound(e, mask, WIDTH);
    AndBound(e', mask, WIDTH);
    SameBits(GetField(e, mask), GetField(e', mask), WIDTH);
  }

  /** A field reads v when v's bits are the field's bits. */
  lemma FieldIs(e: nat, mask: nat, v: nat)
    requires v < WORD
    requires forall i | 0 <= i < WIDTH :: Bit(v, i) <==> Bit(mask, i) && Bit(e, i)
    ensures GetField(e, mask) == v
  {
    Pow2Values();
    forall i | 0 <= i < WIDTH ensures Bit(GetField(e, mask), i) <==> Bit(v, i) { AndBit(e, mask, i); }
    AndBound(e, mask, WIDTH);
    SameBits(GetField(e, mask), v, WIDTH);
  }

  /** An aligned address below bound = 2^n has its bits in [12, n). */
  lemma AddressBits(pa: nat, n: nat, bound: nat)
    requires Pow2(n) == bound && pa < bound && pa % 4096 == 0
    ensures forall i | 0 <= i < WIDTH :: Bit(pa, i) ==> 12 <= i < n
  {
    forall i | 0 <= i < WIDTH && Bit(pa, i) ensures 12 <= i < n {
      if i < 12 { Pow2Values(); AlignedLowBits(pa, 12, i); }
      if i >= n { HighBitsClear(pa, n, i); }
    }
  }

  /** A word whose bits lie in [12, n) is an aligned address below bound = 2^n. */
  lemma AddressOfBits(x: nat, n: nat, bound: nat)
    requires Pow2(n) == bound && 12 <= n <= WIDTH && x < Pow2(WIDTH)
    requires forall i | 0 <= i < WIDTH && Bit(x, i) :: 12 <= i < n
    ensures x % 4096 == 0 && x < bound
  {
    BoundedByBits(x, n, WIDTH);
    forall i | 0 <= i < 12 ensures !Bit(x % Pow2(12), i) { ModBit(x, 12, i); }
    ZeroByBits(x % Pow2(12), 12);
    Pow2Values();
  }

  // ---- The 40-bit address field of x86_64 and aarch64 ----------------------

  const PA_SPACE: nat := 0x10_0000_0000_0000   // 2^52

  function PA_MASK(): nat { FieldMask(40, 12) }

  function GetPa(e: nat): nat { GetField(e, PA_MASK()) }

  function SetPa(e: nat, pa: nat): nat { SetField(e, PA_MASK(), pa) }

  lemma PaMaskBit(i: nat)
    requires i < WIDTH
    ensures Bit(PA_MASK(), i) <==> 12 <= i < 52
  {
    FieldMaskBit(40, 12, i);
  }

  lemma SamePa(e: nat, e': nat)
    requires forall i | 12 <= i < 52 :: Bit(e, i) <==> Bit(e', i)
    ensures GetPa(e) == GetPa(e')
  {
    forall i | 0 <= i < WIDTH && Bit(PA_MASK(), i) ensures Bit(e, i) <==> Bit(e', i) { PaMaskBit(i); }
    SameField(e, e', PA_MASK());
  }

  /** Reading the field gives an aligned address below 2^52. */
  lemma PaRange(e: nat)
    ensures GetPa(e) % 4096 == 0 && GetPa(e) < PA_SPACE
  {
    AndBound(e, PA_MASK(), WIDTH);
    forall i | 0 <= i < WIDTH && Bit(GetPa(e), i) ensures 12 <= i < 52 {
      AndBit(e, PA_MASK(), i);
      PaMaskBit(i);
    }
    Pow2Values();
    AddressOfBits(GetPa(e), 52, PA_SPACE);
  }

  lemma AddressInField(pa: nat)
    requires pa % 4096 == 0 && pa < PA_SPACE
    ensures forall i | 0 <= i < WIDTH :: Bit(pa, i) ==> 12 <= i < 52
  {
    Pow2Values();
    AddressBits(pa, 52, PA_SPACE);
  }

  /** Reading back a stored address gives that address exactly when it is below 2^52. */
  lemma PaRoundTrip(e: nat, pa: nat)
    requires pa % 4096 == 0 && pa < WORD
    ensures GetPa(SetPa(e, pa)) == pa <==> pa < PA_SPACE
  {
    PaRange(SetPa(e, pa));
    if pa < PA_SPACE {
      AddressInField(pa);
      forall i | 0 <= i < WIDTH ensures Bit(pa, i) <==> Bit(PA_MASK(), i) && Bit(SetPa(e, pa), i) {
        SetFieldBit(e, PA_MASK(), pa, i);
        PaMaskBit(i);
      }
      FieldIs(SetPa(e, pa), PA_MASK(), pa);
    }
  }

  lemma SetPaBit(e: nat, pa: nat, i: nat)
    requires pa % 4096 == 0 && pa < PA_SPACE && i < WIDTH && !(12 <= i < 52)
    ensures Bit(SetPa(e, pa), i) <==> Bit(e, i)
  {
    AddressInField(pa);
    SetFieldBit(e, PA_MASK(), pa, i);
    PaMaskBit(i);
  }
}

/** src/arch/x86_64/pte.c */
module PteX86 {
  import opened Common
  import opened Bits
  import opened PteField
  import opened Pte

  const P: nat := 0
  const RW: nat := 1
  const U: nat := 2
  const PWT: nat := 3
  const PCD: nat := 4
  const PS: nat := 7
  function ATTR_MASK(): nat { FieldMask(2, PWT) }

  predicate IsValid(e: nat) { And(e, BIT(P)) != 0 }

  function SetValid(e: nat, valid: bool): nat {
    if valid then Or(e, Or(Or(BIT(P), BIT(RW)), BIT(U))) else And(e, Not(BIT(P)))
  }

  predicate IsLeaf(e: nat, level: nat) { level == 0 || And(e, BIT(PS)) != 0 }

  function SetLeaf(e: nat, level: nat, leaf: bool): nat {
    if level == 0 then e
    else if leaf then Or(e, BIT(PS))
    else And(e, Or(Not(BIT(PS)), BIT(U)))
  }

  function GetPhys(e: nat): nat { GetPa(e) }

  function SetPhys(e: nat, pa: nat): nat { SetPa(e, pa) }

  function SetPriv(e: nat, m: Mode): nat {
    match m
    case User => Or(e, BIT(U))
    case Kern => And(e, Not(BIT(U)))
  }

  function SetCachePolicy(e: nat, pol: Policy): nat {
    var cleared := And(And(e, Not(BIT(PCD))), Not(BIT(PWT)));
    match pol
    case WriteBack => cleared
    case WriteComb => Or(cleared, BIT(PWT))
    case CacheDisable => Or(cleared, BIT(PCD))
  }

  function Priv(e: nat): Mode { if And(e, BIT(U)) != 0 then User else Kern }
  function Attr(e: nat): nat { GetField(e, ATTR_MASK()) }
  function AttrOf(pol: Policy): nat {
    match pol
    case WriteBack => 0
    case WriteComb => BIT(PWT)
    case CacheDisable => BIT(PCD)
  }

  function Ops(): PteOps {
    PteOps(IsValid, SetValid, IsLeaf, SetLeaf, GetPhys, SetPhys, SetPriv, SetCachePolicy, Priv, Attr, AttrOf,
           MIN_PHYS_SPACE)
  }

  // ---- What each setter does to each bit -----------------------------------

  lemma SetValidBit(e: nat, b: bool, i: nat)
    requires i < WIDTH
    ensures Bit(SetValid(e, b), i) <==> if b then Bit(e, i) || i in {P, RW, U} else Bit(e, i) && i != P
  {
    Pow2Bit(P, i); Pow2Bit(RW, i); Pow2Bit(U, i);
    OrBit(BIT(P), BIT(RW), i);
    OrBit(Or(BIT(P), BIT(RW)), BIT(U), i);
    OrBit(e, Or(Or(BIT(P), BIT(RW)), BIT(U)), i);
    AndNotBit(e, BIT(P), i);
  }

  lemma SetLeafBit(e: nat, level: nat, b: bool, i: nat)
    requires i < WIDTH
    ensures Bit(SetLeaf(e, level, b), i) <==> if level > 0 && i == PS then b else Bit(e, i)
  {
    Pow2Bit(PS, i); Pow2Bit(U, i);
    OrBit(e, BIT(PS), i);
    NotKBit(BIT(PS), WIDTH, i);
    OrBit(Not(BIT(PS)), BIT(U), i);
    AndBit(e, Or(Not(BIT(PS)), BIT(U)), i);
  }

  lemma SetPrivBit(e: nat, m: Mode, i: nat)
    requires i < WIDTH
    ensures Bit(SetPriv(e, m), i) <==> if i == U then m == User else Bit(e, i)
  {
    Pow2Bit(U, i);
    OrBit(e, BIT(U), i);
    AndNotBit(e, BIT(U), i);
  }

  lemma SetCachePolicyBit(e: nat, pol: Policy, i: nat)
    requires i < WIDTH
    ensures Bit(SetCachePolicy(e, pol), i) <==>
            if i == PWT then pol == WriteComb else if i == PCD then pol == CacheDisable else Bit(e, i)
  {
    var c := And(e, Not(BIT(PCD)));
    var d := And(c, Not(BIT(PWT)));
    Pow2Bit(PWT, i); Pow2Bit(PCD, i);
    AndNotBit(e, BIT(PCD), i);
    AndNotBit(c, BIT(PWT), i);
    OrBit(d, BIT(PWT), i);
    OrBit(d, BIT(PCD), i);
  }

  lemma AttrMaskBit(i: nat)
    requires i < WIDTH
    ensures Bit(ATTR_MASK(), i) <==> i == PWT || i == PCD
  {
    FieldMaskBit(2, PWT, i);
  }

  // ---- Refinement ----------------------------------------------------------

  /** The fields of an entry, read off its bits. */
  lemma ViewBits(e: nat, l: nat)
    ensures IsValid(e) <==> Bit(e, P)
    ensures IsLeaf(e, l) <==> l == 0 || Bit(e, PS)
    ensures Priv(e) == if Bit(e, U) then User else Kern
  { TestBit(e, P); TestBit(e, PS); TestBit(e, U); }

  lemma SameAttr(e: nat, e': nat)
    requires Bit(e, PWT) <==> Bit(e', PWT)
    requires Bit(e, PCD) <==> Bit(e', PCD)
    ensures Attr(e) == Attr(e')
  {
    forall i | 0 <= i < WIDTH && Bit(ATTR_MASK(), i) ensures Bit(e, i) <==> Bit(e', i) {
      AttrMaskBit(i);
    }
    SameField(e, e', ATTR_MASK());
  }

  lemma AttrAfterPolicy(e: nat, pol: Policy)
    ensures Attr(SetCachePolicy(e, pol)) == AttrOf(pol)
  {
    var e' := SetCachePolicy(e, pol);
    forall i | 0 <= i < WIDTH ensures Bit(AttrOf(pol), i) <==> Bit(ATTR_MASK(), i) && Bit(e', i) {
      AttrMaskBit(i);
      SetCachePolicyBit(e, pol, i);
      ZeroBit(i); Pow2Bit(PWT, i); Pow2Bit(PCD, i);
    }
    FieldIs(e', ATTR_MASK(), AttrOf(pol));
  }

  /** The abstract entry a word stands for. */
  function Read(e: nat, l: nat): Entry { Entry(IsValid(e), IsLeaf(e, l), GetPhys(e), Priv(e), Attr(e)) }

  lemma SetValidView(e: nat, l: nat, b: bool)
    ensures Read(SetValid(e, b), l) == Read(e, l).(valid := b, priv := if b then User else Priv(e))
  {
    var e' := SetValid(e, b);
    forall i | 0 <= i < WIDTH
      ensures Bit(e', i) <==> if b then Bit(e, i) || i in {P, RW, U} else Bit(e, i) && i != P
    { SetValidBit(e, b, i); }
    ViewBits(e, l); ViewBits(e', l); SameAttr(e, e'); SamePa(e, e');
  }

  lemma SetPhysView(e: nat, l: nat, pa: nat)
    requires pa % 4096 == 0 && pa < MIN_PHYS_SPACE
    ensures Read(SetPhys(e, pa), l) == Read(e, l).(phys := pa)
  {
    var e' := SetPhys(e, pa);
    forall i | i in {P, U, PS, PWT, PCD} ensures Bit(e', i) <==> Bit(e, i) { SetPaBit(e, pa, i); }
    ViewBits(e, l); ViewBits(e', l); SameAttr(e, e');
    assert GetPhys(e') == pa by { PaRoundTrip(e, pa); }
  }

  lemma SetPrivView(e: nat, l: nat, m: Mode)
    ensures Read(SetPriv(e, m), l) == Read(e, l).(priv := m)
  {
    var e' := SetPriv(e, m);
    forall i | 0 <= i < WIDTH ensures Bit(e', i) <==> if i == U then m == User else Bit(e, i) { SetPrivBit(e, m, i); }
    ViewBits(e, l); ViewBits(e', l); SameAttr(e, e'); SamePa(e, e');
  }

  lemma SetLeafView(e: nat, l: nat, b: bool)
    requires l > 0 || b
    ensures Read(SetLeaf(e, l, b), l) == Read(e, l).(leaf := b)
  {
    var e' := SetLeaf(e, l, b);
    forall i | 0 <= i < WIDTH ensures Bit(e', i) <==> if l > 0 && i == PS then b else Bit(e, i) {
      SetLeafBit(e, l, b, i);
    }
    ViewBits(e, l); ViewBits(e', l); SameAttr(e, e'); SamePa(e, e');
  }

  lemma SetCachePolicyView(e: nat, l: nat, pol: Policy)
    ensures Read(SetCachePolicy(e, pol), l) == Read(e, l).(attr := AttrOf(pol))
  {
    var e' := SetCachePolicy(e, pol);
    forall i | 0 <= i < WIDTH && i != PWT && i != PCD ensures Bit(e', i) <==> Bit(e, i) {
      SetCachePolicyBit(e, pol, i);
    }
    ViewBits(e, l); ViewBits(e', l); SamePa(e, e'); AttrAfterPolicy(e, pol);
  }

  /** The x86_64 encoding refines the abstract entry. */
  lemma OpsLawful()
    ensures Lawful(Ops())
  {
    TestBit(0, P); ZeroBit(P);
    forall e: nat ensures PhysRange(Ops(), e) { PaRange(e); }
    forall e: nat, l: nat, b: bool ensures ValidLaw(Ops(), e, l, b) { SetValidView(e, l, b); }
    forall e: nat, l: nat, pa: nat ensures PhysLaw(Ops(), e, l, pa) {
      if pa % 4096 == 0 && pa < MIN_PHYS_SPACE { SetPhysView(e, l, pa); }
    }
    forall e: nat, l: nat, m: Mode ensures PrivLaw(Ops(), e, l, m) { SetPrivView(e, l, m); }
    forall e: nat, l: nat, b: bool ensures LeafLaw(Ops(), e, l, b) { if l > 0 || b { SetLeafView(e, l, b); } }
    forall e: nat, l: nat, pol: Policy ensures CacheLaw(Ops(), e, l, pol) { SetCachePolicyView(e, l, pol); }
  }
}

/** src/arch/aarch64/pte.c */
module PteAarch64 {
  import opened Common
  import opened Bits
  import opened PteField
  import opened Pte

  const P: nat := 0
  const SIZE: nat := 1
  const U: nat := 6
  const AF: nat := 10

  function ATTR_MASK(): nat { FieldMask(3, 2) }

  predicate IsValid(e: nat) { And(e, BIT(P)) != 0 }

  function SetValid(e: nat, valid: bool): nat {
    if valid then Or(e, Or(BIT(P), BIT(AF))) else And(e, Not(BIT(P)))
  }

  predicate IsLeaf(e: nat, level: nat) { level == 0 || And(e, BIT(SIZE)) == 0 }

  function SetLeaf(e: nat, level: nat, leaf: bool): nat {
    if level == 0 || !leaf then Or(e, BIT(SIZE)) else And(e, Not(BIT(SIZE)))
  }

  function GetPhys(e: nat): nat { GetPa(e) }

  function SetPhys(e: nat, pa: nat): nat { SetPa(e, pa) }

  function SetPriv(e: nat, m: Mode): nat {
    match m
    case User => Or(e, BIT(U))
    case Kern => And(e, Not(BIT(U)))
  }

  /** MAIR index 0 for write-back memory, index 1 for device and write-combining memory. */
  function AttrOf(pol: Policy): nat { if pol == WriteBack then 0 else BIT(2) }

  function SetCachePolicy(e: nat, pol: Policy): nat { Or(And(e, Not(ATTR_MASK())), AttrOf(pol)) }

  function Priv(e: nat): Mode { if And(e, BIT(U)) != 0 then User else Kern }
  function Attr(e: nat): nat { GetField(e, ATTR_MASK()) }

  function Ops(): PteOps {
    PteOps(IsValid, SetValid, IsLeaf, SetLeaf, GetPhys, SetPhys, SetPriv, SetCachePolicy, Priv, Attr, AttrOf,
           MIN_PHYS_SPACE)
  }

  // ---- What each setter does to each bit -----------------------------------

  lemma SetValidBit(e: nat, b: bool, i: nat)
    requires i < WIDTH
    ensures Bit(SetValid(e, b), i) <==> if b then Bit(e, i) || i in {P, AF} else Bit(e, i) && i != P
  {
    Pow2Bit(P, i); Pow2Bit(AF, i);
    OrBit(BIT(P), BIT(AF), i);
    OrBit(e, Or(BIT(P), BIT(AF)), i);
    AndNotBit(e, BIT(P), i);
  }

  lemma SetLeafBit(e: nat, level: nat, b: bool, i: nat)
    requires i < WIDTH
    ensures Bit(SetLeaf(e, level, b), i) <==> if i == SIZE then level == 0 || !b else Bit(e, i)
  {
    Pow2Bit(SIZE, i);
    OrBit(e, BIT(SIZE), i);
    AndNotBit(e, BIT(SIZE), i);
  }

  lemma SetPrivBit(e: nat, m: Mode, i: nat)
    requires i < WIDTH
    ensures Bit(SetPriv(e, m), i) <==> if i == U then m == User else Bit(e, i)
  {
    Pow2Bit(U, i);
    OrBit(e, BIT(U), i);
    AndNotBit(e, BIT(U), i);
  }

  lemma AttrMaskBit(i: nat)
    requires i < WIDTH
    ensures Bit(ATTR_MASK(), i) <==> 2 <= i < 5
  { FieldMaskBit(3, 2, i); }

  lemma SetCachePolicyBit(e: nat, pol: Policy, i: nat)
    requires i < WIDTH
    ensures Bit(SetCachePolicy(e, pol), i) <==> if 2 <= i < 5 then i == 2 && pol != WriteBack else Bit(e, i)
  {
    ZeroBit(i); Pow2Bit(2, i);
    AttrMaskBit(i);
    AndNotBit(e, ATTR_MASK(), i);
    OrBit(And(e, Not(ATTR_MASK())), AttrOf(pol), i);
  }

  // ---- Refinement ----------------------------------------------------------

  lemma ViewBits(e: nat, l: nat)
    ensures IsValid(e) <==> Bit(e, P)
    ensures IsLeaf(e, l) <==> l == 0 || !Bit(e, SIZE)
    ensures Priv(e) == if Bit(e, U) then User else Kern
  { TestBit(e, P); TestBit(e, SIZE); TestBit(e, U); }

  lemma SameAttr(e: nat, e': nat)
    requires forall i | 2 <= i < 5 :: Bit(e, i) <==> Bit(e', i)
    ensures Attr(e) == Attr(e')
  {
    forall i | 0 <= i < WIDTH && Bit(ATTR_MASK(), i) ensures Bit(e, i) <==> Bit(e', i) { AttrMaskBit(i); }
    SameField(e, e', ATTR_MASK());
  }

  lemma AttrAfterPolicy(e: nat, pol: Policy)
    ensures Attr(SetCachePolicy(e, pol)) == AttrOf(pol)
  {
    var e' := SetCachePolicy(e, pol);
    forall i | 0 <= i < WIDTH ensures Bit(AttrOf(pol), i) <==> Bit(ATTR_MASK(), i) && Bit(e', i) {
      AttrMaskBit(i);
      SetCachePolicyBit(e, pol, i);
      ZeroBit(i); Pow2Bit(2, i);
    }
    FieldIs(e', ATTR_MASK(), AttrOf(pol));
  }

  /** The abstract entry a word stands for. */
  function Read(e: nat, l: nat): Entry { Entry(IsValid(e), IsLeaf(e, l), GetPhys(e), Priv(e), Attr(e)) }

  lemma SetValidView(e: nat, l: nat, b: bool)
    ensures Read(SetValid(e, b), l) == Read(e, l).(valid := b)
  {
    var e' := SetValid(e, b);
    forall i | 0 <= i < WIDTH
      ensures Bit(e', i) <==> if b then Bit(e, i) || i in {P, AF} else Bit(e, i) && i != P
    { SetValidBit(e, b, i); }
    ViewBits(e, l); ViewBits(e', l); SameAttr(e, e'); SamePa(e, e');
  }

  lemma SetPhysView(e: nat, l: nat, pa: nat)
    requires pa % 4096 == 0 && pa < MIN_PHYS_SPACE
    ensures Read(SetPhys(e, pa), l) == Read(e, l).(phys := pa)
  {
    var e' := SetPhys(e, pa);
    forall i | 0 <= i < 12 ensures Bit(e', i) <==> Bit(e, i) { SetPaBit(e, pa, i); }
    ViewBits(e, l); ViewBits(e', l); SameAttr(e, e');
    assert GetPhys(e') == pa by { PaRoundTrip(e, pa); }
  }

  lemma SetPrivView(e: nat, l: nat, m: Mode)
    ensures Read(SetPriv(e, m), l) == Read(e, l).(priv := m)
  {
    var e' := SetPriv(e, m);
    forall i | 0 <= i < WIDTH ensures Bit(e', i) <==> if i == U then m == User else Bit(e, i) { SetPrivBit(e, m, i); }
    ViewBits(e, l); ViewBits(e', l); SameAttr(e, e'); SamePa(e, e');
  }

  lemma SetLeafView(e: nat, l: nat, b: bool)
    requires l > 0 || b
    ensures Read(SetLeaf(e, l, b), l) == Read(e, l).(leaf := b)
  {
    var e' := SetLeaf(e, l, b);
    forall i | 0 <= i < WIDTH ensures Bit(e', i) <==> if i == SIZE then l == 0 || !b else Bit(e, i) {
      SetLeafBit(e, l, b, i);
    }
    ViewBits(e, l); ViewBits(e', l); SameAttr(e, e'); SamePa(e, e');
  }

  lemma SetCachePolicyView(e: nat, l: nat, pol: Policy)
    ensures Read(SetCachePolicy(e, pol), l) == Read(e, l).(attr := AttrOf(pol))
  {
    var e' := SetCachePolicy(e, pol);
    forall i | 0 <= i < WIDTH && !(2 <= i < 5) ensures Bit(e', i) <==> Bit(e, i) { SetCachePolicyBit(e, pol, i); }
    ViewBits(e, l); ViewBits(e', l); SamePa(e, e'); AttrAfterPolicy(e, pol);
  }

  /** The aarch64 encoding refines the abstract entry. */
  lemma OpsLawful()
    ensures Lawful(Ops())
  {
    TestBit(0, P); ZeroBit(P);
    forall e: nat ensures PhysRange(Ops(), e) { PaRange(e); }
    forall e: nat, l: nat, b: bool ensures ValidLaw(Ops(), e, l, b) { SetValidView(e, l, b); }
    forall e: nat, l: nat, pa: nat ensures PhysLaw(Ops(), e, l, pa) {
      if pa % 4096 == 0 && pa < MIN_PHYS_SPACE { SetPhysView(e, l, pa); }
    }
    forall e: nat, l: nat, m: Mode ensures PrivLaw(Ops(), e, l, m) { SetPrivView(e, l, m); }
    forall e: nat, l: nat, b: bool ensures LeafLaw(Ops(), e, l, b) { if l > 0 || b { SetLeafView(e, l, b); } }
    forall e: nat, l: nat, pol: Policy ensures CacheLaw(Ops(), e, l, pol) { SetCachePolicyView(e, l, pol); }
  }
}

/** src/arch/riscv64/pte.c */
module PteRiscv {
  import opened Common
  import opened Bits
  import opened PteField
  import opened Pte

  const V: nat := 0
  const R: nat := 1
  const W: nat := 2
  const X: nat := 3
  const U: nat := 4
  const A: nat := 6
  const D: nat := 7
  const PHYS_SHIFT: nat := 2

  function PPN_MASK(): nat { FieldMask(43, 10) }

  function LEAF_BITS(): nat { Or(Or(Or(Or(BIT(R), BIT(W)), BIT(X)), BIT(A)), BIT(D)) }

  predicate IsValid(e: nat) { And(e, BIT(V)) != 0 }

  function SetValid(e: nat, valid: bool): nat { if valid then Or(e, BIT(V)) else And(e, Not(BIT(V))) }

  predicate IsLeaf(e: nat, level: nat) { And(e, BIT(A)) != 0 }

  function SetLeaf(e: nat, level: nat, leaf: bool): nat {
    if leaf then Or(e, LEAF_BITS()) else And(e, Not(LEAF_BITS()))
  }

  function GetPhys(e: nat): nat { Shl(And(e, PPN_MASK()), PHYS_SHIFT) }

  function SetPhys(e: nat, pa: nat): nat { Or(And(e, Not(PPN_MASK())), Shr(pa, PHYS_SHIFT)) }

  function SetPriv(e: nat, m: Mode): nat {
    match m
    case User => Or(e, BIT(U))
    case Kern => And(e, Not(BIT(U)))
  }

  /** Entries carry no memory attribute on this platform. */
  function SetCachePolicy(e: nat, pol: Policy): nat { e }

  function Priv(e: nat): Mode { if And(e, BIT(U)) != 0 then User else Kern }
  function Attr(e: nat): nat { 0 }
  function AttrOf(pol: Policy): nat { 0 }

  function Ops(): PteOps {
    PteOps(IsValid, SetValid, IsLeaf, SetLeaf, GetPhys, SetPhys, SetPriv, SetCachePolicy, Priv, Attr, AttrOf,
           PHYS_SPACE)
  }

  // ---- What each setter does to each bit -----------------------------------

  lemma SetValidBit(e: nat, b: bool, i: nat)
    requires i < WIDTH
    ensures Bit(SetValid(e, b), i) <==> if i == V then b else Bit(e, i)
  { Pow2Bit(V, i); OrBit(e, BIT(V), i); AndNotBit(e, BIT(V), i); }

  lemma LeafBitsBit(i: nat)
    requires i < WIDTH
    ensures Bit(LEAF_BITS(), i) <==> i in {R, W, X, A, D}
  {
    var rw := Or(BIT(R), BIT(W));
    var rwx := Or(rw, BIT(X));
    Pow2Bit(R, i); Pow2Bit(W, i); Pow2Bit(X, i); Pow2Bit(A, i); Pow2Bit(D, i);
    OrBit(BIT(R), BIT(W), i); OrBit(rw, BIT(X), i); OrBit(rwx, BIT(A), i); OrBit(Or(rwx, BIT(A)), BIT(D), i);
  }

  lemma SetLeafBit(e: nat, level: nat, b: bool, i: nat)
    requires i < WIDTH
    ensures Bit(SetLeaf(e, level, b), i) <==> if i in {R, W, X, A, D} then b else Bit(e, i)
  { LeafBitsBit(i); OrBit(e, LEAF_BITS(), i); AndNotBit(e, LEAF_BITS(), i); }

  lemma SetPrivBit(e: nat, m: Mode, i: nat)
    requires i < WIDTH
    ensures Bit(SetPriv(e, m), i) <==> if i == U then m == User else Bit(e, i)
  { Pow2Bit(U, i); OrBit(e, BIT(U), i); AndNotBit(e, BIT(U), i); }

  lemma PpnMaskBit(i: nat)
    requires i < WIDTH
    ensures Bit(PPN_MASK(), i) <==> 10 <= i < 53
  { FieldMaskBit(43, 10, i); }

  lemma SetPhysBit(e: nat, pa: nat, i: nat)
    requires i < WIDTH
    ensures Bit(SetPhys(e, pa), i) <==> (Bit(e, i) && !(10 <= i < 53)) || Bit(pa, i + 2)
  {
    OrBit(And(e, Not(PPN_MASK())), Shr(pa, PHYS_SHIFT), i);
    AndNotBit(e, PPN_MASK(), i);
    PpnMaskBit(i);
    ShrBit(pa, PHYS_SHIFT, i);
  }

  lemma GetPhysBit(e: nat, i: nat)
    requires i < WIDTH
    ensures GetPhys(e) < WORD
    ensures Bit(GetPhys(e), i) <==> 12 <= i < 55 && Bit(e, i - 2)
  {
    var field := And(e, PPN_MASK());
    AndBound(e, PPN_MASK(), WIDTH);
    ShlKBit(field, PHYS_SHIFT, WIDTH, i);
    if i >= 2 { AndBit(e, PPN_MASK(), i - 2); PpnMaskBit(i - 2); }
    Pow2Values();
  }

  // ---- Refinement ----------------------------------------------------------

  lemma ViewBits(e: nat, l: nat)
    ensures IsValid(e) <==> Bit(e, V)
    ensures IsLeaf(e, l) <==> Bit(e, A)
    ensures Priv(e) == if Bit(e, U) then User else Kern
  { TestBit(e, V); TestBit(e, A); TestBit(e, U); }

  lemma SamePhys(e: nat, e': nat)
    requires forall i | 10 <= i < 53 :: Bit(e, i) <==> Bit(e', i)
    ensures GetPhys(e) == GetPhys(e')
  {
    forall i | 0 <= i < WIDTH
      ensures GetPhys(e) < WORD && GetPhys(e') < WORD
      ensures Bit(GetPhys(e), i) <==> Bit(GetPhys(e'), i)
    {
      GetPhysBit(e, i); GetPhysBit(e', i);
      if 12 <= i < 55 { assert Bit(e, i - 2) <==> Bit(e', i - 2); }
    }
    GetPhysBit(e, 0); GetPhysBit(e', 0);
    Pow2Values();
    SameBits(GetPhys(e), GetPhys(e'), WIDTH);
  }

  /** pte_get_phys returns an aligned address below 2^55. */
  lemma RangeOfPhys(e: nat)
    ensures GetPhys(e) % 4096 == 0 && GetPhys(e) < PHYS_SPACE
  {
    forall i | 0 <= i < WIDTH && Bit(GetPhys(e), i) ensures 12 <= i < 55 { GetPhysBit(e, i); }
    GetPhysBit(e, 0);
    Pow2Values();
    AddressOfBits(GetPhys(e), 55, PHYS_SPACE);
  }

  lemma AddressInField(pa: nat)
    requires pa % 4096 == 0 && pa < PHYS_SPACE
    ensures forall i | 0 <= i < WIDTH :: Bit(pa, i) ==> 12 <= i < 55
  {
    Pow2Values();
    AddressBits(pa, 55, PHYS_SPACE);
  }

  /** Reading back a stored address gives that address exactly when it is below 2^55. */
  lemma PhysRoundTrip(e: nat, pa: nat)
    requires pa % 4096 == 0 && pa < WORD
    ensures GetPhys(SetPhys(e, pa)) == pa <==> pa < PHYS_SPACE
  {
    RangeOfPhys(SetPhys(e, pa));
    if pa < PHYS_SPACE { PhysInRange(e, pa); }
  }

  lemma PhysInRange(e: nat, pa: nat)
    requires pa % 4096 == 0 && pa < PHYS_SPACE
    ensures GetPhys(SetPhys(e, pa)) == pa
  {
    AddressInField(pa);
    forall i | 0 <= i < WIDTH ensures Bit(GetPhys(SetPhys(e, pa)), i) <==> Bit(pa, i) {
      GetPhysBit(SetPhys(e, pa), i);
      if 2 <= i { SetPhysBit(e, pa, i - 2); }
    }
    GetPhysBit(SetPhys(e, pa), 0);
    Pow2Values();
    SameBits(GetPhys(SetPhys(e, pa)), pa, WIDTH);
  }

  /** The abstract entry a word stands for. */
  function Read(e: nat, l: nat): Entry { Entry(IsValid(e), IsLeaf(e, l), GetPhys(e), Priv(e), Attr(e)) }

  lemma SetValidView(e: nat, l: nat, b: bool)
    ensures Read(SetValid(e, b), l) == Read(e, l).(valid := b)
  {
    var e' := SetValid(e, b);
    forall i | 0 <= i < WIDTH ensures Bit(e', i) <==> if i == V then b else Bit(e, i) { SetValidBit(e, b, i); }
    ViewBits(e, l); ViewBits(e', l); SamePhys(e, e');
  }

  lemma SetPhysView(e: nat, l: nat, pa: nat)
    requires pa % 4096 == 0 && pa < PHYS_SPACE
    ensures Read(SetPhys(e, pa), l) == Read(e, l).(phys := pa)
  {
    var e' := SetPhys(e, pa);
    AddressInField(pa);
    forall i | i in {V, U, A} ensures Bit(e', i) <==> Bit(e, i) { SetPhysBit(e, pa, i); }
    ViewBits(e, l); ViewBits(e', l); PhysInRange(e, pa);
  }

  lemma SetPrivView(e: nat, l: nat, m: Mode)
    ensures Read(SetPriv(e, m), l) == Read(e, l).(priv := m)
  {
    var e' := SetPriv(e, m);
    forall i | 0 <= i < WIDTH ensures Bit(e', i) <==> if i == U then m == User else Bit(e, i) { SetPrivBit(e, m, i); }
    ViewBits(e, l); ViewBits(e', l); SamePhys(e, e');
  }

  lemma SetLeafView(e: nat, l: nat, b: bool)
    ensures Read(SetLeaf(e, l, b), l) == Read(e, l).(leaf := b)
  {
    var e' := SetLeaf(e, l, b);
    forall i | 0 <= i < WIDTH ensures Bit(e', i) <==> if i in {R, W, X, A, D} then b else Bit(e, i) {
      SetLeafBit(e, l, b, i);
    }
    ViewBits(e, l); ViewBits(e', l); SamePhys(e, e');
  }

  /** The riscv64 encoding refines the abstract entry. */
  lemma OpsLawful()
    ensures Lawful(Ops())
  {
    TestBit(0, V); ZeroBit(V);
    forall e: nat ensures PhysRange(Ops(), e) { RangeOfPhys(e); }
    forall e: nat, l: nat, b: bool ensures ValidLaw(Ops(), e, l, b) { SetValidView(e, l, b); }
    forall e: nat, l: nat, pa: nat ensures PhysLaw(Ops(), e, l, pa) {
      if pa % 4096 == 0 && pa < PHYS_SPACE { SetPhysView(e, l, pa); }
    }
    forall e: nat, l: nat, m: Mode ensures PrivLaw(Ops(), e, l, m) { SetPrivView(e, l, m); }
    forall e: nat, l: nat, b: bool ensures LeafLaw(Ops(), e, l, b) { if l > 0 || b { SetLeafView(e, l, b); } }
    forall e: nat, l: nat, pol: Policy ensures CacheLaw(Ops(), e, l, pol) {}
  }

  // ---- Agreement with Sv48 -------------------------------------------------

  /** Sv48's own test: an entry with any of R, W, X set is a leaf
      (section 4.3.2 of the RISC-V Privileged Specification v1.12). */
  predicate Sv48Leaf(e: nat) { Bit(e, R) || Bit(e, W) || Bit(e, X) }

  /** The kernel's A-bit test and the hardware's R/W/X test agree on e, and a writable entry is readable. */
  predicate LeafTestsAgree(e: nat) {
    && (IsLeaf(e, 0) <==> Sv48Leaf(e))
    && (Bit(e, R) <==> Bit(e, W)) && (Bit(e, W) <==> Bit(e, X))
  }

  lemma EmptyEntryAgrees()
    ensures LeafTestsAgree(0)
  {
    forall i | i in {R, W, X, A} ensures !Bit(0, i) { ZeroBit(i); }
    ViewBits(0, 0);
  }

  lemma AgreeByBits(e: nat, e': nat)
    requires LeafTestsAgree(e)
    requires forall i | i in {R, W, X, A} :: Bit(e', i) <==> Bit(e, i)
    ensures LeafTestsAgree(e')
  { ViewBits(e, 0); ViewBits(e', 0); }

  /** Every setter keeps the agreement. */
  lemma SetterKeepsAgreement(e: nat, l: nat, pa: nat, m: Mode, b: bool)
    requires LeafTestsAgree(e)
    requires pa % 4096 == 0 && pa < PHYS_SPACE
    ensures LeafTestsAgree(SetValid(e, b)) && LeafTestsAgree(SetPriv(e, m))
    ensures LeafTestsAgree(SetPhys(e, pa)) && LeafTestsAgree(SetLeaf(e, l, b))
  {
    AddressInField(pa);
    forall i | i in {R, W, X, A} ensures Bit(SetValid(e, b), i) <==> Bit(e, i) { SetValidBit(e, b, i); }
    AgreeByBits(e, SetValid(e, b));
    forall i | i in {R, W, X, A} ensures Bit(SetPriv(e, m), i) <==> Bit(e, i) { SetPrivBit(e, m, i); }
    AgreeByBits(e, SetPriv(e, m));
    forall i | i in {R, W, X, A} ensures Bit(SetPhys(e, pa), i) <==> Bit(e, i) { SetPhysBit(e, pa, i); }
    AgreeByBits(e, SetPhys(e, pa));
    forall i | i in {R, W, X, A} ensures Bit(SetLeaf(e, l, b), i) <==> b { SetLeafBit(e, l, b, i); }
    ViewBits(SetLeaf(e, l, b), 0);
  }

  /** The kernel's leaf test and Sv48's agree on every entry made by the setters, in any order and number. */
  lemma {:induction false} LeafTestsAlwaysAgree(ws: seq<Setter>)
    requires GoodSetters(Ops(), ws)
    ensures LeafTestsAgree(ApplyAll(Ops(), ws))
  {
    hide LeafTestsAgree, SetValid, SetLeaf, SetPhys, SetPriv;
    if |ws| == 0 { EmptyEntryAgrees(); } else {
      var front, w := ws[..|ws| - 1], ws[|ws| - 1];
      assert GoodSetters(Ops(), front) && GoodSetter(Ops(), w);
      LeafTestsAlwaysAgree(front);
      var e := ApplyAll(Ops(), front);
      SetterKeepsAgreement(e, if w.ToLeaf? then w.level else 0, if w.ToPhys? then w.pa else 0,
                           if w.ToPriv? then w.m else Kern, if w.ToValid? || w.ToLeaf? then w.b else false);
    }
  }
}

/** The three instruction sets. */
module Isa {
  import opened Pte
  import PteX86
  import PteAarch64
  import PteRiscv
  import opened PageTable
  import opened Vm

  datatype Isa = X86_64 | Aarch64 | Riscv64

  /** The implementation the kernel is linked with. */
  function OpsFor(isa: Isa): PteOps {
    match isa
    case X86_64 => PteX86.Ops()
    case Aarch64 => PteAarch64.Ops()
    case Riscv64 => PteRiscv.Ops()
  }

  /** On each of them entries behave as the one abstract entry the address-space proofs rely on. */
  lemma EveryIsaLawful(isa: Isa)
    ensures Lawful(OpsFor(isa))
  {
    hide Lawful;
    match isa
    case X86_64 => PteX86.OpsLawful();
    case Aarch64 => PteAarch64.OpsLawful();
    case Riscv64 => PteRiscv.OpsLawful();
  }

  /** On riscv64, the kernel and the processor agree on which entries are leaves, for every entry of every table that
      the address-space operations can produce. */
  lemma LiveEntriesAgree(vm: AddressSpaces, s: Slot)
    requires vm.Valid() && vm.ops == PteRiscv.Ops()
    ensures PteRiscv.LeafTestsAgree(Read(vm.mem, s))
  {
    ReadWritten(vm.ops, vm.mem, s);
    var ws :| GoodSetters(vm.ops, ws) && ApplyAll(vm.ops, ws) == Read(vm.mem, s);
    PteRiscv.LeafTestsAlwaysAgree(ws);
  }
}
