/** Page-table entries and virtual addresses as words. */
module Entries {
  import opened Bits

  const ADDR_MASK: nat := 0x000F_FFFF_FFFF_F000
  const PTE_PRESENT: nat := 1
  const PTE_WRITABLE: nat := 2
  const PTE_USER: nat := 4

  predicate Present(e: nat) {
    And(e, PTE_PRESENT) != 0
  }

  /** PTE_PHYS: the address an entry points to. */
  function Ptr(e: nat): nat {
    And(e, ADDR_MASK)
  }

  function Idx4(va: nat): nat { And(Shr(va, 39), 0x1FF) }
  function Idx3(va: nat): nat { And(Shr(va, 30), 0x1FF) }
  function Idx2(va: nat): nat { And(Shr(va, 21), 0x1FF) }
  function Idx1(va: nat): nat { And(Shr(va, 12), 0x1FF) }

  /** Offset within the page. */
  function Offset(va: nat): nat { And(va, 0xFFF) }

  /** Bits 47..12 of a virtual address. */
  function PageNumber(va: nat): nat { And(Shr(va, 12), 0xF_FFFF_FFFF) }

  /** The entry that links a table into its parent. */
  function LinkEntry(table: nat, flags: nat): nat {
    Or(Or(Or(table, PTE_PRESENT), PTE_WRITABLE), And(flags, PTE_USER))
  }

  /** The entry that maps a page. */
  function LeafEntry(phys: nat, flags: nat): nat {
    Or(Ptr(phys), Or(flags, PTE_PRESENT))
  }

  /** A page-aligned physical address that fits the address field. */
  predicate IsPage(a: nat) {
    a % 4096 == 0 && a < 0x10_0000_0000_0000
  }

  // --- what the masks select -------------------------------------------------------

  lemma MaskIsShifted()
    ensures ADDR_MASK == Shl(0xFF_FFFF_FFFF, 12)
  {
    Shl12(0xFF_FFFF_FFFF);
  }

  lemma PtrOfPage(a: nat)
    requires IsPage(a)
    ensures Ptr(a) == a
  {
    MaskIsShifted();
    AndShl(a, 0xFF_FFFF_FFFF, 12);
    Shr12(a);
    Pow2Values();
    var f := a / 4096;
    AndLow(f, 40);
    ShrBelow(f, 40);
    ShlZero(40);
    Shl12(f);
  }

  lemma PtrIsPage(e: nat)
    ensures IsPage(Ptr(e))
  {
    MaskIsShifted();
    AndShl(e, 0xFF_FFFF_FFFF, 12);
    var f := And(Shr(e, 12), 0xFF_FFFF_FFFF);
    AndBelow(Shr(e, 12), 0xFF_FFFF_FFFF);
    Shl12(f);
  }

  lemma PtrOfFlags(flags: nat)
    requires flags < 4096
    ensures Ptr(flags) == 0
  {
    MaskIsShifted();
    Pow2Values();
    AndShlBelow(flags, 0xFF_FFFF_FFFF, 12);
  }

  lemma PresentOr(a: nat, b: nat)
    ensures Present(Or(a, b)) <==> Present(a) || Present(b)
  {
    AndPow2(Or(a, b), 0);
    AndPow2(a, 0);
    AndPow2(b, 0);
    BitOfOr(a, b, 0);
  }

  lemma PresentValues()
    ensures Present(PTE_PRESENT) && !Present(0)
    ensures forall a: nat :: And(0, a) == 0
  {
    AndPow2(1, 0);
  }

  lemma LinkFacts(table: nat, flags: nat)
    requires IsPage(table)
    ensures Present(LinkEntry(table, flags)) && Ptr(LinkEntry(table, flags)) == table
  {
    var user := And(flags, PTE_USER);
    PresentValues();
    PresentOr(table, PTE_PRESENT);
    PresentOr(Or(table, PTE_PRESENT), PTE_WRITABLE);
    PresentOr(Or(Or(table, PTE_PRESENT), PTE_WRITABLE), user);
    AndBelow(flags, PTE_USER);
    PtrOfFlags(user);
    PtrOfFlags(PTE_PRESENT);
    PtrOfFlags(PTE_WRITABLE);
    PtrOfPage(table);
    AndOrDistribute(table, PTE_PRESENT, ADDR_MASK);
    AndOrDistribute(Or(table, PTE_PRESENT), PTE_WRITABLE, ADDR_MASK);
    AndOrDistribute(Or(Or(table, PTE_PRESENT), PTE_WRITABLE), user, ADDR_MASK);
    OrZero(table);
  }

  lemma LeafFacts(phys: nat, flags: nat)
    ensures Present(LeafEntry(phys, flags))
    ensures Ptr(LeafEntry(phys, flags)) == Or(Ptr(phys), Ptr(flags))
  {
    PresentValues();
    PresentOr(flags, PTE_PRESENT);
    PresentOr(Ptr(phys), Or(flags, PTE_PRESENT));
    AndOrDistribute(Ptr(phys), Or(flags, PTE_PRESENT), ADDR_MASK);
    AndOrDistribute(flags, PTE_PRESENT, ADDR_MASK);
    PtrOfFlags(PTE_PRESENT);
    OrZero(Ptr(flags));
    AndAssociate(phys, ADDR_MASK, ADDR_MASK);
    AndIdempotent(ADDR_MASK);
  }

  // --- the rights in an entry ------------------------------------------------------

  /** Bits 12 to 51 hold the address; those around them say what may be done with it. */
  predicate AddressBit(k: nat) {
    12 <= k < 52
  }

  lemma MaskBits(k: nat)
    ensures Bit(ADDR_MASK, k) <==> AddressBit(k)
  {
    var ones := 0xFF_FFFF_FFFF;
    MaskIsShifted();
    Pow2Values();
    BitOfShl(ones, 12, k);
    if AddressBit(k) { AllOnes(k - 12, 40); }
    if k >= 52 { BitAbove(ones, 40, k - 12); }
  }

  /** Around the address, the entry of a mapped page has the bits of its flags and the
      present bit. */
  ghost predicate Rights(e: nat, flags: nat) {
    forall k: nat | !AddressBit(k) :: Bit(e, k) <==> Bit(flags, k) || k == 0
  }

  /** An entry that links a table is present and writable, is open to user mode exactly when
      the flags are, and has no other bit around the address. */
  ghost predicate LinkRights(e: nat, flags: nat) {
    forall k: nat | !AddressBit(k) :: Bit(e, k) <==> k == 0 || k == 1 || (k == 2 && Bit(flags, 2))
  }

  lemma LeafBits(phys: nat, flags: nat)
    ensures Rights(LeafEntry(phys, flags), flags)
    ensures forall k: nat | AddressBit(k) :: Bit(LeafEntry(phys, flags), k) <==> Bit(phys, k) || Bit(flags, k)
  {
    forall k: nat ensures Bit(LeafEntry(phys, flags), k) <==>
        (AddressBit(k) && Bit(phys, k)) || Bit(flags, k) || k == 0
    {
      BitOfOr(Ptr(phys), Or(flags, PTE_PRESENT), k);
      BitOfOr(flags, PTE_PRESENT, k);
      BitOfAnd(phys, ADDR_MASK, k);
      MaskBits(k);
      BitOfPow2(0, k);
    }
  }

  lemma LinkBits(table: nat, flags: nat)
    requires IsPage(table)
    ensures LinkRights(LinkEntry(table, flags), flags)
  {
    PtrOfPage(table);
    forall k: nat | !AddressBit(k)
      ensures Bit(LinkEntry(table, flags), k) <==> k == 0 || k == 1 || (k == 2 && Bit(flags, 2))
    {
      BitOfOr(Or(Or(table, PTE_PRESENT), PTE_WRITABLE), And(flags, PTE_USER), k);
      BitOfOr(Or(table, PTE_PRESENT), PTE_WRITABLE, k);
      BitOfOr(table, PTE_PRESENT, k);
      BitOfAnd(flags, PTE_USER, k);
      BitOfAnd(table, ADDR_MASK, k);
      MaskBits(k);
      SmallPowers();
      BitOfPow2(0, k);
      BitOfPow2(1, k);
      BitOfPow2(2, k);
    }
  }

  lemma SmallPowers()
    ensures Pow2(0) == PTE_PRESENT && Pow2(1) == PTE_WRITABLE && Pow2(2) == PTE_USER
  {
  }

  // --- indices -----------------------------------------------------------------------

  lemma IndexBelow(va: nat)
    ensures Idx4(va) < 512 && Idx3(va) < 512 && Idx2(va) < 512 && Idx1(va) < 512
  {
    AndBelow(Shr(va, 39), 0x1FF);
    AndBelow(Shr(va, 30), 0x1FF);
    AndBelow(Shr(va, 21), 0x1FF);
    AndBelow(Shr(va, 12), 0x1FF);
  }

  lemma NineBits(x: nat)
    ensures x == Shr(x, 9) * 512 + And(x, 0x1FF)
  {
    Pow2Values();
    AndLow(x, 9);
    Shl3(Shr(x, 9));
    Shl3(Shr(x, 9) * 8);
    Shl3(Shr(x, 9) * 64);
    ShlShl(Shr(x, 9), 3, 3);
    ShlShl(Shr(x, 9), 6, 3);
  }

  /** The four indices are the nine-bit digits of the page number. */
  lemma PageNumberDigits(va: nat)
    ensures PageNumber(va) == ((Idx4(va) * 512 + Idx3(va)) * 512 + Idx2(va)) * 512 + Idx1(va)
  {
    IndexBelow(va);
    var x1 := Shr(va, 12);
    var x2, x3, x4, x5 := Shr(va, 21), Shr(va, 30), Shr(va, 39), Shr(va, 48);
    ShrShr(va, 12, 9);
    ShrShr(va, 21, 9);
    ShrShr(va, 30, 9);
    ShrShr(va, 39, 9);
    NineBits(x1);
    NineBits(x2);
    NineBits(x3);
    NineBits(x4);
    ComposeDigits(x1, x2, x3, x4, x5, PathOf(va));
    LowBits36(x1);
  }

  lemma ComposeDigits(x1: nat, x2: nat, x3: nat, x4: nat, x5: nat, p: Path)
    requires ValidPath(p)
    requires x1 == x2 * 512 + p.i1 && x2 == x3 * 512 + p.i2 && x3 == x4 * 512 + p.i3 && x4 == x5 * 512 + p.i4
    ensures x1 % 0x10_0000_0000 == ((p.i4 * 512 + p.i3) * 512 + p.i2) * 512 + p.i1
  {
    var r := ((p.i4 * 512 + p.i3) * 512 + p.i2) * 512 + p.i1;
    assert x1 == x5 * 0x10_0000_0000 + r;
    Remainder36(x1, x5, r);
  }

  lemma Remainder36(x: nat, q: nat, r: nat)
    requires x == q * 0x10_0000_0000 + r && r < 0x10_0000_0000
    ensures x % 0x10_0000_0000 == r
  {
  }

  lemma LowBits36(x: nat)
    ensures And(x, 0xF_FFFF_FFFF) == x % 0x10_0000_0000
  {
    Pow2Values();
    Pow2Shl(12, 12);
    Shl12(4096);
    Pow2Shl(24, 12);
    Shl12(0x100_0000);
    AndLow(x, 36);
    var q := Shr(x, 36);
    ShlShl(q, 12, 12);
    ShlShl(q, 24, 12);
    Shl12(q);
    Shl12(q * 4096);
    Shl12(q * 0x100_0000);
    Remainder36(x, q, And(x, 0xF_FFFF_FFFF));
  }

  datatype Path = Path(i4: nat, i3: nat, i2: nat, i1: nat)

  predicate ValidPath(p: Path) {
    p.i4 < 512 && p.i3 < 512 && p.i2 < 512 && p.i1 < 512
  }

  function PathOf(va: nat): (p: Path)
    ensures ValidPath(p)
  {
    IndexBelow(va);
    Path(Idx4(va), Idx3(va), Idx2(va), Idx1(va))
  }

  lemma DigitsUnique(p: Path, q: Path)
    requires ValidPath(p) && ValidPath(q)
    requires ((p.i4 * 512 + p.i3) * 512 + p.i2) * 512 + p.i1 == ((q.i4 * 512 + q.i3) * 512 + q.i2) * 512 + q.i1
    ensures p == q
  {
    LastDigit((p.i4 * 512 + p.i3) * 512 + p.i2, p.i1, (q.i4 * 512 + q.i3) * 512 + q.i2, q.i1);
    LastDigit(p.i4 * 512 + p.i3, p.i2, q.i4 * 512 + q.i3, q.i2);
    LastDigit(p.i4, p.i3, q.i4, q.i3);
  }

  lemma LastDigit(a: nat, d: nat, b: nat, e: nat)
    requires d < 512 && e < 512 && a * 512 + d == b * 512 + e
    ensures a == b && d == e
  {
  }

  /** Two addresses take the same path exactly when bits 47..12 agree. */
  lemma SamePath(va: nat, vb: nat)
    ensures PathOf(va) == PathOf(vb) <==> PageNumber(va) == PageNumber(vb)
  {
    PageNumberDigits(va);
    PageNumberDigits(vb);
    if PageNumber(va) == PageNumber(vb) {
      DigitsUnique(PathOf(va), PathOf(vb));
    }
  }

  lemma OffsetIs(va: nat)
    ensures Offset(va) == va % 4096
  {
    Pow2Values();
    AndLow(va, 12);
    Shl12(Shr(va, 12));
  }

  lemma PageNumberIs(va: nat)
    ensures PageNumber(va) == va / 4096 % 0x10_0000_0000
  {
    Shr12(va);
    LowBits36(va / 4096);
  }

  /** Joining a page address and an offset. */
  lemma PageOrOffset(a: nat, off: nat)
    requires a % 4096 == 0 && off < 4096
    ensures Or(a, off) == a + off
  {
    Pow2Values();
    Shl12(a / 4096);
    OrShl(a / 4096, off, 12);
  }
}
