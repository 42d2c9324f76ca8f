/**
 Relocation of the eight bytes at a code or data address, taken as one little-endian word.
 What is written is stated as a mask and the bits under it; what it means is stated by
 decoders that follow the instruction sets' own formats.
 */
module Reloc {

  /** Bits under a mask, or a refusal. */
  datatype Field = Field(mask: bv64, data: bv64) | Reject

  function Blend(t: bv64, mask: bv64, data: bv64): bv64 {
    (data & mask) | (t & !mask)
  }

  /** The access width follows the mask: eight, four, two or one byte. */
  function SizedBlend(t: bv64, mask: bv64, data: bv64): bv64 {
    if mask > 0xffff_ffff then (data & mask) | (t & !mask)
    else if mask > 0xffff then (((data & mask) | (t & !mask)) & 0xffff_ffff) | (t & 0xffff_ffff_0000_0000)
    else if mask > 0xff then (((data & mask) | (t & !mask)) & 0xffff) | (t & 0xffff_ffff_ffff_0000)
    else (((data & mask) | (t & !mask)) & 0xff) | (t & 0xffff_ffff_ffff_ff00)
  }

  /** Whatever the width, exactly the bits under the mask change. */
  lemma BlendAtAnyWidth(t: bv64, mask: bv64, data: bv64)
    ensures SizedBlend(t, mask, data) == Blend(t, mask, data)
  {
    if mask > 0xffff_ffff {
    } else if mask > 0xffff {
      Blend32(t, mask, data);
    } else if mask > 0xff {
      Blend16(t, mask, data);
    } else {
      Blend8(t, mask, data);
    }
  }

  lemma Blend32(t: bv64, mask: bv64, data: bv64)
    requires mask <= 0xffff_ffff
    ensures (((data & mask) | (t & !mask)) & 0xffff_ffff) | (t & 0xffff_ffff_0000_0000) == Blend(t, mask, data)
  {
    assert mask & 0xffff_ffff == mask;
  }

  lemma Blend16(t: bv64, mask: bv64, data: bv64)
    requires mask <= 0xffff
    ensures (((data & mask) | (t & !mask)) & 0xffff) | (t & 0xffff_ffff_ffff_0000) == Blend(t, mask, data)
  {
    assert mask & 0xffff == mask;
  }

  lemma Blend8(t: bv64, mask: bv64, data: bv64)
    requires mask <= 0xff
    ensures (((data & mask) | (t & !mask)) & 0xff) | (t & 0xffff_ffff_ffff_ff00) == Blend(t, mask, data)
  {
    assert mask & 0xff == mask;
  }

  // ---- Signed arithmetic on words ----------------------------------------------------

  predicate SignedLess(a: bv64, b: bv64) {
    (a ^ 0x8000_0000_0000_0000) < (b ^ 0x8000_0000_0000_0000)
  }

  /** CHECK_SIGNED_BITS, half being two to the power of bits - 1: the largest value is refused. */
  predicate InSigned(v: bv64, half: bv64) {
    !SignedLess(v, 0 - half) && SignedLess(v, half - 1)
  }

  /** Representable: half is two to the power of bits - 1. */
  predicate FitsSigned(v: bv64, half: bv64) {
    !SignedLess(v, 0 - half) && SignedLess(v, half)
  }

  /** CHECK_UNSIGNED_BITS: the largest value is refused here too. */
  predicate InUnsigned(v: bv64, all: bv64) {
    v < all
  }

  function Plus(a: bv64, b: bv64): bv64 { a + b }
  function Minus(a: bv64, b: bv64): bv64 { a - b }

  /** A word without its low twelve bits, those bits alone, bits 31 to 12, and twelve places further up. */
  function Round(v: bv64): bv64 { v & 0xffff_ffff_ffff_f000 }
  function Low(v: bv64): bv64 { v & 0xfff }
  function Top(v: bv64): bv64 { v & 0xffff_f000 }
  function Up12(v: bv64): bv64 { v << 12 }

  /** Arithmetic shift right. */
  function Asr2(v: bv64): bv64 { if v & 0x8000_0000_0000_0000 == 0 then v >> 2 else (v >> 2) | 0xc000_0000_0000_0000 }
  function Asr12(v: bv64): bv64 { if v & 0x8000_0000_0000_0000 == 0 then v >> 12 else (v >> 12) | 0xfff0_0000_0000_0000 }

  /** Sign extension of 12, 13, 21, 28 and 32 bits. */
  function Extend12(v: bv64): bv64 { if v & 0x800 == 0 then v else v | 0xffff_ffff_ffff_f000 }
  function Extend13(v: bv64): bv64 { if v & 0x1000 == 0 then v else v | 0xffff_ffff_ffff_e000 }
  function Extend21(v: bv64): bv64 { if v & 0x10_0000 == 0 then v else v | 0xffff_ffff_ffe0_0000 }
  function Extend28(v: bv64): bv64 { if v & 0x800_0000 == 0 then v else v | 0xffff_ffff_f000_0000 }
  function Extend32(v: bv64): bv64 { if v & 0x8000_0000 == 0 then v else v | 0xffff_ffff_0000_0000 }

  // ---- rtld_reloc_at, kind by kind: prel is the distance from the site to the address syma --

  function Checked(ok: bool, mask: bv64, data: bv64): Field {
    if ok then Field(mask, data) else Reject
  }

  /** The upper part of a split offset, rounded so that the signed lower part makes up for it. */
  function Hi20(off: bv64): bv64 {
    ((off + 0x800) & 0xffff_ffff) >> 12
  }

  function BranchBits(imm: bv64): bv64 {
    ((imm & 0x1000) << 19) | ((imm & 0x7e0) << 20) | ((imm & 0x1e) << 7) | ((imm & 0x800) >> 4)
  }

  function JumpBits(imm: bv64): bv64 {
    ((imm & 0x10_0000) << 11) | ((imm & 0x7fe) << 20) | ((imm & 0x800) << 9) | (imm & 0xf_f000)
  }

  function StoreBits(lo12: bv64): bv64 {
    ((lo12 & 0x1f) << 7) | ((lo12 & 0xfe0) << 20)
  }

  function PageBits(pages: bv64): bv64 {
    ((pages & 3) << 29) | (((pages >> 2) & 0x7_ffff) << 5)
  }

  /** Both instructions of a call: the upper part into auipc, the lower part into jalr. */
  function CallBits(prel: bv64): bv64 {
    var hi := Hi20(prel);
    (hi << 12) | ((((prel - (hi << 12)) & 0xfff) << 20) << 32)
  }

  /** far is where a stub for a branch out of reach was put, if it could be put anywhere. */
  datatype Far = NoStub | StubAt(addr: bv64)

  function Jump26(pc: bv64, syma: bv64, far: Far): Field {
    if InSigned(Minus(syma, pc), 0x800_0000) then Field(0x03ff_ffff, Asr2(Minus(syma, pc)))
    else if far.NoStub? then Reject
    else Checked(InSigned(Minus(far.addr, pc), 0x800_0000), 0x03ff_ffff, Asr2(Minus(far.addr, pc)))
  }

  function Branch(prel: bv64): Field {
    Checked(InSigned(prel, 0x1000), 0xfe00_0f80, BranchBits(prel & 0xffff_ffff))
  }

  function Jal(prel: bv64): Field {
    Checked(InSigned(prel, 0x10_0000), 0xffff_f000, JumpBits(prel & 0xffff_ffff))
  }

  function Call(prel: bv64): Field { Field(0xfff0_0000_ffff_f000, CallBits(prel)) }

  function PcrelHi20(prel: bv64): Field { Field(0xffff_f000, Hi20(prel) << 12) }

  function Lo12I(off: bv64): Field { Field(0xfff0_0000, (off & 0xfff) << 20) }

  function Lo12S(off: bv64): Field { Field(0xfe00_0f80, StoreBits(off & 0xfff)) }

  function AdrPage(pc: bv64, syma: bv64): Field {
    var pages := Asr12(Minus(Round(syma), Round(pc)));
    Checked(InSigned(pages, 0x10_0000), 0x60ff_ffe0, PageBits(pages))
  }

  function Signed32Field(v: bv64): Field { Checked(InSigned(v, 0x8000_0000), 0xffff_ffff, v) }

  function Unsigned32Field(v: bv64): Field { Checked(InUnsigned(v, 0xffff_ffff), 0xffff_ffff, v) }

  // The low part of an absolute address, scaled by the access size, and its quarters.

  function Imm12Of(syma: bv64): Field { Field(0xfff << 10, syma << 10) }
  function Imm12Of2(syma: bv64): Field { Field(0x7ff << 10, (syma >> 1) << 10) }
  function Imm12Of4(syma: bv64): Field { Field(0x3ff << 10, (syma >> 2) << 10) }
  function Imm12Of8(syma: bv64): Field { Field(0x1ff << 10, (syma >> 3) << 10) }
  function Imm12Of16(syma: bv64): Field { Field(0xff << 10, (syma >> 4) << 10) }
  function Quarter0(syma: bv64): Field { Field(0xffff << 5, syma << 5) }
  function Quarter1(syma: bv64): Field { Field(0xffff << 5, (syma >> 16) << 5) }
  function Quarter2(syma: bv64): Field { Field(0xffff << 5, (syma >> 32) << 5) }
  function Quarter3(syma: bv64): Field { Field(0xffff << 5, (syma >> 48) << 5) }

  function Relocate(site: bv64, f: Field): bv64
    requires f.Field?
  {
    Blend(site, f.mask, f.data)
  }

  /** Every bit outside the field stays. */
  lemma OutsideKept(site: bv64, f: Field)
    requires f.Field?
    ensures Relocate(site, f) & !f.mask == site & !f.mask
  {
    Outside(site, f.mask, f.data);
  }

  lemma Outside(t: bv64, m: bv64, d: bv64)
    ensures ((d & m) | (t & !m)) & !m == t & !m
  {
  }

  // ---- Decoders: RISC-V --------------------------------------------------------------

  /** B-immediate of section 2.3 of the RISC-V Unprivileged ISA, low 13 bits. */
  function BImmediate(i: bv64): bv64 {
    (((i >> 31) & 1) << 12) | (((i >> 7) & 1) << 11) | (((i >> 25) & 0x3f) << 5) | (((i >> 8) & 0xf) << 1)
  }

  /** J-immediate, low 21 bits. */
  function JImmediate(i: bv64): bv64 {
    (((i >> 31) & 1) << 20) | (((i >> 12) & 0xff) << 12) | (((i >> 20) & 1) << 11) | (((i >> 21) & 0x3ff) << 1)
  }

  function UImmediate(i: bv64): bv64 { Extend32(Top(i)) }

  function IImmediate(i: bv64): bv64 { Extend12(Low(i >> 20)) }

  function SImmediate(i: bv64): bv64 { Extend12((((i >> 25) & 0x7f) << 5) | ((i >> 7) & 0x1f)) }

  // Section 2.5: control goes to the instruction's own address plus these.

  function BranchOffset(i: bv64): bv64 { Extend13(BImmediate(i)) }

  function JalOffset(i: bv64): bv64 { Extend21(JImmediate(i)) }

  /** auipc and a jalr on its result. */
  function CallOffset(pair: bv64): bv64 { Plus(UImmediate(pair), IImmediate(pair >> 32)) }

  // ---- Decoders: AArch64 -------------------------------------------------------------

  function Imm26Offset(i: bv64): bv64 { Extend28((i & 0x03ff_ffff) << 2) }

  function AdrpPages(i: bv64): bv64 { Extend21((((i >> 5) & 0x7_ffff) << 2) | ((i >> 29) & 3)) }

  function AdrpPage(pc: bv64, i: bv64): bv64 { Plus(Round(pc), Up12(AdrpPages(i))) }

  function Imm12(i: bv64): bv64 { (i >> 10) & 0xfff }

  function Imm16(i: bv64): bv64 { (i >> 5) & 0xffff }

  function Joined(a: bv64, b: bv64, c: bv64, d: bv64): bv64 { a | (b << 16) | (c << 32) | (d << 48) }

  /** movz, then movk into the three upper quarters. */
  function Moved(g0: bv64, g1: bv64, g2: bv64, g3: bv64): bv64 {
    Joined(Imm16(g0), Imm16(g1), Imm16(g2), Imm16(g3))
  }

  // ---- Range checks and sign extension -----------------------------------------------
  // Facts about plain words come first, without any function of this module: they are cheap that way.

  lemma Low13(v: bv64)
    requires (v ^ 0x8000_0000_0000_0000) < 0x8000_0000_0000_0fff && v & 0x8000_0000_0000_0000 == 0
    ensures (v & 0x1ffe) & 0x1000 == 0 && v & 0x1ffe == v & !1
  {
  }

  lemma High13(v: bv64)
    requires (v ^ 0x8000_0000_0000_0000) >= 0x7fff_ffff_ffff_f000 && v & 0x8000_0000_0000_0000 != 0
    ensures (v & 0x1ffe) & 0x1000 != 0 && (v & 0x1ffe) | 0xffff_ffff_ffff_e000 == v & !1
  {
  }

  lemma Signed13(v: bv64)
    requires InSigned(v, 0x1000)
    ensures Extend13(v & 0x1ffe) == v & !1
  {
    if v & 0x8000_0000_0000_0000 == 0 {
      Low13(v);
    } else {
      High13(v);
    }
  }

  lemma Low21(v: bv64)
    requires (v ^ 0x8000_0000_0000_0000) < 0x8000_0000_000f_ffff && v & 0x8000_0000_0000_0000 == 0
    ensures (v & 0x1f_fffe) & 0x10_0000 == 0 && v & 0x1f_fffe == v & !1
  {
  }

  lemma High21(v: bv64)
    requires (v ^ 0x8000_0000_0000_0000) >= 0x7fff_ffff_fff0_0000 && v & 0x8000_0000_0000_0000 != 0
    ensures (v & 0x1f_fffe) & 0x10_0000 != 0 && (v & 0x1f_fffe) | 0xffff_ffff_ffe0_0000 == v & !1
  {
  }

  lemma Signed21(v: bv64)
    requires InSigned(v, 0x10_0000)
    ensures Extend21(v & 0x1f_fffe) == v & !1
  {
    if v & 0x8000_0000_0000_0000 == 0 {
      Low21(v);
    } else {
      High21(v);
    }
  }

  lemma LowPages(v: bv64)
    requires (v ^ 0x8000_0000_0000_0000) < 0x8000_0000_000f_ffff && v & 0x8000_0000_0000_0000 == 0
    ensures (v & 0x1f_ffff) & 0x10_0000 == 0 && v & 0x1f_ffff == v
  {
  }

  lemma HighPages(v: bv64)
    requires (v ^ 0x8000_0000_0000_0000) >= 0x7fff_ffff_fff0_0000 && v & 0x8000_0000_0000_0000 != 0
    ensures (v & 0x1f_ffff) & 0x10_0000 != 0 && (v & 0x1f_ffff) | 0xffff_ffff_ffe0_0000 == v
  {
  }

  lemma SignedPages(v: bv64)
    requires InSigned(v, 0x10_0000)
    ensures Extend21(v & 0x1f_ffff) == v
  {
    if v & 0x8000_0000_0000_0000 == 0 {
      LowPages(v);
    } else {
      HighPages(v);
    }
  }

  lemma Low28(v: bv64)
    requires (v ^ 0x8000_0000_0000_0000) < 0x8000_0000_07ff_ffff && v & 0x8000_0000_0000_0000 == 0
    ensures (v & 0xfff_fffc) & 0x800_0000 == 0 && v & 0xfff_fffc == v & !3
  {
  }

  lemma High28(v: bv64)
    requires (v ^ 0x8000_0000_0000_0000) >= 0x7fff_ffff_f800_0000 && v & 0x8000_0000_0000_0000 != 0
    ensures (v & 0xfff_fffc) & 0x800_0000 != 0 && (v & 0xfff_fffc) | 0xffff_ffff_f000_0000 == v & !3
  {
  }

  lemma Signed28(v: bv64)
    requires InSigned(v, 0x800_0000)
    ensures Extend28(v & 0xfff_fffc) == v & !3
  {
    if v & 0x8000_0000_0000_0000 == 0 {
      Low28(v);
    } else {
      High28(v);
    }
  }

  lemma Low32(v: bv64)
    requires (v ^ 0x8000_0000_0000_0000) < 0x8000_0000_7fff_ffff && v & 0x8000_0000_0000_0000 == 0
    ensures (v & 0xffff_ffff) & 0x8000_0000 == 0 && v & 0xffff_ffff == v
  {
  }

  lemma High32(v: bv64)
    requires (v ^ 0x8000_0000_0000_0000) >= 0x7fff_ffff_8000_0000 && v & 0x8000_0000_0000_0000 != 0
    ensures (v & 0xffff_ffff) & 0x8000_0000 != 0 && (v & 0xffff_ffff) | 0xffff_ffff_0000_0000 == v
  {
  }

  lemma Signed32(v: bv64)
    requires InSigned(v, 0x8000_0000)
    ensures Extend32(v & 0xffff_ffff) == v
  {
    if v & 0x8000_0000_0000_0000 == 0 {
      Low32(v);
    } else {
      High32(v);
    }
  }

  lemma Even(v: bv64)
    ensures v & !1 == v <==> v & 1 == 0
  {
  }

  lemma Aligned4(v: bv64)
    ensures v & !3 == v <==> v & 3 == 0
  {
  }

  // ---- RISC-V branches and jumps -----------------------------------------------------

  lemma BranchField(i: bv64, imm: bv64)
    ensures BImmediate(Blend(i, 0xfe00_0f80, BranchBits(imm & 0xffff_ffff))) == imm & 0x1ffe
  {
  }

  /** A relocated branch goes exactly prel further, for every even prel that is accepted. */
  lemma BranchReaches(site: bv64, prel: bv64)
    requires Branch(prel).Field?
    ensures BranchOffset(Relocate(site, Branch(prel))) == prel & !1
    ensures BranchOffset(Relocate(site, Branch(prel))) == prel <==> prel & 1 == 0
  {
    BranchField(site, prel);
    Signed13(prel);
    Even(prel);
  }

  lemma JumpField(i: bv64, imm: bv64)
    ensures JImmediate(Blend(i, 0xffff_f000, JumpBits(imm & 0xffff_ffff))) == imm & 0x1f_fffe
  {
  }

  lemma JalReaches(site: bv64, prel: bv64)
    requires Jal(prel).Field?
    ensures JalOffset(Relocate(site, Jal(prel))) == prel & !1
    ensures JalOffset(Relocate(site, Jal(prel))) == prel <==> prel & 1 == 0
  {
    JumpField(site, prel);
    Signed21(prel);
    Even(prel);
  }

  // ---- Split immediates --------------------------------------------------------------

  /** What two instructions can add up to: the 32-bit range moved down by half of the lower part's. */
  predicate InPairRange(prel: bv64) {
    FitsSigned(prel + 0x800, 0x8000_0000)
  }

  lemma SumWithoutCarry(p: bv64)
    requires p & 0x800 == 0
    ensures ((p + 0x800) & 0xffff_ffff_ffff_f000) + (p & 0xfff) == p
  {
  }

  lemma SumWithCarry(p: bv64)
    requires p & 0x800 != 0
    ensures ((p + 0x800) & 0xffff_ffff_ffff_f000) + ((p & 0xfff) | 0xffff_ffff_ffff_f000) == p
  {
  }

  lemma LowBits(p: bv64)
    ensures (p & 0xfff) & 0x800 == p & 0x800
  {
  }

  /** The signed lower part makes up for rounding the upper part. */
  lemma LowerCompletes(p: bv64)
    ensures Plus(Round(p + 0x800), Extend12(Low(p))) == p
  {
    LowBits(p);
    if p & 0x800 == 0 {
      SumWithoutCarry(p);
    } else {
      SumWithCarry(p);
    }
  }

  lemma TopBit(y: bv64)
    ensures Top(y) & 0x8000_0000 == y & 0x8000_0000
  {
  }

  lemma ClearFits(y: bv64)
    requires y & 0x8000_0000 == 0 && FitsSigned(y, 0x8000_0000)
    ensures y & 0xffff_f000 == y & 0xffff_ffff_ffff_f000
  {
  }

  lemma SetFits(y: bv64)
    requires y & 0x8000_0000 != 0 && FitsSigned(y, 0x8000_0000)
    ensures (y & 0xffff_f000) | 0xffff_ffff_0000_0000 == y & 0xffff_ffff_ffff_f000
  {
  }

  lemma ClearLost(y: bv64)
    requires y & 0x8000_0000 == 0 && !FitsSigned(y, 0x8000_0000)
    ensures y & 0xffff_f000 != y & 0xffff_ffff_ffff_f000
  {
  }

  lemma SetLost(y: bv64)
    requires y & 0x8000_0000 != 0 && !FitsSigned(y, 0x8000_0000)
    ensures (y & 0xffff_f000) | 0xffff_ffff_0000_0000 != y & 0xffff_ffff_ffff_f000
  {
  }

  lemma TopClear(y: bv64)
    requires y & 0x8000_0000 == 0 && FitsSigned(y, 0x8000_0000)
    ensures Top(y) == Round(y)
  {
    ClearFits(y);
  }

  lemma TopSet(y: bv64)
    requires y & 0x8000_0000 != 0 && FitsSigned(y, 0x8000_0000)
    ensures Top(y) | 0xffff_ffff_0000_0000 == Round(y)
  {
    SetFits(y);
  }

  lemma UpperClear(y: bv64)
    requires y & 0x8000_0000 == 0 && FitsSigned(y, 0x8000_0000)
    ensures Extend32(Top(y)) == Round(y)
  {
    TopBit(y);
    TopClear(y);
  }

  lemma UpperSet(y: bv64)
    requires y & 0x8000_0000 != 0 && FitsSigned(y, 0x8000_0000)
    ensures Extend32(Top(y)) == Round(y)
  {
    TopBit(y);
    TopSet(y);
  }

  lemma UpperLost(y: bv64)
    requires !FitsSigned(y, 0x8000_0000)
    ensures Extend32(Top(y)) != Round(y)
  {
    TopBit(y);
    if y & 0x8000_0000 == 0 {
      ClearLost(y);
    } else {
      SetLost(y);
    }
  }

  /** Twenty bits hold the upper part exactly if the rounded offset fits in 32 bits. */
  lemma UpperExact(y: bv64)
    ensures Extend32(Top(y)) == Round(y) <==> FitsSigned(y, 0x8000_0000)
  {
    if !FitsSigned(y, 0x8000_0000) {
      UpperLost(y);
    } else if y & 0x8000_0000 == 0 {
      UpperClear(y);
    } else {
      UpperSet(y);
    }
  }

  lemma SumLess(u: bv64, l: bv64)
    ensures Minus(u + l, l) == u
  {
  }

  lemma MinusPlus(u: bv64, l: bv64)
    ensures Minus(Plus(u, l), l) == u
  {
    assert Plus(u, l) == u + l;
    SumLess(u, l);
  }

  /** The two parts add up to the offset exactly if it is in range. */
  lemma PairSums(p: bv64)
    ensures Plus(Extend32(Top(p + 0x800)), Extend12(Low(p))) == p <==> InPairRange(p)
  {
    LowerCompletes(p);
    UpperExact(p + 0x800);
    MinusPlus(Extend32(Top(p + 0x800)), Extend12(Low(p)));
    MinusPlus(Round(p + 0x800), Extend12(Low(p)));
  }

  // The fields as the decoders see them.

  lemma CallUpper(site: bv64, h: bv64, lo: bv64)
    ensures ((((h << 12) | (((lo & 0xfff) << 20) << 32)) & 0xfff0_0000_ffff_f000) | (site & !0xfff0_0000_ffff_f000))
              & 0xffff_f000 == (h << 12) & 0xffff_f000
  {
  }

  lemma CallLower(site: bv64, h: bv64, lo: bv64)
    requires h < 0x10_0000
    ensures (((((((h << 12) | (((lo & 0xfff) << 20) << 32)) & 0xfff0_0000_ffff_f000)
               | (site & !0xfff0_0000_ffff_f000)) >> 32) >> 20) & 0xfff) == lo & 0xfff
  {
  }

  lemma Hi20Bits(y: bv64)
    ensures (((y & 0xffff_ffff) >> 12) << 12) & 0xffff_f000 == y & 0xffff_f000
    ensures ((y & 0xffff_ffff) >> 12) < 0x10_0000
  {
  }

  lemma LowKept(p: bv64, h: bv64)
    ensures (p - (h << 12)) & 0xfff == p & 0xfff
  {
  }

  lemma CallUpperField(site: bv64, prel: bv64)
    ensures Top(Relocate(site, Call(prel))) == Top(prel + 0x800)
  {
    CallUpper(site, Hi20(prel), prel - (Hi20(prel) << 12));
    Hi20Bits(prel + 0x800);
  }

  lemma CallLowerField(site: bv64, prel: bv64)
    ensures Low((Relocate(site, Call(prel)) >> 32) >> 20) == Low(prel)
  {
    Hi20Bits(prel + 0x800);
    CallLower(site, Hi20(prel), prel - (Hi20(prel) << 12));
    LowKept(prel, Hi20(prel));
  }

  /** A relocated auipc and jalr lead exactly prel further if and only if prel is in their range; nothing checks that it is. */
  lemma CallReaches(site: bv64, prel: bv64)
    ensures CallOffset(Relocate(site, Call(prel))) == prel <==> InPairRange(prel)
  {
    CallUpperField(site, prel);
    CallLowerField(site, prel);
    PairSums(prel);
  }

  /** An offset that fits in 32 bits but not in the range of a pair goes astray, without any report. */
  lemma CallOutOfRange(site: bv64)
    ensures FitsSigned(0x7fff_f800, 0x8000_0000) && CallOffset(Relocate(site, Call(0x7fff_f800))) != 0x7fff_f800
  {
    CallReaches(site, 0x7fff_f800);
  }

  lemma HiBits(site: bv64, h: bv64)
    ensures (((h << 12) & 0xffff_f000) | (site & !0xffff_f000)) & 0xffff_f000 == (h << 12) & 0xffff_f000
  {
  }

  lemma HiField(site: bv64, prel: bv64)
    ensures Top(Relocate(site, PcrelHi20(prel))) == Top(prel + 0x800)
  {
    Hi20Bits(prel + 0x800);
    HiBits(site, Hi20(prel));
  }

  lemma LoIField(site: bv64, off: bv64)
    ensures Low(Relocate(site, Lo12I(off)) >> 20) == Low(off)
  {
  }

  lemma LoSField(site: bv64, off: bv64)
    ensures (((Relocate(site, Lo12S(off)) >> 25) & 0x7f) << 5) | ((Relocate(site, Lo12S(off)) >> 7) & 0x1f) == Low(off)
  {
  }

  /** auipc with an I-type partner: loads, addi and jalr. */
  lemma PairReachesI(hiSite: bv64, loSite: bv64, prel: bv64)
    ensures Plus(UImmediate(Relocate(hiSite, PcrelHi20(prel))), IImmediate(Relocate(loSite, Lo12I(prel)))) == prel
      <==> InPairRange(prel)
  {
    HiField(hiSite, prel);
    LoIField(loSite, prel);
    PairSums(prel);
  }

  /** auipc with an S-type partner: stores. */
  lemma PairReachesS(hiSite: bv64, loSite: bv64, prel: bv64)
    ensures Plus(UImmediate(Relocate(hiSite, PcrelHi20(prel))), SImmediate(Relocate(loSite, Lo12S(prel)))) == prel
      <==> InPairRange(prel)
  {
    HiField(hiSite, prel);
    LoSField(loSite, prel);
    PairSums(prel);
  }

  // ---- Parts from different offsets --------------------------------------------------

  lemma LowerPositive(p: bv64)
    requires p & 0x800 == 0
    ensures Low(Extend12(Low(p))) == Low(p)
  {
    LowBits(p);
  }

  lemma LowerNegative(p: bv64)
    requires p & 0x800 != 0
    ensures Low(Extend12(Low(p))) == Low(p)
  {
    LowBits(p);
    assert ((p & 0xfff) | 0xffff_ffff_ffff_f000) & 0xfff == p & 0xfff;
  }

  lemma LowerTells(p: bv64)
    ensures Low(Extend12(Low(p))) == Low(p)
  {
    if p & 0x800 == 0 {
      LowerPositive(p);
    } else {
      LowerNegative(p);
    }
  }

  lemma TopLow(y: bv64)
    ensures Top(y) & 0xfff == 0 && (Top(y) | 0xffff_ffff_0000_0000) & 0xfff == 0
  {
  }

  lemma UpperLow(y: bv64)
    ensures Low(Extend32(Top(y))) == 0
  {
    TopLow(y);
    hide Top;
  }

  lemma SumLow(u: bv64, l: bv64)
    requires u & 0xfff == 0
    ensures (u + l) & 0xfff == l & 0xfff
  {
  }

  /** The upper part leaves the low twelve bits to the lower one. */
  lemma PairLow(u: bv64, l: bv64)
    requires Low(u) == 0
    ensures Low(Plus(u, l)) == Low(l)
  {
    assert Plus(u, l) == u + l;
    SumLow(u, l);
  }

  /**
   If the lower part was made for another offset, the pair leads to the first one's target exactly if that is in
   range and both agree in twelve bits.
   */
  lemma MixedPair(p: bv64, q: bv64)
    ensures Plus(Extend32(Top(p + 0x800)), Extend12(Low(q))) == p <==> InPairRange(p) && Low(p) == Low(q)
  {
    PairSums(p);
    UpperLow(p + 0x800);
    LowerTells(q);
    hide Extend32, Extend12, Top, Low, Plus, InPairRange;
    PairLow(Extend32(Top(p + 0x800)), Extend12(Low(q)));
  }

  lemma MixedReachesI(hiSite: bv64, loSite: bv64, p: bv64, q: bv64)
    ensures Plus(UImmediate(Relocate(hiSite, PcrelHi20(p))), IImmediate(Relocate(loSite, Lo12I(q)))) == p
      <==> InPairRange(p) && Low(p) == Low(q)
  {
    HiField(hiSite, p);
    LoIField(loSite, q);
    MixedPair(p, q);
  }

  lemma MixedReachesS(hiSite: bv64, loSite: bv64, p: bv64, q: bv64)
    ensures Plus(UImmediate(Relocate(hiSite, PcrelHi20(p))), SImmediate(Relocate(loSite, Lo12S(q)))) == p
      <==> InPairRange(p) && Low(p) == Low(q)
  {
    HiField(hiSite, p);
    LoSField(loSite, q);
    MixedPair(p, q);
  }

  // ---- AArch64 -----------------------------------------------------------------------

  lemma ShiftedPositive(v: bv64)
    requires v & 0x8000_0000_0000_0000 == 0
    ensures Asr2(v) & 0x03ff_ffff == (v >> 2) & 0x03ff_ffff
  {
  }

  lemma ShiftedNegative(v: bv64)
    requires v & 0x8000_0000_0000_0000 != 0
    ensures Asr2(v) & 0x03ff_ffff == (v >> 2) & 0x03ff_ffff
  {
  }

  lemma Shifted(v: bv64)
    ensures Asr2(v) & 0x03ff_ffff == (v >> 2) & 0x03ff_ffff
  {
    if v & 0x8000_0000_0000_0000 == 0 {
      ShiftedPositive(v);
    } else {
      ShiftedNegative(v);
    }
  }

  lemma Imm26Bits(site: bv64, a: bv64, v: bv64)
    requires a & 0x03ff_ffff == (v >> 2) & 0x03ff_ffff
    ensures (((a & 0x03ff_ffff) | (site & !0x03ff_ffff)) & 0x03ff_ffff) << 2 == v & 0xfff_fffc
  {
  }

  lemma Imm26Field(site: bv64, v: bv64)
    ensures (Blend(site, 0x03ff_ffff, Asr2(v)) & 0x03ff_ffff) << 2 == v & 0xfff_fffc
  {
    Shifted(v);
    Imm26Bits(site, Asr2(v), v);
  }

  lemma Imm26Reaches(site: bv64, v: bv64)
    requires InSigned(v, 0x800_0000)
    ensures Imm26Offset(Blend(site, 0x03ff_ffff, Asr2(v))) == v & !3
    ensures Imm26Offset(Blend(site, 0x03ff_ffff, Asr2(v))) == v <==> v & 3 == 0
  {
    Imm26Decoded(site, v);
    hide Imm26Offset, Blend, Asr2, InSigned;
    Aligned4(v);
  }

  lemma Imm26Decoded(site: bv64, v: bv64)
    requires InSigned(v, 0x800_0000)
    ensures Imm26Offset(Blend(site, 0x03ff_ffff, Asr2(v))) == v & !3
  {
    Imm26Field(site, v);
    Signed28(v);
  }

  /** A branch in reach goes exactly to its target if and only if that is a multiple of four away. */
  lemma JumpReaches(site: bv64, pc: bv64, syma: bv64, far: Far)
    requires InSigned(Minus(syma, pc), 0x800_0000)
    ensures Jump26(pc, syma, far).Field?
    ensures Imm26Offset(Relocate(site, Jump26(pc, syma, far))) == Minus(syma, pc) <==> Minus(syma, pc) & 3 == 0
  {
    hide Imm26Offset, Blend, Asr2, InSigned, Minus;
    Imm26Reaches(site, Minus(syma, pc));
  }

  /** A branch out of reach goes to the stub that was made for it. */
  lemma FarJumpReaches(site: bv64, pc: bv64, syma: bv64, far: Far)
    requires !InSigned(Minus(syma, pc), 0x800_0000) && Jump26(pc, syma, far).Field?
    ensures far.StubAt? && InSigned(Minus(far.addr, pc), 0x800_0000)
    ensures Imm26Offset(Relocate(site, Jump26(pc, syma, far))) == Minus(far.addr, pc) <==> Minus(far.addr, pc) & 3 == 0
  {
    hide Imm26Offset, Blend, Asr2, InSigned, Minus;
    Imm26Reaches(site, Minus(far.addr, pc));
  }

  /** The stub: movz x16, three movk x16, br x16. */
  function FarStub(sym: bv64): seq<bv64> {
    [0xd280_0010 | ((sym & 0xffff) << 5),
     0xf2a0_0010 | (((sym >> 16) & 0xffff) << 5),
     0xf2c0_0010 | (((sym >> 32) & 0xffff) << 5),
     0xf2e0_0010 | (((sym >> 48) & 0xffff) << 5),
     0xd61f_0200]
  }

  lemma Quarters(v: bv64)
    ensures Joined(v & 0xffff, (v >> 16) & 0xffff, (v >> 32) & 0xffff, (v >> 48) & 0xffff) == v
  {
    assert (v & 0xffff) | (((v >> 16) & 0xffff) << 16) | (((v >> 32) & 0xffff) << 32) | (((v >> 48) & 0xffff) << 48) == v;
  }

  lemma MoveFields(q: bv64)
    ensures Imm16(0xd280_0010 | ((q & 0xffff) << 5)) == q & 0xffff
    ensures Imm16(0xf2a0_0010 | ((q & 0xffff) << 5)) == q & 0xffff
    ensures Imm16(0xf2c0_0010 | ((q & 0xffff) << 5)) == q & 0xffff
    ensures Imm16(0xf2e0_0010 | ((q & 0xffff) << 5)) == q & 0xffff
  {
  }

  lemma StubWords(sym: bv64)
    ensures Moved(0xd280_0010 | ((sym & 0xffff) << 5), 0xf2a0_0010 | (((sym >> 16) & 0xffff) << 5),
                  0xf2c0_0010 | (((sym >> 32) & 0xffff) << 5), 0xf2e0_0010 | (((sym >> 48) & 0xffff) << 5)) == sym
  {
    MoveFields(sym);
    MoveFields(sym >> 16);
    MoveFields(sym >> 32);
    MoveFields(sym >> 48);
    Quarters(sym);
  }

  /** The register that the stub branches to holds the symbol's address. */
  lemma FarStubLoads(sym: bv64)
    ensures var code := FarStub(sym); Moved(code[0], code[1], code[2], code[3]) == sym
  {
    StubWords(sym);
  }

  lemma QuarterField0(site: bv64, syma: bv64)
    ensures Imm16(Relocate(site, Quarter0(syma))) == syma & 0xffff
  {
  }

  lemma QuarterField1(site: bv64, syma: bv64)
    ensures Imm16(Relocate(site, Quarter1(syma))) == (syma >> 16) & 0xffff
  {
  }

  lemma QuarterField2(site: bv64, syma: bv64)
    ensures Imm16(Relocate(site, Quarter2(syma))) == (syma >> 32) & 0xffff
  {
  }

  lemma QuarterField3(site: bv64, syma: bv64)
    ensures Imm16(Relocate(site, Quarter3(syma))) == (syma >> 48) & 0xffff
  {
  }

  lemma QuartersJoin(a: bv64, b: bv64, c: bv64, d: bv64, v: bv64)
    requires a == v & 0xffff && b == (v >> 16) & 0xffff && c == (v >> 32) & 0xffff && d == (v >> 48) & 0xffff
    ensures Joined(a, b, c, d) == v
  {
    Quarters(v);
  }

  /** The four quarters of an absolute address, moved one after the other. */
  lemma MovwReaches(s0: bv64, s1: bv64, s2: bv64, s3: bv64, syma: bv64)
    ensures Moved(Relocate(s0, Quarter0(syma)), Relocate(s1, Quarter1(syma)),
                  Relocate(s2, Quarter2(syma)), Relocate(s3, Quarter3(syma))) == syma
  {
    QuarterField0(s0, syma);
    QuarterField1(s1, syma);
    QuarterField2(s2, syma);
    QuarterField3(s3, syma);
    QuartersJoin(Imm16(Relocate(s0, Quarter0(syma))), Imm16(Relocate(s1, Quarter1(syma))),
                 Imm16(Relocate(s2, Quarter2(syma))), Imm16(Relocate(s3, Quarter3(syma))), syma);
  }

  lemma PageField(site: bv64, pages: bv64)
    ensures var i := Blend(site, 0x60ff_ffe0, PageBits(pages));
      (((i >> 5) & 0x7_ffff) << 2) | ((i >> 29) & 3) == pages & 0x1f_ffff
  {
  }

  lemma PagesPositive(d: bv64)
    requires d & 0xfff == 0 && d & 0x8000_0000_0000_0000 == 0
    ensures Up12(Asr12(d)) == d
  {
  }

  lemma PagesNegative(d: bv64)
    requires d & 0xfff == 0 && d & 0x8000_0000_0000_0000 != 0
    ensures Up12(Asr12(d)) == d
  {
  }

  lemma RoundedDifference(a: bv64, b: bv64)
    ensures Minus(Round(a), Round(b)) & 0xfff == 0
  {
    Multiples(a, b);
  }

  lemma Multiples(a: bv64, b: bv64)
    ensures ((a & 0xffff_ffff_ffff_f000) - (b & 0xffff_ffff_ffff_f000)) & 0xfff == 0
  {
  }

  lemma PagesBack(d: bv64)
    requires d & 0xfff == 0
    ensures Up12(Asr12(d)) == d
  {
    if d & 0x8000_0000_0000_0000 == 0 {
      PagesPositive(d);
    } else {
      PagesNegative(d);
    }
  }

  lemma LessSum(a: bv64, b: bv64)
    ensures Plus(b, a - b) == a
  {
  }

  lemma PlusDifference(a: bv64, b: bv64)
    ensures Plus(b, Minus(a, b)) == a
  {
    assert Minus(a, b) == a - b;
    LessSum(a, b);
  }

  lemma AdrpField(site: bv64, pages: bv64)
    requires InSigned(pages, 0x10_0000)
    ensures AdrpPages(Blend(site, 0x60ff_ffe0, PageBits(pages))) == pages
  {
    PageField(site, pages);
    SignedPages(pages);
  }

  lemma PagesApart(pc: bv64, syma: bv64, pages: bv64)
    requires pages == Asr12(Minus(Round(syma), Round(pc)))
    ensures Plus(Round(pc), Up12(pages)) == Round(syma)
  {
    RoundedDifference(syma, pc);
    PagesBack(Minus(Round(syma), Round(pc)));
    PlusDifference(Round(syma), Round(pc));
  }

  /** adrp computes the page of the symbol. */
  lemma AdrpReaches(site: bv64, pc: bv64, syma: bv64)
    requires AdrPage(pc, syma).Field?
    ensures AdrpPage(pc, Relocate(site, AdrPage(pc, syma))) == Round(syma)
  {
    var pages := Asr12(Minus(Round(syma), Round(pc)));
    AdrpField(site, pages);
    PagesApart(pc, syma, pages);
  }

  lemma Imm12Field(site: bv64, syma: bv64)
    ensures Imm12(Relocate(site, Imm12Of(syma))) == Low(syma)
  {
  }

  lemma RoundPlusLow(v: bv64)
    ensures Plus(Round(v), Low(v)) == v
  {
    assert (v & 0xffff_ffff_ffff_f000) + (v & 0xfff) == v;
  }

  /** adrp and an add, or an unscaled load or store, reach the symbol itself. */
  lemma AdrpAddReaches(adrp: bv64, add: bv64, pc: bv64, syma: bv64)
    requires AdrPage(pc, syma).Field?
    ensures Plus(AdrpPage(pc, Relocate(adrp, AdrPage(pc, syma))), Imm12(Relocate(add, Imm12Of(syma)))) == syma
  {
    AdrpReaches(adrp, pc, syma);
    Imm12Field(add, syma);
    RoundPlusLow(syma);
  }

  /** Scaled loads and stores: right exactly for aligned symbols, if the upper bits that the mask leaves alone were zero. */
  lemma Scaled2(site: bv64, syma: bv64)
    ensures Imm12(Relocate(site, Imm12Of2(syma))) << 1 == Low(syma) <==> site & (0x800 << 10) == 0 && syma & 1 == 0
  {
  }

  lemma Scaled4(site: bv64, syma: bv64)
    ensures Imm12(Relocate(site, Imm12Of4(syma))) << 2 == Low(syma) <==> site & (0xc00 << 10) == 0 && syma & 3 == 0
  {
  }

  lemma Scaled8(site: bv64, syma: bv64)
    ensures Imm12(Relocate(site, Imm12Of8(syma))) << 3 == Low(syma) <==> site & (0xe00 << 10) == 0 && syma & 7 == 0
  {
  }

  lemma Scaled16(site: bv64, syma: bv64)
    ensures Imm12(Relocate(site, Imm12Of16(syma))) << 4 == Low(syma) <==> site & (0xf00 << 10) == 0 && syma & 15 == 0
  {
  }

  // ---- Plain words -------------------------------------------------------------------

  lemma WordBits(site: bv64, v: bv64)
    ensures ((v & 0xffff_ffff) | (site & !0xffff_ffff)) & 0xffff_ffff == v & 0xffff_ffff
  {
  }

  /** A 32-bit field, sign-extended, is the value that was accepted. */
  lemma Signed32Reaches(site: bv64, v: bv64)
    requires Signed32Field(v).Field?
    ensures Extend32(Relocate(site, Signed32Field(v)) & 0xffff_ffff) == v
  {
    WordBits(site, v);
    Signed32(v);
  }

  lemma BelowWord(v: bv64)
    requires v < 0xffff_ffff
    ensures v & 0xffff_ffff == v
  {
  }

  lemma Unsigned32Reaches(site: bv64, v: bv64)
    requires Unsigned32Field(v).Field?
    ensures Relocate(site, Unsigned32Field(v)) & 0xffff_ffff == v
  {
    BelowWord(v);
    WordBits(site, v);
  }

  // ---- Exactly which values the range checks accept -----------------------------------

  lemma Bit13(v: bv64)
    ensures (v & 0x1fff) & 0x1000 == v & 0x1000
  {
  }

  lemma Clear13(v: bv64)
    requires v & 0x1000 == 0
    ensures v & 0x1fff == v <==> FitsSigned(v, 0x1000)
  {
  }

  lemma Set13(v: bv64)
    requires v & 0x1000 != 0
    ensures (v & 0x1fff) | 0xffff_ffff_ffff_e000 == v <==> FitsSigned(v, 0x1000)
  {
  }

  /** A value fits in 13 bits exactly if they, sign-extended, give it back. */
  lemma Fits13(v: bv64)
    ensures Extend13(v & 0x1fff) == v <==> FitsSigned(v, 0x1000)
  {
    Bit13(v);
    if v & 0x1000 == 0 {
      Clear13(v);
    } else {
      Set13(v);
    }
  }

  lemma Checked13(v: bv64)
    ensures InSigned(v, 0x1000) <==> FitsSigned(v, 0x1000) && v != 0xfff
  {
  }

  lemma Bit21(v: bv64)
    ensures (v & 0x1f_ffff) & 0x10_0000 == v & 0x10_0000
  {
  }

  lemma Clear21(v: bv64)
    requires v & 0x10_0000 == 0
    ensures v & 0x1f_ffff == v <==> FitsSigned(v, 0x10_0000)
  {
  }

  lemma Set21(v: bv64)
    requires v & 0x10_0000 != 0
    ensures (v & 0x1f_ffff) | 0xffff_ffff_ffe0_0000 == v <==> FitsSigned(v, 0x10_0000)
  {
  }

  /** A value fits in 21 bits exactly if they, sign-extended, give it back. */
  lemma Fits21(v: bv64)
    ensures Extend21(v & 0x1f_ffff) == v <==> FitsSigned(v, 0x10_0000)
  {
    Bit21(v);
    if v & 0x10_0000 == 0 {
      Clear21(v);
    } else {
      Set21(v);
    }
  }

  lemma Checked21(v: bv64)
    ensures InSigned(v, 0x10_0000) <==> FitsSigned(v, 0x10_0000) && v != 0xf_ffff
  {
  }

  lemma Bit28(v: bv64)
    ensures (v & 0xfff_ffff) & 0x800_0000 == v & 0x800_0000
  {
  }

  lemma Clear28(v: bv64)
    requires v & 0x800_0000 == 0
    ensures v & 0xfff_ffff == v <==> FitsSigned(v, 0x800_0000)
  {
  }

  lemma Set28(v: bv64)
    requires v & 0x800_0000 != 0
    ensures (v & 0xfff_ffff) | 0xffff_ffff_f000_0000 == v <==> FitsSigned(v, 0x800_0000)
  {
  }

  /** A value fits in 28 bits exactly if they, sign-extended, give it back. */
  lemma Fits28(v: bv64)
    ensures Extend28(v & 0xfff_ffff) == v <==> FitsSigned(v, 0x800_0000)
  {
    Bit28(v);
    if v & 0x800_0000 == 0 {
      Clear28(v);
    } else {
      Set28(v);
    }
  }

  lemma Checked28(v: bv64)
    ensures InSigned(v, 0x800_0000) <==> FitsSigned(v, 0x800_0000) && v != 0x7ff_ffff
  {
  }

  lemma Bit32(v: bv64)
    ensures (v & 0xffff_ffff) & 0x8000_0000 == v & 0x8000_0000
  {
  }

  lemma Clear32(v: bv64)
    requires v & 0x8000_0000 == 0
    ensures v & 0xffff_ffff == v <==> FitsSigned(v, 0x8000_0000)
  {
  }

  lemma Set32(v: bv64)
    requires v & 0x8000_0000 != 0
    ensures (v & 0xffff_ffff) | 0xffff_ffff_0000_0000 == v <==> FitsSigned(v, 0x8000_0000)
  {
  }

  /** A value fits in 32 bits exactly if they, sign-extended, give it back. */
  lemma Fits32(v: bv64)
    ensures Extend32(v & 0xffff_ffff) == v <==> FitsSigned(v, 0x8000_0000)
  {
    Bit32(v);
    if v & 0x8000_0000 == 0 {
      Clear32(v);
    } else {
      Set32(v);
    }
  }

  lemma Checked32(v: bv64)
    ensures InSigned(v, 0x8000_0000) <==> FitsSigned(v, 0x8000_0000) && v != 0x7fff_ffff
  {
  }

  /** A branch is accepted for every offset that its 13 bits, sign-extended, give back, except the largest. */
  lemma BranchAccepted(prel: bv64)
    ensures Branch(prel).Field? <==> FitsSigned(prel, 0x1000) && prel != 0xfff
    ensures Branch(prel).Field? <==> Extend13(prel & 0x1fff) == prel && prel != 0xfff
  {
    hide InSigned, FitsSigned, Extend13;
    Checked13(prel);
    Fits13(prel);
  }

  /** jal: 21 bits, except the largest. */
  lemma JalAccepted(prel: bv64)
    ensures Jal(prel).Field? <==> FitsSigned(prel, 0x10_0000) && prel != 0xf_ffff
    ensures Jal(prel).Field? <==> Extend21(prel & 0x1f_ffff) == prel && prel != 0xf_ffff
  {
    hide InSigned, FitsSigned, Extend21;
    Checked21(prel);
    Fits21(prel);
  }

  /** What 28 bits, sign-extended, give back, except the largest. */
  predicate FitsJump(v: bv64) {
    Extend28(v & 0xfff_ffff) == v && v != 0x7ff_ffff
  }

  lemma JumpChecked(v: bv64)
    ensures InSigned(v, 0x800_0000) <==> FitsJump(v)
  {
    hide InSigned, FitsSigned, Extend28;
    Checked28(v);
    Fits28(v);
  }

  /** CALL26 and JUMP26 are accepted exactly if the target is that near, or else the stub made for it is. */
  lemma JumpAccepted(pc: bv64, syma: bv64, far: Far)
    ensures Jump26(pc, syma, far).Field? <==> FitsJump(Minus(syma, pc)) || (far.StubAt? && FitsJump(Minus(far.addr, pc)))
  {
    hide InSigned, FitsJump, Asr2, Minus;
    JumpChecked(Minus(syma, pc));
    if far.StubAt? {
      JumpChecked(Minus(far.addr, pc));
    }
  }

  /** adrp: 21 bits of pages, except the largest. */
  lemma AdrpAccepted(pc: bv64, syma: bv64)
    ensures var pages := Asr12(Minus(Round(syma), Round(pc)));
      && (AdrPage(pc, syma).Field? <==> FitsSigned(pages, 0x10_0000) && pages != 0xf_ffff)
      && (AdrPage(pc, syma).Field? <==> Extend21(pages & 0x1f_ffff) == pages && pages != 0xf_ffff)
  {
    hide InSigned, FitsSigned, Extend21, Asr12, Minus, Round, PageBits;
    var pages := Asr12(Minus(Round(syma), Round(pc)));
    Checked21(pages);
    Fits21(pages);
  }

  /** Signed 32-bit fields: all values that fit, except the largest. */
  lemma Signed32Accepted(v: bv64)
    ensures Signed32Field(v).Field? <==> FitsSigned(v, 0x8000_0000) && v != 0x7fff_ffff
    ensures Signed32Field(v).Field? <==> Extend32(v & 0xffff_ffff) == v && v != 0x7fff_ffff
  {
    hide InSigned, FitsSigned, Extend32;
    Checked32(v);
    Fits32(v);
  }

  /** Unsigned 32-bit fields: all values that fit, except the largest. */
  lemma Unsigned32Accepted(v: bv64)
    ensures Unsigned32Field(v).Field? <==> v & 0xffff_ffff == v && v != 0xffff_ffff
  {
    UnsignedFits(v);
  }

  lemma UnsignedFits(v: bv64)
    ensures v < 0xffff_ffff <==> v & 0xffff_ffff == v && v != 0xffff_ffff
  {
  }
}
