/** From instruction words to branch targets, page addresses and immediates: decoder routing and IR
    building together (src/decoder/arm64_decoder.cpp, src/ir/ir_builder.cpp), against the encodings
    of section C6.2 of the Arm ARM. */
module Targets {
  import opened Words
  import opened Decoder
  import opened IR
  import opened Guest
  import Interp

  // ----- the fields of a word -----

  /** The top byte of a word. */
  function Top(w: u32): nat { w / 0x100_0000 }

  /** The fields inside the top byte. */
  predicate TopFields(w: u32)
  {
    var b := Top(w);
    && b < 256 && Bits(w, 31, 24) == b && Bits(w, 31, 25) == b / 2 && Bits(w, 31, 26) == b / 4
    && Bits(w, 31, 29) == b / 32 && Bits(w, 31, 30) == b / 64 && Bits(w, 30, 29) == b / 32 % 4
    && Bits(w, 30, 24) == b % 128 && Bits(w, 28, 24) == b % 32 && Bits(w, 28, 26) == b / 4 % 8
  }

  lemma TopShifts(w: u32)
    ensures var b := Top(w);
            && b < 256 && w / 0x200_0000 == b / 2 && w / 0x400_0000 == b / 4
            && w / 0x2000_0000 == b / 32 && w / 0x4000_0000 == b / 64
  {
    Nest(w, 0x100_0000, 2);
    Nest(w, 0x100_0000, 4);
    Nest(w, 0x100_0000, 32);
    Nest(w, 0x100_0000, 64);
  }

  lemma TopFieldsHold(w: u32)
    ensures TopFields(w)
  {
    TopShifts(w);
    TopForms(w);
    hide Bits;
  }

  /** The definition of `bits` at constant positions. */
  lemma TopForms(w: u32)
    ensures Bits(w, 31, 24) == w / 0x100_0000 % 256 && Bits(w, 31, 25) == w / 0x200_0000 % 128
    ensures Bits(w, 31, 26) == w / 0x400_0000 % 64 && Bits(w, 31, 29) == w / 0x2000_0000 % 8
    ensures Bits(w, 31, 30) == w / 0x4000_0000 % 4 && Bits(w, 30, 29) == w / 0x2000_0000 % 4
    ensures Bits(w, 30, 24) == w / 0x100_0000 % 128 && Bits(w, 28, 24) == w / 0x100_0000 % 32
    ensures Bits(w, 28, 26) == w / 0x400_0000 % 8
  {}

  lemma LowForms(w: u32)
    ensures Bits(w, 30, 21) == w / 0x20_0000 % 1024 && Bits(w, 30, 22) == w / 0x40_0000 % 512
    ensures Bits(w, 28, 23) == w / 0x80_0000 % 64
  {}

  /** The wider fields that reach below the top byte. */
  lemma LowFields(w: u32)
    ensures Bits(w, 30, 21) / 8 == Top(w) % 128 && Bits(w, 30, 22) / 4 == Top(w) % 128 && Bits(w, 28, 23) / 2 == Top(w) % 32
  {
    LowForms(w);
    Nest(w, 0x20_0000, 8);
    Nest(w, 0x40_0000, 4);
    Nest(w, 0x80_0000, 2);
    Nest(w / 0x20_0000, 8, 128);
    Nest(w / 0x40_0000, 4, 128);
    Nest(w / 0x80_0000, 2, 32);
    hide Bits;
  }

  /** The low `n` bits of a field read as a signed number. */
  function Signed(v: nat, n: nat): int
    requires n > 0
  { if v % Pow2(n) < Pow2(n - 1) then v % Pow2(n) else v % Pow2(n) - Pow2(n) }

  lemma Pow2Small()
    ensures Pow2(20) == 0x10_0000 && Pow2(21) == 0x20_0000 && Pow2(25) == 0x200_0000 && Pow2(26) == 0x400_0000
  {
    Pow2Byte(0); Pow2Byte(8); Pow2Byte(16);
    assert Pow2(16) == 0x1_0000 && Pow2(24) == 0x100_0000;
    assert Pow2(18) == 4 * Pow2(16);
    assert Pow2(20) == 4 * Pow2(18);
    assert Pow2(26) == 4 * Pow2(24);
  }

  // ----- B and BL -----

  /** The top six bits are 000101 or 100101. */
  predicate IsBranchWord(w: u32) { w / 0x400_0000 in {0x05, 0x25} }

  predicate Links(w: u32) { w / 0x400_0000 == 0x25 }

  /** Such a word is routed to the branch decoder. */
  lemma BranchRouted(w: u32)
    requires IsBranchWord(w)
    ensures Decode(w) == DecodeBranch(w, ZeroedInstr.(raw := w))
  {
    hide DecodeBranch, DecodePcRel, DecodeTestBranch, DecodeDataProcImm, DecodeDataProcReg, DecodeRest, Bits;
    TopFieldsHold(w);
    TopShifts(w);
  }

  lemma TargetArith(pc: u64, words: i32)
    requires -0x200_0000 <= words < 0x200_0000
    ensures SignedTarget(pc, BranchOffset(words)) == U64(pc + 4 * words)
  {
    assert BranchOffset(words) == if words >= 0 then 4 * words else 4 * words + TWO_32;
    assert AsI32(BranchOffset(words)) == 4 * words;
  }

  /** The block leaves to `target`; BL links the next pc first. */
  predicate JumpsTo(d: Attempt, link: bool, pc: u64, target: u64)
  {
    var irs := BuildInstr(d.out, pc);
    var last := irs[|irs| - 1];
    && d.ok && EndsBlock(d.out) && last.imm == target
    && (if !link then |irs| == 1 && last.op.JMP?
        else |irs| == 2 && last.op.CALL? && irs[0].op.SET_REG? && irs[0].dest == 30 && irs[0].imm == U64(pc + 4))
  }

  lemma JumpBuilt(d: DecodedInstr, link: bool, pc: u64)
    requires d.category == BRANCH && d.opcode == if link then 0x51 else 0x50
    ensures JumpsTo(Attempt(true, d), link, pc, SignedTarget(pc, d.branchOffset))
  {}

  lemma BranchFields(w: u32, out: DecodedInstr)
    requires IsBranchWord(w)
    ensures DecodeBranch(w, out) == Attempt(true, out.(category := BRANCH,
              opcode := if Links(w) then 0x51 else 0x50, branchOffset := BranchOffset(SignExtend(w, 26))))
  {
    hide Bits, SignExtend, BranchOffset;
    TopFieldsHold(w);
    TopShifts(w);
  }

  lemma Signed26(w: u32)
    ensures SignExtend(w, 26) == Signed(w, 26) && -0x200_0000 <= Signed(w, 26) < 0x200_0000
  { Pow2Small(); hide Pow2; }

  /** B and BL: for every pc the target is pc + 4 * signed(imm26). */
  lemma BranchTarget(w: u32, pc: u64)
    requires IsBranchWord(w)
    ensures JumpsTo(Decode(w), Links(w), pc, U64(pc + 4 * Signed(w, 26)))
  {
    hide Decode, JumpsTo, SignedTarget, BuildInstr, DecodeBranch, SignExtend, Signed, BranchOffset, Links, IsBranchWord;
    BranchRouted(w);
    BranchFields(w, ZeroedInstr.(raw := w));
    Signed26(w);
    TargetArith(pc, SignExtend(w, 26));
    JumpBuilt(Decode(w).out, Links(w), pc);
  }

  // ----- ADR and ADRP -----

  /** The 21-bit immediate of ADR and ADRP: 19 high bits, 2 low bits. */
  function Imm21(w: u32): nat { 4 * (w / 32 % 0x8_0000) + w / 0x2000_0000 % 4 }

  /** Bits 28..24 are 10000: ADR, or ADRP when bit 31 is set. */
  predicate IsAdr(w: u32) { Top(w) % 32 == 0x10 }

  predicate IsPage(w: u32) { Top(w) >= 128 }

  lemma AdrRouted(w: u32)
    requires IsAdr(w) && (IsPage(w) || Top(w) == 0x10)
    ensures Decode(w) == DecodePcRel(w, ZeroedInstr.(raw := w))
    ensures if IsPage(w) then IsAdrpByte(Bits(w, 31, 24)) else Bits(w, 31, 24) == 0x10
  {
    hide DecodePcRel, DecodeTestBranch, DecodeDataProcImm, DecodeDataProcReg, DecodeRest, DecodeBranch, Bits;
    TopFieldsHold(w);
    hide Top;
  }

  lemma AdrFields(w: u32)
    ensures 4 * Bits(w, 23, 5) + Bits(w, 30, 29) == Imm21(w) < 0x20_0000
  { assert Bits(w, 23, 5) == w / 32 % 0x8_0000 && Bits(w, 30, 29) == w / 0x2000_0000 % 4; hide Bits; }

  lemma Signed21(v: u32)
    requires v < 0x20_0000
    ensures SignExtend(v, 21) == Signed(v, 21)
  { Pow2Small(); hide Pow2; }

  /** One operation that sets register `dest` to `value`. */
  predicate SetsTo(d: Attempt, pc: u64, dest: int, value: u64)
  {
    var irs := BuildInstr(d.out, pc);
    d.ok && |irs| == 1 && irs[0].op.MOV_IMM? && irs[0].dest == dest && irs[0].imm == value
  }

  lemma PcRelBuilt(d: DecodedInstr, pc: u64)
    requires d.opcode in {0x24, 0x25}
    ensures SetsTo(Attempt(true, d), pc, d.rd, U64(if d.opcode == 0x24 then pc + d.immS else pc - pc % 4096 + 4096 * d.immS))
  {}

  lemma PcRelFields(w: u32, out: DecodedInstr)
    requires Bits(w, 31, 24) == 0x10 || IsAdrpByte(Bits(w, 31, 24))
    ensures var a := DecodePcRel(w, out);
            a.ok && a.out.opcode == (if Bits(w, 31, 24) == 0x10 then 0x24 else 0x25) && a.out.rd == w % 32
            && Imm21(w) < 0x20_0000 && a.out.immS == SignExtend(Imm21(w), 21)
  {
    hide SignExtend, Imm21, Bits;
    AdrFields(w);
    AddSubForms(w);
  }

  /** ADRP loads page(pc) + 4096 * signed(imm21) for every pc. */
  lemma PageTarget(w: u32, pc: u64)
    requires IsAdr(w) && IsPage(w)
    ensures SetsTo(Decode(w), pc, w % 32, U64(pc - pc % 4096 + 4096 * Signed(Imm21(w), 21)))
  {
    hide Decode, Pow2, Signed, SignExtend, Imm21, IsAdr, SetsTo, BuildInstr, DecodePcRel, Bits;
    AdrRouted(w);
    PcRelFields(w, ZeroedInstr.(raw := w));
    Signed21(Imm21(w));
    PcRelBuilt(Decode(w).out, pc);
  }

  lemma AdrNotReg(w: u32, out: DecodedInstr)
    requires Top(w) in {0x30, 0x50, 0x70}
    ensures !DecodeDataProcReg(w, out).ok
  {
    hide Bits;
    TopFieldsHold(w);
    LowFields(w);
  }

  lemma AdrNotMemory(w: u32, out: DecodedInstr)
    requires Top(w) in {0x30, 0x50, 0x70}
    ensures !DecodeRest(w, out).ok
  {
    hide DecodeLast, DecodeDataProcImm, DecodeBranch, Bits;
    TopFieldsHold(w);
    LowFields(w);
  }

  lemma AdrRefused(w: u32)
    requires Top(w) in {0x30, 0x50, 0x70}
    ensures !Decode(w).ok
  {
    hide DecodePcRel, DecodeTestBranch, DecodeDataProcImm, DecodeDataProcReg, DecodeRest, DecodeBranch, Bits;
    var out := ZeroedInstr.(raw := w);
    TopFieldsHold(w);
    AdrNotReg(w, out);
    AdrNotMemory(w, DecodeDataProcReg(w, out).out);
    hide Top;
  }

  lemma LowBits(w: u32)
    requires IsAdr(w) && !IsPage(w)
    ensures Imm21(w) % 4 == Top(w) / 32
    ensures Top(w) == 0x10 || Top(w) in {0x30, 0x50, 0x70}
  { TopShifts(w); }

  /** ADR decodes exactly when the two low bits of its offset are zero; it then loads
      pc + signed(imm21). */
  lemma AdrDecodes(w: u32, pc: u64)
    requires IsAdr(w) && !IsPage(w)
    ensures if Imm21(w) % 4 == 0 then SetsTo(Decode(w), pc, w % 32, U64(pc + Signed(Imm21(w), 21))) else !Decode(w).ok
  {
    hide Decode, Pow2, Signed, SignExtend, SetsTo, BuildInstr, DecodePcRel, Imm21, Bits, Top;
    LowBits(w);
    if Top(w) == 0x10 {
      AdrRouted(w);
      PcRelFields(w, ZeroedInstr.(raw := w));
      Signed21(Imm21(w));
      PcRelBuilt(Decode(w).out, pc);
    } else {
      AdrRefused(w);
    }
  }

  // ----- ADD and SUB with an immediate -----

  /** Bits 28..23 are 100010. */
  predicate IsAddSubImm(w: u32) { w / 0x80_0000 % 64 == 0x22 }

  lemma AddSubTop(w: u32)
    requires IsAddSubImm(w)
    ensures Top(w) % 32 == 0x11 && Bits(w, 28, 23) == 0x22
  { LowFields(w); LowForms(w); hide Bits, Top; }

  lemma AddSubNotReg(w: u32, out: DecodedInstr)
    requires IsAddSubImm(w)
    ensures DecodeDataProcReg(w, out) == Fail(out.(size := Bits(w, 31, 31)))
  {
    hide Bits, IsAddSubImm;
    AddSubTop(w);
    TopFieldsHold(w);
    LowFields(w);
    hide Top;
  }

  lemma AddSubForm(w: u32)
    requires IsAddSubImm(w)
    ensures AddSubImmForm(Bits(w, 30, 24)) && Bits(w, 28, 24) == 0x11 && Bits(w, 28, 23) == 0x22
    ensures Bits(w, 31, 24) % 32 == 0x11 && Bits(w, 31, 25) % 16 == 8 && Bits(w, 31, 26) % 8 == 4
    ensures Bits(w, 30, 24) in (if w / 0x4000_0000 % 2 == 1 then {0x51, 0x71} else {0x11, 0x31})
  {
    hide Bits, IsAddSubImm, Top;
    AddSubTop(w);
    TopFieldsHold(w);
    assert w / 0x4000_0000 == Top(w) / 64 by { TopShifts(w); }
    AddSubByte(Top(w));
  }

  lemma AddSubByte(b: nat)
    requires b < 256 && b % 32 == 0x11
    ensures b % 128 in (if b / 64 % 2 == 1 then {0x51, 0x71} else {0x11, 0x31}) && b / 2 % 16 == 8 && b / 4 % 8 == 4
  {
    var t := b / 32;
    DivUnique(b, 2, 16 * t + 8, 1);
    DivUnique(b, 4, 8 * t + 4, 1);
    DivUnique(16 * t + 8, 16, t, 8);
    DivUnique(8 * t + 4, 8, t, 4);
    Nest(b, 32, 2);
    Nest(b, 32, 4);
    assert b % 128 == 32 * (t % 4) + 0x11 by { DivUnique(b, 128, t / 4, 32 * (t % 4) + 0x11); }
  }

  lemma AddSubRouted(w: u32)
    requires IsAddSubImm(w)
    ensures Decode(w) == DecodeDataProcImm(w, ZeroedInstr.(raw := w))
  {
    AddSubForm(w);
    var out := ZeroedInstr.(raw := w);
    AddSubNotReg(w, out);
    assert DecodeDataProcImm(w, out.(size := Bits(w, 31, 31))) == DecodeDataProcImm(w, out);
    hide DecodePcRel, DecodeTestBranch, DecodeDataProcImm, DecodeDataProcReg, DecodeBranch, DecodeLoadStore, DecodeLast,
      Bits, IsAddSubImm;
  }

  /** The operation, registers and shifted immediate of the word. The flag bit is taken from bit 30,
      which says "subtract", and not from bit 29, which says "set flags": it is right exactly when
      the two bits agree. */
  predicate AddSubResult(d: Attempt, w: u32, pc: u64)
  {
    var imm12 := w / 1024 % 4096;
    var amount := if w / 0x40_0000 % 2 == 1 then 4096 * imm12 else imm12;
    var irs := BuildInstr(d.out, pc);
    && d.ok && d.out.opcode == w / 0x4000_0000 % 2
    && d.out.rd == w % 32 && d.out.rn == w / 32 % 32 && d.out.imm == amount
    && (d.out.setsFlags == (w / 0x2000_0000 % 2 == 1) <==> w / 0x4000_0000 % 2 == w / 0x2000_0000 % 2)
    && |irs| == 1 && irs[0].op == (if w / 0x4000_0000 % 2 == 1 then SUB else ADD)
    && irs[0].dest == w % 32 && irs[0].src1 == w / 32 % 32 && irs[0].src2 == IR_IMM && irs[0].imm == amount
  }

  lemma AddSubForms(w: u32)
    ensures Bits(w, 4, 0) == w % 32 && Bits(w, 9, 5) == w / 32 % 32 && Bits(w, 21, 10) == w / 1024 % 4096
    ensures Bits(w, 22, 22) == w / 0x40_0000 % 2 && Bits(w, 30, 30) == w / 0x4000_0000 % 2
  {}

  /** Every add/subtract-immediate word yields its registers, its shifted immediate and its
      operation. */
  lemma AddSubImmediate(w: u32, pc: u64)
    requires IsAddSubImm(w)
    ensures AddSubResult(Decode(w), w, pc)
  {
    hide Decode, Bits, IsAddSubImm;
    AddSubRouted(w);
    AddSubForm(w);
    AddSubForms(w);
  }

  // ----- 64-bit LDR and STR with an unsigned offset -----

  /** Bits 31..22 are 1111100101 (LDR) or 1111100100 (STR). */
  predicate IsUnsignedOffset(w: u32) { w / 0x40_0000 in {0x3E4, 0x3E5} }

  lemma UnsignedFields(w: u32)
    requires IsUnsignedOffset(w)
    ensures Top(w) == 0xF9 && Bits(w, 22, 22) == w / 0x40_0000 - 0x3E4
  {
    Nest(w, 0x40_0000, 4);
    AddSubForms(w);
    hide Bits;
  }

  lemma UnsignedNotReg(w: u32, out: DecodedInstr)
    requires IsUnsignedOffset(w)
    ensures DecodeDataProcReg(w, out) == Fail(out.(size := Bits(w, 31, 31)))
  {
    hide Bits, IsUnsignedOffset, Top;
    UnsignedFields(w);
    TopFieldsHold(w);
    LowFields(w);
  }

  /** The form is taken for a register offset: the bits of the offset are read as a register number
      and a shift, and the displacement is dropped. */
  predicate ReadAsRegister(a: Attempt, w: u32)
  {
    && a.ok && a.out.opcode == (if w / 0x40_0000 == 0x3E5 then 0x63 else 0x73)
    && a.out.rt == w % 32 && a.out.rn == w / 32 % 32 && a.out.imm == 0 && a.out.immS == 0 && !a.out.pcRelative
    && a.out.rm == w / 0x1_0000 % 32 && a.out.shiftType == w / 0x1000 % 4
  }

  lemma OffsetForms(w: u32)
    ensures Bits(w, 20, 16) == w / 0x1_0000 % 32 && Bits(w, 13, 12) == w / 0x1000 % 4
  {}

  lemma UnsignedRead(w: u32, out: DecodedInstr)
    requires IsUnsignedOffset(w) && out.immS == 0 && !out.pcRelative
    ensures ReadAsRegister(DecodeLoadStore(w, out), w)
  {
    hide Bits, Top;
    UnsignedFields(w);
    TopFieldsHold(w);
    AddSubForms(w);
    OffsetForms(w);
  }

  lemma UnsignedRouted(w: u32)
    requires IsUnsignedOffset(w)
    ensures ReadAsRegister(Decode(w), w)
  {
    hide DecodePcRel, DecodeTestBranch, DecodeDataProcImm, DecodeDataProcReg, DecodeBranch, DecodeLoadStore,
      DecodeLast, Bits, IsUnsignedOffset, ReadAsRegister, Top;
    UnsignedFields(w);
    TopFieldsHold(w);
    LowFields(w);
    var out := ZeroedInstr.(raw := w);
    UnsignedNotReg(w, out);
    UnsignedRead(w, Fail(out.(size := Bits(w, 31, 31))).out);
  }

  lemma SameOffset(base: u64, a: u64, b: u64)
    ensures U64(base + a) == U64(base + b) <==> a == b
  {}

  /** The access goes to base + 8 * imm12, as the encoding says. */
  predicate AddressAsEncoded(a: Attempt, w: u32, c: CPUContext)
  { Interp.AccessAddr(a.out, c) == U64(c.x[w / 32 % 32] + 8 * (w / 1024 % 4096)) }

  /** The register the offset bits happen to name, shifted, holds the offset. */
  predicate OffsetInRegister(w: u32, c: CPUContext)
  { w / 0x1_0000 % 32 < 31 && U64(c.x[w / 0x1_0000 % 32] * Pow2(w / 0x1000 % 4)) == 8 * (w / 1024 % 4096) }

  /** An offset whose bits name register 31 is not zero. */
  lemma OffsetBits(w: u32)
    ensures w / 1024 % 4096 == 0 ==> w / 0x1_0000 % 32 == 0
  {
    var z := w / 0x1_0000;
    assert z == w / 1024 / 64 by { Nest(w, 1024, 64); }
    assert z % 64 == w / 1024 % 4096 / 64 by { Nest(w / 1024, 64, 64); }
    if w / 1024 % 4096 == 0 { DivUnique(z, 32, 2 * (z / 64), 0); }
  }

  lemma RegisterRead(a: Attempt, w: u32, c: CPUContext)
    requires ReadAsRegister(a, w)
    ensures AddressAsEncoded(a, w, c) <==> OffsetInRegister(w, c)
  {
    hide Pow2;
    var imm12: u64 := w / 1024 % 4096;
    OffsetBits(w);
    SameOffset(c.x[a.out.rn], Interp.AccessOffset(a.out, c), 8 * imm12);
  }

  /** An unsigned-offset access goes where the encoding says exactly in the states in which a register
      it does not name happens to hold the offset. */
  lemma UnsignedOffsetMisread(w: u32, c: CPUContext)
    requires IsUnsignedOffset(w)
    ensures AddressAsEncoded(Decode(w), w, c) <==> OffsetInRegister(w, c)
  {
    hide Decode, AddressAsEncoded, OffsetInRegister, ReadAsRegister;
    UnsignedRouted(w);
    RegisterRead(Decode(w), w, c);
  }

  // ----- B.cond, CBZ and CBNZ -----

  /** B.cond, or CBZ and CBNZ on a 64-bit register. */
  predicate IsCondWord(w: u32) { Top(w) in {0x54, 0xB4, 0xB5} }

  lemma CondRouted(w: u32)
    requires IsCondWord(w)
    ensures Decode(w) == DecodeBranch(w, ZeroedInstr.(raw := w))
  {
    hide DecodeBranch, DecodePcRel, DecodeTestBranch, DecodeDataProcImm, DecodeDataProcReg, DecodeLoadStore,
      DecodeLast, Bits;
    TopFieldsHold(w);
    LowFields(w);
    hide Top;
  }

  /** CBZ and CBNZ on a 32-bit register do not decode. */
  lemma NarrowCompareRefused(w: u32)
    requires Top(w) in {0x34, 0x35}
    ensures !Decode(w).ok
  {
    hide DecodePcRel, DecodeTestBranch, DecodeDataProcImm, DecodeDataProcReg, DecodeBranch, DecodeLast, Bits;
    TopFieldsHold(w);
    LowFields(w);
    hide Top;
  }

  /** The branch leaves to `target` when taken. */
  predicate BranchesTo(d: Attempt, pc: u64, target: u64)
  {
    var irs := BuildInstr(d.out, pc);
    d.ok && irs[|irs| - 1].op.JMP_COND? && irs[|irs| - 1].imm == target
  }

  lemma CondBuilt(w: u32, out: DecodedInstr, pc: u64)
    requires IsCondWord(w)
    ensures DecodeBranch(w, out).ok
    ensures forall t: u64 :: BranchesTo(DecodeBranch(w, out), pc, t) <==> t == U64(pc + BranchOffset(SignExtend(w, 19)))
  {
    hide Bits, SignExtend, BranchOffset;
    TopFieldsHold(w);
    hide Top;
  }

  /** The offset field and the bits the decoder reads in its place hold the same non-negative number. */
  predicate OffsetsAgree(w: u32) { w % 0x8_0000 == w / 32 % 0x8_0000 && w % 0x8_0000 < 0x4_0000 }

  lemma Pow2Nineteen()
    ensures Pow2(18) == 0x4_0000 && Pow2(19) == 0x8_0000
  {
    Pow2Byte(0); Pow2Byte(8);
    assert Pow2(18) == 4 * Pow2(16);
  }

  lemma Offset19(low: nat, field: nat)
    requires low < 0x8_0000 && field < 0x8_0000
    ensures var s := if low < 0x4_0000 then low else low - 0x8_0000;
            var t := if field < 0x4_0000 then field else field - 0x8_0000;
            U64(U32(4 * s)) == U64(4 * t) <==> low == field && low < 0x4_0000
  {}

  lemma ShiftedEqual(pc: u64, a: int, b: int)
    ensures U64(pc + a) == U64(pc + b) <==> U64(a) == U64(b)
  {}

  /** The offset is taken from bits 18..0 instead of bits 23..5, and zero-extended: the branch goes to
      pc + 4 * signed(imm19) if and only if the two fields hold the same non-negative number. */
  lemma CondOffsetMisread(w: u32, pc: u64)
    requires IsCondWord(w)
    ensures Decode(w).ok && (BranchesTo(Decode(w), pc, U64(pc + 4 * Signed(w / 32, 19))) <==> OffsetsAgree(w))
  {
    hide Decode, DecodeBranch, BranchesTo, IsCondWord, Top, U64, U32;
    CondRouted(w);
    CondBuilt(w, ZeroedInstr.(raw := w), pc);
    Pow2Nineteen();
    hide Pow2;
    Offset19(w % 0x8_0000, w / 32 % 0x8_0000);
    ShiftedEqual(pc, BranchOffset(SignExtend(w, 19)), 4 * Signed(w / 32, 19));
  }
}
