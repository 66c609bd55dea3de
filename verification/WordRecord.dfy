/** The whole record of every word: what `decode` writes into each field, from the bits of the word
    (src/decoder/arm64_decoder.cpp). */
module WordRecord {
  import opened Words
  import opened Decoder
  import opened Targets
  import opened WordTable

  /** `v`, a number below `m`, read in two's complement modulo `m`. */
  function Sext(v: nat, m: nat): int { if 2 * v < m then v else v - m }

  /** Bits 4..0, 9..5 and 20..16. */
  function Low5(w: u32): (r: u8)
    ensures r < 32
  { w % 32 }
  function Mid5(w: u32): (r: u8)
    ensures r < 32
  { w / 0x20 % 32 }
  function High5(w: u32): (r: u8)
    ensures r < 32
  { w / 0x1_0000 % 32 }

  /** Bit 31. */
  function Wide(w: u32): u8 { Group(w) / 4 % 2 }

  function Base(w: u32): DecodedInstr
    requires Table(w).Row?
  { ZeroedInstr.(raw := w, opcode := Table(w).opcode, setsFlags := Table(w).marked) }

  /** Three registers and a shift: logical operations and the shifted additions and subtractions. */
  function ShiftedRecord(w: u32, b: DecodedInstr): DecodedInstr
  {
    b.(rd := Low5(w), rn := Mid5(w), rm := High5(w), shiftType := w / 0x40_0000 % 4, shiftAmount := w / 0x400 % 64,
       size := Wide(w))
  }

  /** The size of an access in bytes. */
  function Scale(w: u32): nat { if Group(w) == 7 then 8 else if Group(w) == 1 then 1 else 2 }

  function MemoryRecord(w: u32, b: DecodedInstr): DecodedInstr
  {
    var m := b.(category := LOAD_STORE, rt := Low5(w), rn := Mid5(w), size := if RegForm(Form(w)) then Wide(w) else 0);
    if Form(w) >= 28 then m.(imm := w / 0x400 % 0x1000 * Scale(w))
    else if 12 <= Form(w) <= 15 then
      var imm9 := Sext(w / 0x1000 % 0x200, 0x200);
      m.(rm := 255, immS := imm9, imm := U64(imm9))
    else m.(rm := High5(w), shiftType := w / 0x1000 % 4)
  }

  function PcRelRecord(w: u32, b: DecodedInstr): DecodedInstr
  {
    if Group(w) == 2 then
      b.(category := LOAD_STORE, rt := Low5(w), rn := 31, immS := Sext(w / 0x20 % 0x8_0000, 0x8_0000), pcRelative := true)
    else
      AdrFields(w);
      var imm21 := Sext(Imm21(w), 0x20_0000);
      b.(category := MOVE, rd := Low5(w), immS := imm21, imm := U64(imm21), pcRelative := true)
  }

  /** A branch by `words` instructions: the offset in bytes, cut to 32 bits. */
  function Bytes(words: int): u32 { U32(4 * words) }

  function TestRecord(w: u32, b: DecodedInstr): DecodedInstr
  {
    b.(category := BRANCH_COND, rn := Low5(w), size := Wide(w), cond := Form(w) % 2, imm := w / 0x8_0000 % 32,
       branchOffset := Bytes(Sext(w / 0x20 % 0x4000, 0x4000)))
  }

  function AddSubRecord(w: u32, b: DecodedInstr): DecodedInstr
  {
    b.(category := INTEGER_ARITH, rd := Low5(w), rn := Mid5(w), rm := 255, size := Wide(w),
       imm := w / 0x400 % 0x1000 * (if w / 0x40_0000 % 2 == 1 then 0x1000 else 1))
  }

  function MoveRecord(w: u32, b: DecodedInstr): DecodedInstr
  { b.(category := MOVE, rd := Low5(w), imm := w / 0x20 % 0x1_0000, size := Wide(w)) }

  function BitfieldRecord(w: u32, b: DecodedInstr): DecodedInstr
  {
    b.(category := INTEGER_ARITH, rd := Low5(w), rn := Mid5(w), rm := 255, size := Wide(w),
       imm := w / 0x1_0000 % 64, immS := if b.opcode in {0x07, 0x08} then w / 0x400 % 64 else 0)
  }

  function BranchRecord(w: u32, b: DecodedInstr): DecodedInstr
  {
    var near := Bytes(Sext(w % 0x8_0000, 0x8_0000));
    match Group(w)
    case 2 => b.(category := BRANCH_COND, cond := w % 16, branchOffset := near)
    case 5 => b.(category := BRANCH_COND, rn := Mid5(w), size := 1, branchOffset := near)
    case 6 =>
      if RegisterBranch(w) then b.(category := BRANCH, rn := Mid5(w))
      else b.(category := SYSTEM, rd := if w == 0xD503201F then 0 else Low5(w), size := 1)
    case _ => b.(category := BRANCH, branchOffset := Bytes(Sext(w % 0x400_0000, 0x400_0000)))
  }

  /** The record of a word that decodes. */
  function Record(w: u32): DecodedInstr
    requires Table(w).Row?
  {
    var f, b := Form(w), Base(w);
    if LogicalForm(w) then ShiftedRecord(w, b).(category := LOGICAL)
    else if 4 <= f <= 7 then ShiftedRecord(w, b).(category := INTEGER_ARITH)
    else if MemoryForm(w) then MemoryRecord(w, b)
    else if PcRelForm(Group(w), f) then PcRelRecord(w, b)
    else if 12 <= f <= 15 then TestRecord(w, b)
    else if f == 17 then AddSubRecord(w, b)
    else if f == 18 then MoveRecord(w, b)
    else if f == 19 then BitfieldRecord(w, b)
    else BranchRecord(w, b)
  }

  // ----- the fields -----

  predicate FieldForms(w: u32)
  {
    && Bits(w, 4, 0) == Low5(w) && Bits(w, 9, 5) == Mid5(w) && Bits(w, 20, 16) == High5(w)
    && Bits(w, 23, 22) == w / 0x40_0000 % 4 && Bits(w, 15, 10) == w / 0x400 % 64 && Bits(w, 31, 31) == Wide(w)
    && Bits(w, 21, 10) == w / 0x400 % 0x1000 && Bits(w, 20, 12) == w / 0x1000 % 0x200 && Bits(w, 13, 12) == w / 0x1000 % 4
    && Bits(w, 22, 22) == w / 0x40_0000 % 2 && Bits(w, 20, 5) == w / 0x20 % 0x1_0000 && Bits(w, 21, 16) == w / 0x1_0000 % 64
    && Bits(w, 23, 5) == w / 0x20 % 0x8_0000 && Bits(w, 18, 5) == w / 0x20 % 0x4000 && Bits(w, 23, 19) == w / 0x8_0000 % 32
    && Bits(w, 3, 0) == w % 16
  }

  lemma PlainForms(w: u32)
    ensures Bits(w, 4, 0) == Low5(w) && Bits(w, 9, 5) == Mid5(w) && Bits(w, 20, 16) == High5(w)
    ensures Bits(w, 23, 22) == w / 0x40_0000 % 4 && Bits(w, 15, 10) == w / 0x400 % 64 && Bits(w, 31, 31) == w / 0x8000_0000 % 2
    ensures Bits(w, 21, 10) == w / 0x400 % 0x1000 && Bits(w, 20, 12) == w / 0x1000 % 0x200 && Bits(w, 13, 12) == w / 0x1000 % 4
  {}

  lemma MoreForms(w: u32)
    ensures Bits(w, 22, 22) == w / 0x40_0000 % 2 && Bits(w, 20, 5) == w / 0x20 % 0x1_0000 && Bits(w, 21, 16) == w / 0x1_0000 % 64
    ensures Bits(w, 23, 5) == w / 0x20 % 0x8_0000 && Bits(w, 18, 5) == w / 0x20 % 0x4000 && Bits(w, 23, 19) == w / 0x8_0000 % 32
    ensures Bits(w, 3, 0) == w % 16
  {}

  lemma TopBit(w: u32)
    ensures w / 0x8000_0000 % 2 == Wide(w)
  {
    assert w / 0x8000_0000 == Top(w) / 128 by { Nest(w, 0x100_0000, 128); }
    assert Top(w) / 128 == Group(w) / 4 by { Nest(Top(w), 32, 4); }
    hide Top, Group;
  }

  lemma FieldsAre(w: u32)
    ensures FieldForms(w)
  {
    PlainForms(w);
    MoreForms(w);
    TopBit(w);
    hide Bits, Group, Low5, Mid5, High5;
  }

  lemma Sext26(w: u32)
    ensures SignExtend(w, 26) == Sext(w % 0x400_0000, 0x400_0000)
  {}

  lemma Sext19(w: u32)
    ensures SignExtend(w, 19) == Sext(w % 0x8_0000, 0x8_0000)
  {}

  lemma Sext21(v: u32)
    requires v < 0x20_0000
    ensures SignExtend(v, 21) == Sext(v, 0x20_0000)
  {}

  lemma Sext19Of(v: u32)
    requires v < 0x8_0000
    ensures SignExtend(v, 19) == Sext(v, 0x8_0000)
  {}

  lemma Sext14(v: u32)
    requires v < 0x4000
    ensures SignExtend(v, 14) == Sext(v, 0x4000)
  {}

  lemma Sext9(v: u32)
    requires v < 0x200
    ensures SignExtend(v, 9) == Sext(v, 0x200)
  {}

  // ----- group by group -----

  /** The attempt succeeds with the record, up to opcode and flag mark. */
  predicate Fills(a: Attempt, r: DecodedInstr) { a.ok ==> a.out == r.(opcode := a.out.opcode, setsFlags := a.out.setsFlags) }

  const Any := ZeroedInstr

  lemma LogicalFills(w: u32, out: DecodedInstr)
    requires LogicalForm(w) && Untouched(w, out)
    ensures Fills(DecodeDataProcReg(w, out), ShiftedRecord(w, Any.(raw := w)).(category := LOGICAL))
  {
    RegPartsHold(w);
    FieldsAre(w);
    hide Bits, Top, Group, Form, Wide, Low5, Mid5, High5;
  }

  lemma ShiftedFills(w: u32, out: DecodedInstr)
    requires 4 <= Form(w) <= 7 && Untouched(w, out)
    ensures Fills(DecodeDataProcReg(w, out), ShiftedRecord(w, Any.(raw := w)).(category := INTEGER_ARITH))
  {
    RegPartsHold(w);
    FieldsAre(w);
    hide Bits, Top, Group, Form, Wide, Low5, Mid5, High5;
  }

  lemma AddSubFills(w: u32)
    requires Form(w) == 17
    ensures Fills(DecodeDataProcImm(w, Start(w)), AddSubRecord(w, Any.(raw := w)))
  {
    ImmParts(w);
    FieldsAre(w);
    hide Bits, Top, Group, Form, Wide, Low5, Mid5, High5;
  }

  lemma ImmParts(w: u32)
    ensures Bits(w, 30, 24) == 32 * (Group(w) % 4) + Form(w) && Bits(w, 28, 23) / 2 == Form(w)
  {
    Parts(w);
    hide Bits, Top, Group, Form;
  }

  lemma MoveFills(w: u32)
    requires Form(w) == 18
    ensures Fills(DecodeDataProcImm(w, Start(w)), MoveRecord(w, Any.(raw := w)))
  {
    ImmParts(w);
    FieldsAre(w);
    hide Bits, Top, Group, Form, Wide, Low5, Mid5, High5;
  }

  lemma BitfieldFills(w: u32, out: DecodedInstr)
    requires Form(w) == 19 && Untouched(w, out)
    ensures var a := DecodeDataProcImm(w, out); Fills(a, BitfieldRecord(w, Any.(raw := w, opcode := a.out.opcode)))
  {
    ImmParts(w);
    FieldsAre(w);
    hide Bits, Top, Group, Form, Wide, Low5, Mid5, High5;
  }

  lemma PcRelFills(w: u32)
    requires PcRelForm(Group(w), Form(w))
    ensures Fills(DecodePcRel(w, Start(w)), PcRelRecord(w, Any.(raw := w)))
  {
    hide Bits, Top, Group, Form, Wide, Low5, Mid5, High5, SignExtend, Sext, Imm21;
    PcRelParts(w);
    FieldsAre(w);
    AdrFields(w);
    Sext21(Imm21(w));
    Sext19Of(w / 0x20 % 0x8_0000);
  }

  lemma PcRelParts(w: u32)
    requires PcRelForm(Group(w), Form(w))
    ensures Group(w) == 0 ==> Bits(w, 31, 24) == 0x10
    ensures Group(w) >= 4 ==> IsAdrpByte(Bits(w, 31, 24))
    ensures Group(w) == 2 ==> Bits(w, 31, 26) == 0x16 && Bits(w, 31, 24) / 4 == 0x16 && Bits(w, 31, 30) == 1
  {
    Parts(w);
    hide Bits, Top, Group, Form;
  }

  lemma TestFills(w: u32)
    ensures Fills(DecodeTestBranch(w, Start(w)), TestRecord(w, Any.(raw := w)))
  {
    hide Bits, Top, Group, Form, Wide, Low5, Mid5, High5, SignExtend, Sext;
    FormBit(w);
    FieldsAre(w);
    Sext14(w / 0x20 % 0x4000);
  }

  /** The offsets of the branch forms, and the fields only some of them have. */
  predicate BranchBits(w: u32)
  {
    && Bits(w, 31, 25) == 16 * Group(w) + Form(w) / 2 && Bits(w, 31, 26) == 8 * Group(w) + Form(w) / 4
    && Bits(w, 9, 5) == Mid5(w) && Bits(w, 3, 0) == w % 16 && (Group(w) == 5 ==> Bits(w, 31, 31) == 1)
    && (RegisterBranch(w) ==> Bits(w, 15, 10) == 0 && Bits(w, 4, 0) == 0)
    && SignExtend(w, 26) == Sext(w % 0x400_0000, 0x400_0000) && SignExtend(w, 19) == Sext(w % 0x8_0000, 0x8_0000)
  }

  lemma BranchBitsHold(w: u32)
    ensures BranchBits(w)
  {
    assert Group(w) == 5 ==> Wide(w) == 1;
    hide Bits, Top, Group, Form, Wide, Low5, Mid5, High5, SignExtend, Sext;
    BranchPartsHold(w);
    FieldsAre(w);
    Sext26(w);
    Sext19(w);
  }

  lemma BranchFills(w: u32, out: DecodedInstr)
    requires 20 <= Form(w) <= 23 && Untouched(w, out) && out.size == 0
    requires Group(w) in {0, 4, 5} || (Group(w) == 2 && Form(w) <= 21) || (Group(w) == 6 && RegisterBranch(w))
    ensures Fills(DecodeBranch(w, out), BranchRecord(w, Any.(raw := w)))
  {
    hide Bits, Top, Group, Form, Wide, Low5, Mid5, High5, SignExtend, Sext, RegisterBranch;
    BranchBitsHold(w);
  }

  lemma SystemFills(w: u32, out: DecodedInstr)
    requires Untouched(w, out) && out.size == 1 && Group(w) == 6 && !RegisterBranch(w)
    ensures Fills(DecodeSystem(w, out), BranchRecord(w, Any.(raw := w)))
  {
    FieldsAre(w);
    hide Bits, Top, Group, Form, Wide, Low5, Mid5, High5, SignExtend, Sext;
  }

  lemma MemoryFills(w: u32, out: DecodedInstr)
    requires MemoryForm(w) && Untouched(w, out) && out.size == (if RegForm(Form(w)) then Wide(w) else 0)
    ensures Fills(DecodeLoadStore(w, out), MemoryRecord(w, Any.(raw := w)))
  {
    hide P2, Bits, Top, Group, Form, Wide, Low5, Mid5, High5, SignExtend, Sext, RegForm;
    MemoryParts(w);
    FieldsAre(w);
    Sext9(w / 0x1000 % 0x200);
    Scaling(w);
    assert SignExtend(Bits(w, 20, 12), 9) == Sext(w / 0x1000 % 0x200, 0x200);
  }

  lemma MemoryParts(w: u32)
    ensures Bits(w, 28, 26) == Form(w) / 4 && Form(w) < 32 && Bits(w, 31, 30) == Group(w) / 2 && Group(w) < 8
    ensures Bits(w, 31, 25) == 16 * Group(w) + Form(w) / 2
  {
    Parts(w);
    hide Bits, Top, Group, Form;
  }

  lemma Scaling(w: u32)
    requires Group(w) in {1, 2, 3, 7}
    ensures U32(w / 0x400 % 0x1000 * P2(Group(w) / 2)) == w / 0x400 % 0x1000 * Scale(w)
  {
    assert P2(0) == 1 && P2(1) == 2 && P2(3) == 8;
    hide P2, Group;
  }

  // ----- every word -----

  /** `a` is the decoding of `w` that the table and the record give. */
  predicate DecodesAs(a: Attempt, w: u32)
  { (a.ok <==> Table(w).Row?) && (Table(w).Row? ==> a.out == Record(w)) }

  /** Opcode and mark from the table, all else from the record of the group. */
  lemma Filled(a: Attempt, w: u32, r: DecodedInstr)
    requires Reads(a, Table(w)) && Fills(a, r)
    requires Table(w).Row? ==> r.(opcode := Table(w).opcode, setsFlags := Table(w).marked) == Record(w)
    ensures DecodesAs(a, w)
  { hide Table, Record; }

  lemma TableRow(w: u32)
    requires Table(w).Row?
    ensures Base(w) == Any.(raw := w, opcode := Table(w).opcode, setsFlags := Table(w).marked)
  {}

  lemma RegisterIs(w: u32)
    requires LogicalForm(w) || 4 <= Form(w) <= 7
    ensures DecodesAs(Decode(w), w)
  {
    hide Decode, DecodeDataProcReg, Table, Top, Group, Form, Wide, Low5, Mid5, High5, RestRouted, ShiftedRow, DecodesAs;
    TableHolds(w);
    if LogicalForm(w) {
      LogicalRouted(w);
      LogicalFills(w, Start(w));
      Filled(Decode(w), w, ShiftedRecord(w, Any.(raw := w)).(category := LOGICAL));
    } else {
      ShiftedFilled(w);
      Filled(Decode(w), w, ShiftedRecord(w, Any.(raw := w)).(category := INTEGER_ARITH));
    }
  }

  lemma ShiftedFilled(w: u32)
    requires 4 <= Form(w) <= 7
    ensures Fills(Decode(w), ShiftedRecord(w, Any.(raw := w)).(category := INTEGER_ARITH))
  {
    hide Decode, DecodeDataProcReg, DecodeDataProcImm, Top, Group, Form, ShiftedRow, RestRouted, ShiftedRecord;
    ShiftedRowHolds(w);
    if ShiftedRow(w).Row? {
      Ranges(w);
      Routing(w);
      RegShifted(w, Start(w));
      ShiftedFills(w, Start(w));
    }
  }

  lemma MemoryIs(w: u32)
    requires MemoryForm(w)
    ensures DecodesAs(Decode(w), w)
  {
    hide Decode, DecodeLoadStore, Table, Top, Group, Form, Wide, Low5, Mid5, High5, DecodesAs, Sext;
    TableHolds(w);
    MemoryRouted(w);
    StartSize(w);
    MemoryFills(w, RestStart(w));
    MemoryOnly(w);
    Filled(Decode(w), w, MemoryRecord(w, Any.(raw := w)));
  }

  lemma MemoryOnly(w: u32)
    requires MemoryForm(w)
    ensures !LogicalForm(w) && !(4 <= Form(w) <= 7)
  { Ranges(w); hide Bits, Top, Group, Form; }

  lemma StartSize(w: u32)
    ensures Untouched(w, RestStart(w)) && RestStart(w).size == if RegForm(Form(w)) then Wide(w) else 0
  { SizeBit(w); hide Bits, Form, RegForm, Wide; }

  lemma PcRelIs(w: u32)
    requires PcRelForm(Group(w), Form(w))
    ensures DecodesAs(Decode(w), w)
  {
    hide Decode, DecodePcRel, Table, Top, Group, Form, Wide, Low5, Mid5, High5, DecodesAs, Sext, Imm21;
    TableHolds(w);
    PcRelRowHolds(w);
    PcRelFills(w);
    Filled(Decode(w), w, PcRelRecord(w, Any.(raw := w)));
  }

  lemma TestIs(w: u32)
    requires Group(w) == 3 && 12 <= Form(w) <= 15
    ensures DecodesAs(Decode(w), w)
  {
    hide Decode, DecodeTestBranch, Table, Top, Group, Form, Wide, Low5, Mid5, High5, DecodesAs, Sext;
    TableHolds(w);
    TestRowHolds(w);
    TestFills(w);
    Filled(Decode(w), w, TestRecord(w, Any.(raw := w)));
  }

  lemma ImmediateIs(w: u32)
    requires Form(w) in {17, 18}
    ensures DecodesAs(Decode(w), w)
  {
    hide Decode, DecodeDataProcImm, Table, Top, Group, Form, Wide, Low5, Mid5, High5, DecodesAs, MoveRow;
    TableHolds(w);
    if Form(w) == 17 {
      ImmediateRouted(w);
      AddSubFills(w);
      Filled(Decode(w), w, AddSubRecord(w, Any.(raw := w)));
    } else {
      MoveReads(w);
      MoveFills(w);
      Filled(Decode(w), w, MoveRecord(w, Any.(raw := w)));
    }
  }

  lemma BitfieldIs(w: u32)
    requires Form(w) == 19
    ensures DecodesAs(Decode(w), w)
  {
    hide Decode, DecodeDataProcImm, Table, Top, Group, Form, Wide, Low5, Mid5, High5, DecodesAs, BitfieldRow;
    TableHolds(w);
    BitfieldFilled(w);
    Filled(Decode(w), w, BitfieldRecord(w, Any.(raw := w, opcode := Decode(w).out.opcode)));
  }

  lemma BitfieldFilled(w: u32)
    requires Form(w) == 19
    ensures Fills(Decode(w), BitfieldRecord(w, Any.(raw := w, opcode := Decode(w).out.opcode)))
  {
    hide Decode, DecodeDataProcImm, Top, Group, Form, BitfieldRecord, Bits;
    BitfieldRowHolds(w);
    if Decode(w).ok {
      BitfieldGroups(w);
      BitfieldReads(w, Tried(w));
      BitfieldRouted(w);
      BitfieldFills(w, Tried(w));
    }
  }

  lemma BitfieldGroups(w: u32)
    requires BitfieldRow(w).Row?
    ensures Group(w) in {0, 4, 6}
  { hide Group; }

  lemma BitfieldRouted(w: u32)
    requires Form(w) == 19 && Group(w) in {0, 4, 6}
    ensures DecodeDataProcImm(w, Tried(w)).ok ==> Decode(w) == DecodeDataProcImm(w, Tried(w))
  {
    Ranges(w);
    RestReached(w);
    hide Decode, DecodeDataProcReg, DecodeDataProcImm, DecodeBranch, DecodeLoadStore, Bits, Top, Group, Form;
  }

  lemma BranchIs(w: u32)
    requires 20 <= Form(w) <= 23 && Table(w).Row?
    ensures DecodesAs(Decode(w), w)
  {
    hide Decode, DecodeBranch, DecodeLast, DecodeSystem, Table, Top, Group, Form, Wide, Low5, Mid5, High5, DecodesAs, Sext;
    TableHolds(w);
    BranchFilled(w);
    Filled(Decode(w), w, BranchRecord(w, Any.(raw := w)));
  }

  lemma BranchFilled(w: u32)
    requires 20 <= Form(w) <= 23 && Table(w).Row?
    ensures Fills(Decode(w), BranchRecord(w, Any.(raw := w)))
  {
    Ranges(w);
    if Group(w) in {0, 4, 5} {
      Routing(w);
      BranchFills(w, Start(w));
    } else {
      RestReached(w);
      BranchPartsHold(w);
      if Group(w) == 2 || RegisterBranch(w) { BranchFills(w, Start(w)); } else { LateFills(w); }
    }
    hide Decode, DecodeDataProcReg, DecodeDataProcImm, DecodeBranch, DecodePcRel, DecodeLoadStore, DecodeTestBranch,
      DecodeLast, BranchParts, BranchRecord, SystemRow, Bits, Top, Group, Form;
  }

  /** The last attempt finds a system instruction, with the size bit left by the one before it. */
  lemma LastIsSystem(w: u32)
    requires 20 <= Form(w) <= 23 && Group(w) == 6
    ensures DecodeLast(w, Start(w)).ok ==> DecodeLast(w, Start(w)) == DecodeSystem(w, Tried(w))
  {
    hide DecodeDataProcImm, DecodeDataProcReg, DecodeSystem, Bits, Top, Group, Form;
    Ranges(w);
    LastRanges(w);
    ImmElsewhere(w, Start(w));
  }

  lemma LateFills(w: u32)
    requires 20 <= Form(w) <= 23 && Group(w) == 6 && !RegisterBranch(w)
    ensures Fills(DecodeLast(w, Start(w)), BranchRecord(w, Any.(raw := w)))
  {
    hide DecodeLast, DecodeSystem, BranchRecord, Top, Group, Form, RegisterBranch, Fills;
    LastIsSystem(w);
    TriedSize(w);
    SystemFills(w, Tried(w));
    if !DecodeLast(w, Start(w)).ok { NotFilled(DecodeLast(w, Start(w)), BranchRecord(w, Any.(raw := w))); }
  }

  lemma TriedSize(w: u32)
    requires Group(w) == 6
    ensures Untouched(w, Tried(w)) && Tried(w).size == 1
  {
    assert Wide(w) == 1;
    hide Wide, Group, Bits;
    SizeBit(w);
  }

  lemma SizeBit(w: u32)
    ensures Bits(w, 31, 31) == Wide(w)
  { TopBit(w); hide Wide; }

  lemma NotFilled(a: Attempt, r: DecodedInstr)
    requires !a.ok
    ensures Fills(a, r)
  {}

  lemma RefusedIs(w: u32)
    requires Table(w).Refused?
    ensures DecodesAs(Decode(w), w)
  {
    TableHolds(w);
    hide Decode, Table, Record;
  }

  /** The decoder, word by word: for every 32-bit word, whether it decodes, and every field of the record. */
  lemma DecodeIs(w: u32)
    ensures DecodesAs(Decode(w), w)
  {
    hide Decode, Table, Top, Group, Form, Bits, DecodesAs;
    Ranges(w);
    var g, f := Group(w), Form(w);
    if Table(w).Refused? { RefusedIs(w); }
    else if LogicalForm(w) || 4 <= f <= 7 { RegisterIs(w); }
    else if MemoryForm(w) { MemoryIs(w); }
    else if PcRelForm(g, f) { PcRelIs(w); }
    else if g == 3 && 12 <= f <= 15 { TestIs(w); }
    else if f in {17, 18} { ImmediateIs(w); }
    else if f == 19 { BitfieldIs(w); }
    else if 20 <= f <= 23 { BranchIs(w); }
    else { NothingElse(w); RefusedThere(w); }
  }

  lemma RefusedThere(w: u32)
    requires !Decode(w).ok
    ensures Table(w).Refused?
  { TableHolds(w); hide Decode, Table; }
}
