/** The decoder as a table: what each of the 2^32 words becomes (src/decoder/arm64_decoder.cpp). */
module WordTable {
  import opened Words
  import opened Decoder
  import opened Targets

  /** The opcode and flag mark of a word that decodes. */
  datatype Row = Refused | Row(opcode: u8, marked: bool)

  function Plain(opcode: u8): Row { Row(opcode, false) }

  /** Bits 31..29. */
  function Group(w: u32): nat { Top(w) / 32 }

  /** Bits 28..24. */
  function Form(w: u32): nat { Top(w) % 32 }

  /** Forms 0 to 3 and 8 to 11: logical operations on registers. LDP and STP are among them. */
  function LogicalRow(group: nat, form: nat): Row
  {
    if group == 0 then
      if form == 1 then Plain(0x11) else if form == 10 then Row(0x16, true) else if form == 11 then Row(0x17, true) else Plain(0x10)
    else if group == 1 then
      if form == 10 then Plain(0x12) else if form == 11 then Plain(0x13) else Plain(0x10)
    else
      if form == 8 then Plain(0x14) else if form == 9 then Plain(0x15) else Plain(0x10)
  }

  predicate LoadWord(w: u32) { w / 0x40_0000 % 2 == 1 }

  /** Loads and stores: group 1 takes a byte, 2 and 3 a halfword, 7 eight bytes; bit 22 says "load". */
  function MemoryRow(w: u32): Row
  { Plain((if LoadWord(w) then 0x60 else 0x70) + (if Group(w) == 7 then 3 else if Group(w) == 1 then 0 else 1)) }

  function ShiftedRow(w: u32): Row
  {
    if w / 0x20_0000 % 8 != 4 then Refused
    else if Top(w) in {0x05, 0x85} then Plain(0x00)
    else if Top(w) in {0x06, 0x46, 0x86, 0xC6} then Plain(0x01)
    else Refused
  }

  function MoveRow(w: u32): Row
  {
    if w / 0x80_0000 % 2 == 0 || Group(w) == 5 then Refused
    else Plain(match Group(w) % 4 case 0 => 0x21 case 1 => 0x00 case 2 => 0x22 case _ => 0x23)
  }

  function BitfieldRow(w: u32): Row
  {
    var immr, imms := w / 0x1_0000 % 64, w / 0x400 % 64;
    if Group(w) !in {0, 4, 6} then Refused
    else if w / 0x80_0000 % 2 == 0 then Plain(if imms == 63 then 0x04 else 0x07)
    else Plain(if imms == 63 then 0x05 else if imms == 63 - immr then 0x06 else 0x08)
  }

  /** A register branch has zeros in bits 15..10 and 4..0. */
  predicate RegisterBranch(w: u32) { w / 0x400 % 64 == 0 && w % 32 == 0 }

  function SystemRow(w: u32): Row
  {
    if w == 0xD503201F then Plain(0x90)
    else Plain(match w / 0x100 % 16 case 0 => 0x94 case 1 => 0x95 case 5 => 0x91 case 6 => 0x92 case 7 => 0x93 case _ => 0x90)
  }

  /** Group 6, behind the branch attempt. */
  function LateRow(w: u32): Row { if Form(w) == 21 && w / 0x40_0000 % 4 == 0 then SystemRow(w) else Refused }

  /** Forms 20 to 23. */
  function BranchRow(w: u32): Row
  {
    match Group(w)
    case 0 => Plain(0x50)
    case 4 => Plain(0x51)
    case 2 => if Form(w) <= 21 then Plain(0x54) else Refused
    case 5 => if Form(w) <= 21 then Plain(0x55 + Form(w) - 20) else Refused
    case 6 => if RegisterBranch(w) then Plain(if w / 32 % 32 == 30 then 0x53 else 0x52)
              else LateRow(w)
    case _ => Refused
  }

  function Table(w: u32): Row
  {
    var group, form := Group(w), Form(w);
    if form <= 3 || 8 <= form <= 11 then
      if group % 4 < 3 then LogicalRow(group % 4, form) else if form >= 8 then MemoryRow(w) else Refused
    else if form <= 7 then ShiftedRow(w)
    else if form <= 15 then
      if group in {1, 2, 7} then MemoryRow(w) else if group == 3 then Plain(0x57 + form % 2) else Refused
    else if form == 16 then if group == 0 then Plain(0x24) else if group >= 4 then Plain(0x25) else Refused
    else if form == 17 then Row(group / 2 % 2, group / 2 % 2 == 1)
    else if form == 18 then MoveRow(w)
    else if form == 19 then BitfieldRow(w)
    else if form <= 23 then BranchRow(w)
    else if group in {1, 3, 7} then MemoryRow(w)
    else if group == 2 then if form <= 27 then Plain(0x63) else MemoryRow(w)
    else Refused
  }

  /** The attempt is what the row says. */
  predicate Reads(a: Attempt, r: Row)
  { (a.ok <==> r.Row?) && (r.Row? ==> a.out.opcode == r.opcode && a.out.setsFlags == r.marked) }

  function Start(w: u32): DecodedInstr { ZeroedInstr.(raw := w) }

  /** `d` with the size bit, as the first attempt of the register decoder leaves it. */
  function Tried(w: u32): DecodedInstr { ZeroedInstr.(raw := w, size := Bits(w, 31, 31)) }

  /** The fields of the top byte, and those that reach below it, by group and form. */
  predicate ByParts(w: u32)
  {
    var g, f := Group(w), Form(w);
    && g < 8 && f < 32 && Top(w) == 32 * g + f
    && Bits(w, 31, 24) == 32 * g + f && Bits(w, 31, 25) == 16 * g + f / 2 && Bits(w, 31, 26) == 8 * g + f / 4
    && Bits(w, 31, 29) == g && Bits(w, 31, 30) == g / 2 && Bits(w, 30, 29) == g % 4
    && Bits(w, 30, 24) == 32 * (g % 4) + f && Bits(w, 28, 24) == f && Bits(w, 28, 26) == f / 4
    && Bits(w, 30, 21) / 8 == 32 * (g % 4) + f && Bits(w, 30, 22) / 4 == 32 * (g % 4) + f && Bits(w, 28, 23) / 2 == f
  }

  lemma SplitByte(g: nat, f: nat)
    requires g < 8 && f < 32
    ensures var b := 32 * g + f;
            b / 2 == 16 * g + f / 2 && b / 4 == 8 * g + f / 4 && b / 64 == g / 2 && b % 128 == 32 * (g % 4) + f
            && b / 4 % 8 == f / 4
  {}

  lemma Parts(w: u32)
    ensures ByParts(w)
  {
    hide Bits;
    TopFieldsHold(w);
    LowFields(w);
    assert Top(w) == 32 * Group(w) + Form(w);
    SplitByte(Group(w), Form(w));
    hide Top;
  }

  lemma Ranges(w: u32)
    ensures Group(w) < 8 && Form(w) < 32 && Bits(w, 28, 23) / 2 == Form(w)
  {
    Parts(w);
    hide Bits, Top, Group, Form;
  }

  lemma LastRanges(w: u32)
    ensures Bits(w, 30, 29) == Group(w) % 4 && Bits(w, 31, 25) == 16 * Group(w) + Form(w) / 2
  {
    Parts(w);
    hide Bits, Top, Group, Form;
  }

  // ----- routing -----

  predicate PcRelForm(g: nat, f: nat) { (f == 16 && (g == 0 || g >= 4)) || (g == 2 && 24 <= f <= 27) }

  predicate RegForm(f: nat) { f <= 11 || 16 <= f <= 19 || f == 24 || f == 25 }

  /** `decode` by group and form. */
  function Routed(w: u32): Attempt
  {
    var g, f, out := Group(w), Form(w), Start(w);
    if PcRelForm(g, f) then DecodePcRel(w, out)
    else if g == 3 && 12 <= f <= 15 then DecodeTestBranch(w, out)
    else if g == 5 then
      if f == 17 then DecodeDataProcImm(w, out) else if RegForm(f) then DecodeDataProcReg(w, out) else DecodeBranch(w, out)
    else if g in {0, 4} && 20 <= f <= 23 then DecodeBranch(w, out)
    else
      var first := if RegForm(f) then DecodeDataProcReg(w, out) else Attempt(false, out);
      if first.ok then first else RestRouted(w, first.out)
  }

  /** `decode` behind the register decoder. */
  function RestRouted(w: u32, out: DecodedInstr): Attempt
  {
    var g, f := Group(w), Form(w);
    if f == 17 || Bits(w, 28, 23) == 0x25 then DecodeDataProcImm(w, out)
    else if g == 2 && 20 <= f <= 21 then DecodeBranch(w, out)
    else if g == 6 && 20 <= f <= 23 && Bits(w, 15, 10) == 0 && Bits(w, 4, 0) == 0 then DecodeBranch(w, out)
    else if g in {1, 2, 3, 7} then DecodeLoadStore(w, out)
    else DecodeLast(w, out)
  }

  lemma RestRouting(w: u32, out: DecodedInstr)
    ensures DecodeRest(w, out) == RestRouted(w, out)
  {
    hide DecodeDataProcImm, DecodeBranch, DecodeLoadStore, DecodeLast, Bits;
    Parts(w);
    hide Top, Group, Form;
  }

  lemma Routing(w: u32)
    ensures Decode(w) == Routed(w)
  {
    hide DecodePcRel, DecodeTestBranch, DecodeDataProcImm, DecodeBranch, DecodeDataProcReg, DecodeRest, RestRouted, Bits;
    Parts(w);
    hide Top, Group, Form;
    var first := if RegForm(Form(w)) then DecodeDataProcReg(w, Start(w)) else Attempt(false, Start(w));
    RestRouting(w, first.out);
  }

  // ----- forms 0 to 3 and 8 to 11 -----

  predicate LogicalForm(w: u32) { (Form(w) <= 3 || 8 <= Form(w) <= 11) && Group(w) % 4 < 3 }

  lemma LogicalReads(w: u32, out: DecodedInstr)
    requires LogicalForm(w) && Untouched(w, out)
    ensures Reads(DecodeDataProcReg(w, out), LogicalRow(Group(w) % 4, Form(w)))
  {
    hide Bits;
    Parts(w);
    hide Top, Group, Form;
  }

  lemma LogicalRouted(w: u32)
    requires LogicalForm(w)
    ensures Decode(w) == DecodeDataProcReg(w, Start(w))
  {
    Routing(w);
    Parts(w);
    LogicalReads(w, Start(w));
    hide Decode, DecodePcRel, DecodeTestBranch, DecodeDataProcImm, DecodeBranch, DecodeDataProcReg, RestRouted, Bits,
      LogicalRow, Top, Group, Form;
  }

  lemma LogicalRowHolds(w: u32)
    requires LogicalForm(w)
    ensures Reads(Decode(w), Table(w))
  {
    LogicalRouted(w);
    LogicalReads(w, Start(w));
    hide Decode, DecodeDataProcReg, LogicalRow, Top, Group, Form;
  }

  // ----- where the register decoder is tried elsewhere -----

  lemma ShiftedFields(w: u32)
    ensures w / 0x20_0000 % 8 == Bits(w, 30, 21) % 8 && Bits(w, 29, 29) == Group(w) % 2
  {
    assert Bits(w, 30, 21) == w / 0x20_0000 % 1024;
    assert w / 0x20_0000 % 1024 % 8 == w / 0x20_0000 % 8;
    TopShifts(w);
    assert Bits(w, 29, 29) == w / 0x2000_0000 % 2;
  }

  predicate RegParts(w: u32)
  {
    var g, f := Group(w), Form(w);
    && g < 8 && f < 32 && Bits(w, 30, 29) == g % 4 && Bits(w, 30, 24) == 32 * (g % 4) + f && Bits(w, 28, 24) == f
    && Bits(w, 30, 21) / 8 == 32 * (g % 4) + f && Bits(w, 30, 22) / 4 == 32 * (g % 4) + f
  }

  lemma RegPartsHold(w: u32)
    ensures RegParts(w) && Top(w) == 32 * Group(w) + Form(w)
  {
    Parts(w);
    hide Bits, Top, Group, Form;
  }

  lemma RegFails(w: u32, out: DecodedInstr)
    requires !LogicalForm(w) && Untouched(w, out) && (Form(w) <= 19 || Form(w) >= 24 || Group(w) % 4 == 0)
    requires !(4 <= Form(w) <= 7)
    ensures DecodeDataProcReg(w, out) == Fail(Tried(w))
  {
    RegPartsHold(w);
    hide Bits, Top, Group, Form;
  }

  lemma RegShifted(w: u32, out: DecodedInstr)
    requires Untouched(w, out) && 4 <= Form(w) <= 7
    ensures var a := DecodeDataProcReg(w, out);
            if ShiftedRow(w).Row? then Reads(a, ShiftedRow(w)) && a.out.rm < 32 else a == Fail(Tried(w))
  {
    RegPartsHold(w);
    ShiftedFields(w);
    hide Bits, Top, Group, Form;
  }

  lemma RegElsewhere(w: u32, out: DecodedInstr)
    requires !LogicalForm(w) && Untouched(w, out) && (Form(w) <= 19 || Form(w) >= 24 || Group(w) % 4 == 0)
    ensures var a := DecodeDataProcReg(w, out);
            if 4 <= Form(w) <= 7 && ShiftedRow(w).Row? then Reads(a, ShiftedRow(w)) && a.out.rm < 32 else a == Fail(Tried(w))
  {
    if 4 <= Form(w) <= 7 { RegShifted(w, out); } else { RegFails(w, out); }
    hide DecodeDataProcReg, Bits, Top, Group, Form;
  }

  function RestStart(w: u32): DecodedInstr { if RegForm(Form(w)) then Tried(w) else Start(w) }

  /** The words that get past the first attempts. */
  predicate GetsPast(w: u32)
  {
    var g, f := Group(w), Form(w);
    && !PcRelForm(g, f) && !(g == 3 && 12 <= f <= 15) && g != 5 && !(g in {0, 4} && 20 <= f <= 23)
    && !LogicalForm(w) && (4 <= f <= 7 ==> ShiftedRow(w).Refused?)
  }

  lemma RestReached(w: u32)
    requires GetsPast(w)
    ensures Decode(w) == RestRouted(w, RestStart(w))
  {
    Routing(w);
    Parts(w);
    if RegForm(Form(w)) { RegElsewhere(w, Start(w)); }
    hide Decode, DecodeDataProcReg, DecodeDataProcImm, DecodeBranch, RestRouted, ShiftedRow, Bits, Top, Group, Form;
  }

  lemma ImmElsewhere(w: u32, out: DecodedInstr)
    requires Form(w) !in {17, 18, 19} && Untouched(w, out)
    ensures DecodeDataProcImm(w, out) == Fail(Tried(w))
  {
    Parts(w);
    hide Bits, Top, Group, Form;
  }

  /** The last attempts fail outside forms 17 to 21, where nothing else was found. */
  lemma LastElsewhere(w: u32, out: DecodedInstr)
    requires !LogicalForm(w) && Untouched(w, out) && Form(w) !in {17, 18, 19, 20, 21}
    requires Group(w) in {0, 4, 6} && (4 <= Form(w) <= 7 ==> ShiftedRow(w).Refused?)
    ensures !DecodeLast(w, out).ok
  {
    Ranges(w);
    LastRanges(w);
    if Group(w) != 6 { RegElsewhere(w, out); }
    ImmElsewhere(w, out);
    hide DecodeDataProcReg, DecodeDataProcImm, ShiftedRow, Bits, Top, Group, Form;
  }

  lemma PairNever(w: u32, out: DecodedInstr)
    requires Group(w) in {1, 2, 3, 7} && (Form(w) <= 7 || 16 <= Form(w) <= 23)
    ensures !DecodeLoadStore(w, out).ok
  {
    Parts(w);
    hide Bits, Top, Group, Form;
  }

  lemma ShiftedRowHolds(w: u32)
    requires 4 <= Form(w) <= 7
    ensures Reads(Decode(w), ShiftedRow(w))
    ensures Decode(w).ok ==> Decode(w).out.rm < 32
  {
    Parts(w);
    if GetsPast(w) {
      RestReached(w);
      if Group(w) in {1, 2, 3, 7} { PairNever(w, RestStart(w)); } else { LastElsewhere(w, RestStart(w)); }
    } else {
      Routing(w);
      RegElsewhere(w, Start(w));
    }
    hide Decode, DecodeDataProcReg, DecodeDataProcImm, DecodeBranch, DecodeLoadStore, DecodeLast, ShiftedRow, Bits,
      Top, Group, Form;
  }

  // ----- loads and stores -----

  predicate MemoryForm(w: u32)
  {
    var g, f := Group(w), Form(w);
    || (g in {3, 7} && 8 <= f <= 11) || (g in {1, 2, 7} && 12 <= f <= 15)
    || (g in {1, 3, 7} && f >= 24) || (g == 2 && f >= 28)
  }

  lemma MemoryRouted(w: u32)
    requires MemoryForm(w)
    ensures Decode(w) == DecodeLoadStore(w, RestStart(w))
  {
    Ranges(w);
    assert Form(w) !in {17, 18};
    RestReached(w);
    hide Decode, DecodeDataProcImm, DecodeBranch, DecodeLoadStore, DecodeLast, Bits, Top, Group, Form;
  }

  lemma LoadBit(w: u32)
    ensures Bits(w, 22, 22) == w / 0x40_0000 % 2
  {}

  lemma MemoryReads(w: u32, out: DecodedInstr)
    requires MemoryForm(w) && Untouched(w, out)
    ensures Reads(DecodeLoadStore(w, out), MemoryRow(w))
  {
    Parts(w);
    LoadBit(w);
    hide Bits, Top, Group, Form;
  }

  lemma MemoryRowHolds(w: u32)
    requires MemoryForm(w)
    ensures Reads(Decode(w), MemoryRow(w))
  {
    MemoryRouted(w);
    MemoryReads(w, RestStart(w));
    hide Decode, DecodeLoadStore, Bits, Top, Group, Form;
  }

  // ----- PC-relative forms, test-and-branch -----

  lemma PcRelRowHolds(w: u32)
    requires PcRelForm(Group(w), Form(w))
    ensures Decode(w) == DecodePcRel(w, Start(w))
    ensures Reads(Decode(w), Plain(if Group(w) == 0 then 0x24 else if Group(w) == 2 then 0x63 else 0x25))
  {
    Routing(w);
    Parts(w);
    hide Decode, Bits, Top, Group, Form;
  }

  lemma FormBit(w: u32)
    ensures Bits(w, 24, 24) == Form(w) % 2
  {
    assert Bits(w, 24, 24) == Top(w) % 2;
    assert Top(w) == 2 * (16 * Group(w) + Form(w) / 2) + Form(w) % 2;
    hide Top, Bits;
  }

  lemma TestRowHolds(w: u32)
    requires Group(w) == 3 && 12 <= Form(w) <= 15
    ensures Decode(w) == DecodeTestBranch(w, Start(w)) && Reads(Decode(w), Plain(0x57 + Form(w) % 2))
  {
    Routing(w);
    FormBit(w);
    hide Decode, Bits, Top, Group, Form;
  }

  // ----- immediates -----

  lemma ImmFields(w: u32)
    ensures Bits(w, 30, 30) == Group(w) / 2 % 2 && Bits(w, 28, 23) % 2 == w / 0x80_0000 % 2
    ensures Bits(w, 21, 16) == w / 0x1_0000 % 64 && Bits(w, 15, 10) == w / 0x400 % 64
  {
    ImmForms(w);
    SixBits(w / 0x80_0000);
    assert w / 0x4000_0000 == Top(w) / 64 by { TopShifts(w); }
    assert Group(w) / 2 == Top(w) / 64 by { Nest(Top(w), 32, 2); }
    hide Bits, Top, Group;
  }

  lemma SixBits(x: nat)
    ensures x % 64 % 2 == x % 2
  {}

  lemma ImmForms(w: u32)
    ensures Bits(w, 30, 30) == w / 0x4000_0000 % 2 && Bits(w, 28, 23) == w / 0x80_0000 % 64
    ensures Bits(w, 21, 16) == w / 0x1_0000 % 64 && Bits(w, 15, 10) == w / 0x400 % 64
  {}

  /** DecodeDataProcImm sets the size itself. */
  lemma ImmFromRest(w: u32)
    ensures DecodeDataProcImm(w, Tried(w)) == DecodeDataProcImm(w, Start(w))
  { hide Bits; }

  lemma ImmediateRouted(w: u32)
    requires Form(w) == 17
    ensures Decode(w) == DecodeDataProcImm(w, Start(w))
  {
    Parts(w);
    ImmFromRest(w);
    if Group(w) == 5 { Routing(w); } else { RestReached(w); }
    hide Decode, DecodeDataProcReg, DecodeDataProcImm, DecodeBranch, DecodePcRel, DecodeLoadStore, DecodeTestBranch,
      DecodeLast, Bits, Top, Group, Form;
  }

  lemma AddSubReads(w: u32)
    requires Form(w) == 17
    ensures Reads(Decode(w), Table(w))
  {
    ImmediateRouted(w);
    ImmFields(w);
    AddSubOf(w);
    Ranges(w);
    hide Decode, DecodeDataProcImm, Bits, Top, Group, Form;
  }

  lemma AddSubOf(w: u32)
    requires Form(w) == 17
    ensures var a := DecodeDataProcImm(w, Start(w));
            a.ok && a.out.opcode == Group(w) / 2 % 2 && a.out.setsFlags == (Bits(w, 30, 30) == 1)
  {
    Parts(w);
    hide Bits, Top, Group, Form;
  }

  lemma MoveReads(w: u32)
    requires Form(w) == 18
    ensures MoveRow(w).Row? ==> Decode(w) == DecodeDataProcImm(w, Start(w))
    ensures Reads(Decode(w), MoveRow(w))
  {
    Parts(w);
    ImmFields(w);
    ImmFromRest(w);
    if Group(w) == 5 {
      Routing(w);
      RegElsewhere(w, Start(w));
    } else {
      RestReached(w);
      if w / 0x80_0000 % 2 == 0 { NoMove(w); }
    }
    hide Decode, DecodeDataProcReg, DecodeBranch, DecodePcRel, DecodeLoadStore, DecodeTestBranch, DecodeLast, Bits,
      Top, Group, Form;
  }

  lemma NoMove(w: u32)
    requires Form(w) == 18 && Bits(w, 28, 23) == 0x24 && Group(w) != 5
    ensures !RestRouted(w, Tried(w)).ok
  {
    Parts(w);
    if Group(w) in {1, 2, 3, 7} { PairNever(w, Tried(w)); } else if Group(w) != 6 { RegElsewhere(w, Tried(w)); }
    hide DecodeDataProcReg, DecodeBranch, DecodeLoadStore, Bits, Top, Group, Form;
  }

  lemma BitfieldReads(w: u32, out: DecodedInstr)
    requires Form(w) == 19 && Group(w) in {0, 4, 6} && Untouched(w, out)
    ensures Reads(DecodeDataProcImm(w, out), BitfieldRow(w))
  {
    Parts(w);
    ImmFields(w);
    hide Bits, Top, Group, Form;
  }

  lemma BitfieldRowHolds(w: u32)
    requires Form(w) == 19
    ensures Reads(Decode(w), BitfieldRow(w))
  {
    Ranges(w);
    if Group(w) == 5 {
      Routing(w);
      RegElsewhere(w, Start(w));
    } else {
      RestReached(w);
      if Group(w) in {1, 2, 3, 7} { PairNever(w, Tried(w)); } else { BitfieldReads(w, Tried(w)); }
    }
    hide Decode, DecodeDataProcReg, DecodeDataProcImm, DecodeBranch, DecodePcRel, DecodeLoadStore, DecodeTestBranch,
      Bits, Top, Group, Form;
  }

  // ----- branches and system instructions -----

  predicate BranchParts(w: u32)
  {
    && Bits(w, 31, 25) == 16 * Group(w) + Form(w) / 2 && Bits(w, 31, 26) == 8 * Group(w) + Form(w) / 4
    && Bits(w, 15, 10) == w / 0x400 % 64 && Bits(w, 4, 0) == w % 32 && Bits(w, 9, 5) == w / 32 % 32
    && Bits(w, 24, 24) == Form(w) % 2
  }

  lemma BranchPartsHold(w: u32)
    ensures BranchParts(w)
  {
    Parts(w);
    FormBit(w);
    ImmFields(w);
    AddSubForms(w);
    hide Bits, Top, Group, Form;
  }

  lemma SystemFields(w: u32)
    ensures Bits(w, 31, 22) == 4 * Top(w) + w / 0x40_0000 % 4 && Bits(w, 11, 8) == w / 0x100 % 16
  {
    assert Bits(w, 31, 22) == w / 0x40_0000 % 1024;
    Nest(w, 0x40_0000, 4);
    TopShifts(w);
    hide Bits;
  }

  lemma SystemReads(w: u32, out: DecodedInstr)
    requires Group(w) == 6 && 20 <= Form(w) <= 23 && Untouched(w, out)
    ensures Reads(DecodeLast(w, out), LateRow(w))
  {
    Ranges(w);
    LastRanges(w);
    SystemFields(w);
    ImmElsewhere(w, out);
    SystemWord(w);
    hide DecodeDataProcImm, Bits, Top, Group, Form;
  }

  lemma SystemWord(w: u32)
    ensures Top(w) == 32 * Group(w) + Form(w)
    ensures w == 0xD503201F ==> Form(w) == 21 && w / 0x40_0000 % 4 == 0
  {}

  lemma BranchReads(w: u32, out: DecodedInstr)
    requires 20 <= Form(w) <= 23 && Untouched(w, out)
    requires Group(w) in {0, 4, 5} || (Group(w) == 2 && Form(w) <= 21) || (Group(w) == 6 && RegisterBranch(w))
    ensures Reads(DecodeBranch(w, out), BranchRow(w))
  {
    BranchPartsHold(w);
    hide Bits, Top, Group, Form;
  }

  lemma BranchRowHolds(w: u32)
    requires 20 <= Form(w) <= 23
    ensures Reads(Decode(w), BranchRow(w))
  {
    Ranges(w);
    if Group(w) in {0, 4, 5} {
      Routing(w);
      BranchReads(w, Start(w));
    } else {
      RestReached(w);
      BranchPartsHold(w);
      if Group(w) in {1, 3, 7} || (Group(w) == 2 && Form(w) > 21) { PairNever(w, Start(w)); }
      else if Group(w) == 2 || RegisterBranch(w) { BranchReads(w, Start(w)); }
      else { SystemReads(w, Start(w)); }
    }
    hide Decode, DecodeDataProcReg, DecodeDataProcImm, DecodeBranch, DecodePcRel, DecodeLoadStore, DecodeTestBranch,
      DecodeLast, BranchParts, SystemRow, Bits, Top, Group, Form;
  }

  // ----- the table -----

  lemma NothingElse(w: u32)
    requires var g, f := Group(w), Form(w);
             (g in {3, 7} && f <= 3) || (g in {0, 4, 5, 6} && (12 <= f <= 15 || f >= 24)) || (g in {1, 2, 3} && f == 16)
    ensures !Decode(w).ok
  {
    Ranges(w);
    if Group(w) == 5 {
      Routing(w);
      BranchPartsHold(w);
      RegElsewhere(w, Start(w));
    } else {
      RestReached(w);
      if Group(w) in {1, 2, 3, 7} { PairNever(w, RestStart(w)); } else { LastElsewhere(w, RestStart(w)); }
    }
    hide Decode, DecodeDataProcReg, DecodeDataProcImm, DecodePcRel, DecodeLoadStore, DecodeTestBranch, DecodeLast, Bits,
      Top, Group, Form;
  }

  /** What every word becomes: `decode` succeeds exactly on the words with a row, with that opcode and
      that flag mark. */
  lemma TableHolds(w: u32)
    ensures Reads(Decode(w), Table(w))
  {
    Ranges(w);
    var g, f := Group(w), Form(w);
    if LogicalForm(w) { LogicalRowHolds(w); }
    else if 4 <= f <= 7 { ShiftedRowHolds(w); }
    else if MemoryForm(w) { MemoryRowHolds(w); }
    else if PcRelForm(g, f) { PcRelRowHolds(w); }
    else if g == 3 && 12 <= f <= 15 { TestRowHolds(w); }
    else if f == 17 { AddSubReads(w); }
    else if f == 18 { MoveReads(w); }
    else if f == 19 { BitfieldRowHolds(w); }
    else if 20 <= f <= 23 { BranchRowHolds(w); }
    else { NothingElse(w); }
    hide Decode, LogicalRow, MemoryRow, ShiftedRow, MoveRow, BitfieldRow, BranchRow, Top, Group, Form;
  }
}
