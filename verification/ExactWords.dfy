/** Which instruction words the translator and the interpreter agree on, and what well-known words
    become in the decoder. */
module ExactWords {
  import opened Words
  import opened Decoder
  import opened Targets
  import opened WordTable
  import opened WordRecord
  import opened Exact
  import Converse
  import IR
  import MergedCode
  import X86
  import Refine
  import ControlFlow
  import Steps
  import Lower
  import CodeSize
  import FlagMerging
  import Clipped
  import Pipeline

  // ----- the exact words -----

  /** The three register fields name one register. */
  predicate OneRegister(w: u32) { w % 32 == w / 32 % 32 == w / 0x1_0000 % 32 }

  /** Forms 12 to 15 take a signed 9-bit offset; forms 28 to 31 a scaled offset, which must not be zero;
      the others a register offset, which must name register 31. */
  predicate OffsetWord(w: u32)
  {
    MemoryForm(w) &&
    if 12 <= Form(w) <= 15 then true
    else if Form(w) >= 28 then w / 0x400 % 4096 != 0
    else w / 0x1_0000 % 32 == 31
  }

  /** The words whose translation does what the interpreter does. */
  predicate ExactWord(w: u32)
  {
    match Table(w)
    case Refused => false
    case Row(opcode, marked) =>
      match opcode
      case 0x00 => Form(w) == 17
      case 0x10 => OneRegister(w)
      case 0x12 => OneRegister(w)
      case 0x22 => true
      case 0x24 => true
      case 0x25 => true
      case 0x50 => w / 0x200_0000 % 2 == 0
      case 0x51 => w / 0x200_0000 % 2 == 0
      case 0x54 => w % 0x8_0000 == 1
      case 0x57 => w / 0x20 % 0x4000 == 1
      case 0x58 => w / 0x20 % 0x4000 == 1
      case 0x63 => OffsetWord(w)
      case 0x73 => OffsetWord(w)
      case 0x90 => true
      case _ => false
  }

  /** The offsets that make a direct branch, a conditional branch or a test-and-branch exact. */
  lemma OffsetForward(w: u32)
    ensures Bytes(Sext(w % 0x400_0000, 0x400_0000)) < TWO_31 <==> w / 0x200_0000 % 2 == 0
  { Nest(w, 0x200_0000, 2); }

  lemma OffsetFour(v: nat, m: nat)
    requires v < m && m in {0x4000, 0x8_0000}
    ensures Bytes(Sext(v, m)) == 4 <==> v == 1
  {}

  lemma OffsetsExact(w: u32, b: DecodedInstr)
    requires MemoryForm(w) && Group(w) == 7 && b.imm == 0 && b.immS == 0 && b.rm == 0 && b.shiftType == 0
    requires b.opcode in {0x63, 0x73}
    ensures OffsetExact(MemoryRecord(w, b)) <==> OffsetWord(w)
  {
    hide Top, Group, Form, Low5, Mid5, Wide, RegForm, Sext, MemoryForm;
    if 12 <= Form(w) <= 15 { Nine(w / 0x1000 % 0x200); }
  }

  lemma Nine(v: nat)
    requires v < 0x200
    ensures var s := Sext(v, 0x200); U64(AsI32(U64(s))) == U64(s) && (U64(s) == 0 ==> s == 0)
  {}

  lemma MemoryExact(w: u32)
    requires MemoryForm(w)
    ensures Table(w).Row? && Record(w) == MemoryRecord(w, Base(w)) && !Record(w).pcRelative
    ensures if Group(w) == 7 then Table(w).opcode in {0x63, 0x73} else Table(w).opcode in {0x60, 0x61, 0x70, 0x71}
  { Ranges(w); hide Bits, Top, Group, Form, Low5, Mid5, High5, Wide, LoadWord, Sext; }

  /** Where a record of each group comes from. */
  lemma GroupRow(w: u32)
    requires Table(w).Row?
    ensures var f, op := Form(w), Table(w).opcode;
            && (LogicalForm(w) ==> 0x10 <= op <= 0x17) && (4 <= f <= 7 ==> op <= 0x01)
            && (f == 17 ==> op <= 0x01 && Table(w).marked == (op == 0x01))
            && (f == 18 ==> op in {0x00, 0x21, 0x22, 0x23}) && (f == 19 ==> 0x04 <= op <= 0x08)
            && (PcRelForm(Group(w), f) ==> op == if Group(w) == 2 then 0x63 else if Group(w) == 0 then 0x24 else 0x25)
  { Ranges(w); hide Bits, Top, Group, Form; }

  lemma BranchRows(w: u32)
    requires 20 <= Form(w) <= 23 && Table(w).Row?
    ensures Table(w) == BranchRow(w)
    ensures match Group(w)
            case 0 => Table(w).opcode == 0x50
            case 2 => Table(w).opcode == 0x54
            case 4 => Table(w).opcode == 0x51
            case 5 => Table(w).opcode in {0x55, 0x56}
            case _ => Table(w).opcode in {0x52, 0x53} || 0x90 <= Table(w).opcode <= 0x95
  {
    Ranges(w);
    SystemOpcode(w);
    hide Bits, Top, Group, Form, SystemRow, RegisterBranch;
  }

  lemma SystemOpcode(w: u32)
    ensures SystemRow(w).Row? && 0x90 <= SystemRow(w).opcode <= 0x95
  {}

  lemma TestRow(w: u32)
    requires Group(w) == 3 && 12 <= Form(w) <= 15
    ensures Table(w).Row? && 0x57 <= Table(w).opcode <= 0x58 && Record(w) == TestRecord(w, Base(w))
  { hide Group, Form, Low5, Wide, Bytes, Sext; }

  /** What the records of a group have in the fields that count. */
  lemma PlainRecord(w: u32)
    requires Table(w).Row? && !MemoryForm(w) && !(20 <= Form(w) <= 23) && !(Group(w) == 3 && 12 <= Form(w) <= 15)
    ensures var d, f := Record(w), Form(w);
            && (LogicalForm(w) ==> d.rd == w % 32 && d.rn == w / 32 % 32 && d.rm == w / 0x1_0000 % 32)
            && (4 <= f <= 7 && !LogicalForm(w) ==> d.rm < 32) && (f == 17 ==> d.rm == 255 && d.imm < TWO_31)
            && (f == 18 ==> d.rm == 0) && (PcRelForm(Group(w), f) ==> d.pcRelative)
            && (LogicalForm(w) || 4 <= f <= 7 || PcRelForm(Group(w), f) || f in {17, 18, 19})
  {
    Ranges(w);
    RowForms(w);
    hide Bits, Top, Group, Form, Table, Wide, Sext, Bytes, Imm21;
  }

  lemma RowForms(w: u32)
    requires Table(w).Row?
    ensures LogicalForm(w) || 4 <= Form(w) <= 7 || MemoryForm(w) || PcRelForm(Group(w), Form(w))
            || (Group(w) == 3 && 12 <= Form(w) <= 15) || 17 <= Form(w) <= 23
  { Ranges(w); hide Bits, Top, Group, Form; }

  lemma BranchExact(w: u32)
    requires 20 <= Form(w) <= 23 && Table(w).Row?
    ensures JitExact(Record(w)) <==> ExactWord(w)
  {
    BranchRecordIs(w);
    PlainOpcode(w);
    hide Bits, Top, Group, Form, Table, BranchRow, RegisterBranch, Mid5, Low5, Bytes, Sext, Record;
    Ranges(w);
    BranchRows(w);
    OffsetForward(w);
    OffsetFour(w % 0x8_0000, 0x8_0000);
  }

  predicate BranchOffsets(d: DecodedInstr, w: u32)
  {
    && (Group(w) in {0, 4} ==> d.branchOffset == Bytes(Sext(w % 0x400_0000, 0x400_0000)))
    && (Group(w) == 2 ==> d.branchOffset == Bytes(Sext(w % 0x8_0000, 0x8_0000)))
  }

  lemma BranchRecordIs(w: u32)
    requires 20 <= Form(w) <= 23 && Table(w).Row?
    ensures BranchOffsets(Record(w), w)
  {
    Ranges(w);
    hide Bits, Top, Group, Form, Table, BranchRow, RegisterBranch, Mid5, Low5, Bytes, Sext;
  }

  lemma AccessExact(w: u32)
    requires MemoryForm(w)
    ensures Table(w).Row? && (JitExact(Record(w)) <==> ExactWord(w))
  {
    hide Table, Record, MemoryRecord, OffsetExact, OffsetWord, MemoryForm, Group, Form;
    MemoryExact(w);
    if Group(w) == 7 { OffsetsExact(w, Base(w)); }
    MemoryOpcode(w);
  }

  lemma MemoryOpcode(w: u32)
    requires MemoryForm(w) && Table(w).Row?
    ensures Record(w).opcode == Table(w).opcode
  { MemoryExact(w); hide Table, Form, Group, Record; }

  lemma TestExact(w: u32)
    requires Group(w) == 3 && 12 <= Form(w) <= 15
    ensures Table(w).Row? && (JitExact(Record(w)) <==> ExactWord(w))
  {
    hide Table, Record, Group, Form, Bytes, Sext;
    TestRow(w);
    OffsetFour(w / 0x20 % 0x4000, 0x4000);
  }

  lemma PlainExact(w: u32)
    requires Table(w).Row? && !MemoryForm(w) && !(20 <= Form(w) <= 23) && !(Group(w) == 3 && 12 <= Form(w) <= 15)
    ensures JitExact(Record(w)) <==> ExactWord(w)
  {
    PlainOpcode(w);
    hide Table, Record, MemoryForm, LogicalForm, PcRelForm, Group, Form;
    GroupRow(w);
    PlainRecord(w);
    OffsetWordForm(w);
  }

  lemma OffsetWordForm(w: u32)
    ensures OffsetWord(w) ==> MemoryForm(w)
  { hide MemoryForm; }

  lemma PlainOpcode(w: u32)
    requires Table(w).Row?
    ensures Record(w).opcode == Table(w).opcode && Record(w).setsFlags == Table(w).marked
  { hide Table, Group, Form, Low5, Mid5, High5, Wide, Bytes, Sext, Imm21, LogicalForm, MemoryForm; }

  /** Exactness of a record is a condition on the bits of its word. */
  lemma RecordExact(w: u32)
    requires Table(w).Row?
    ensures JitExact(Record(w)) <==> ExactWord(w)
  {
    hide Table, Record, MemoryForm, Group, Form, JitExact, ExactWord;
    if MemoryForm(w) { AccessExact(w); }
    else if 20 <= Form(w) <= 23 { BranchExact(w); }
    else if Group(w) == 3 && 12 <= Form(w) <= 15 { TestExact(w); }
    else { PlainExact(w); }
  }

  /** Exactness word by word. */
  lemma WordExact(w: u32)
    ensures Decode(w).ok && JitExact(Decode(w).out) <==> ExactWord(w)
  {
    DecodeIs(w);
    if Table(w).Row? { RecordExact(w); }
    hide Decode, JitExact, Record, Table;
  }

  /** For every word that decodes and every pc, the bytes of its translation do what the interpreter does
      in every state if and only if the word is one of `ExactWord`. */
  lemma WordAgrees(w: u32, pc: u64)
    ensures Decode(w).ok <==> Table(w).Row?
    ensures Decode(w).ok ==> (Converse.AgreesEverywhere(Decode(w).out, pc) <==> ExactWord(w))
  {
    hide Decode, JitExact, DecoderShaped, Converse.AgreesEverywhere, ExactWord, Table;
    TableHolds(w);
    WordExact(w);
    DecodeShape(w);
    if Decode(w).ok { Converse.ExactIffAgrees(Decode(w).out, pc); }
  }

  // ----- what words become -----

  /** The opcodes some word decodes to. Registers are never moved (0x20), compared (0x30, 0x31) or selected
      (0x40) by opcode, no access is 32 bits wide (0x62, 0x72), and no pair is loaded or stored (0x80, 0x81). */
  const REACHED: set<u8> := {
    0x00, 0x01, 0x04, 0x05, 0x06, 0x07, 0x08, 0x10, 0x11, 0x12, 0x13, 0x14, 0x15, 0x16, 0x17, 0x21,
    0x22, 0x23, 0x24, 0x25, 0x50, 0x51, 0x52, 0x53, 0x54, 0x55, 0x56, 0x57, 0x58, 0x60, 0x61, 0x63,
    0x70, 0x71, 0x73, 0x90, 0x91, 0x92, 0x93, 0x94, 0x95}

  /** A word for each of them. */
  function Sample(opcode: u8): u32
  {
    match opcode
    case 0x00 => 0x91000421 case 0x01 => 0xD1000421 case 0x04 => 0x137CFD3F case 0x05 => 0x93C1FC21
    case 0x06 => 0x93C1F821 case 0x07 => 0x137D5BB3 case 0x08 => 0x13FF8785 case 0x10 => 0xA9000000
    case 0x11 => 0x01000000 case 0x12 => 0xAA000000 case 0x13 => 0x2B000000 case 0x14 => 0x48000000
    case 0x15 => 0x49000000 case 0x16 => 0x8A000000 case 0x17 => 0x0B000000 case 0x21 => 0x92800000
    case 0x22 => 0xD2800000 case 0x23 => 0xF2800000 case 0x24 => 0x10000000 case 0x25 => 0x90000000
    case 0x50 => 0x14000000 case 0x51 => 0x94000000 case 0x52 => 0xD61F0000 case 0x53 => 0xD65F03C0
    case 0x54 => 0x54000000 case 0x55 => 0xB4000000 case 0x56 => 0xB5000000 case 0x57 => 0x6C000000
    case 0x58 => 0x6D000000 case 0x60 => 0x39400000 case 0x61 => 0x79400000 case 0x63 => 0xF9400000
    case 0x70 => 0x39000000 case 0x71 => 0x79000000 case 0x73 => 0xF9000000 case 0x90 => 0xD503201F
    case 0x91 => 0xD50335BF case 0x92 => 0xD50336BF case 0x93 => 0xD50337BF case 0x94 => 0xD50330BF
    case 0x95 => 0xD50331BF
    case _ => 0
  }

  lemma SampleBitfields(opcode: u8)
    requires opcode in {0x04, 0x05, 0x06, 0x07, 0x08}
    ensures Table(Sample(opcode)).Row? && Table(Sample(opcode)).opcode == opcode
  { hide LogicalRow, MemoryRow, ShiftedRow, MoveRow, BranchRow; }

  lemma SampleAddSubs(opcode: u8)
    requires opcode in {0x00, 0x01}
    ensures Table(Sample(opcode)).Row? && Table(Sample(opcode)).opcode == opcode
  { hide LogicalRow, MemoryRow, ShiftedRow, MoveRow, BranchRow, BitfieldRow; }

  lemma SampleLogicals(opcode: u8)
    requires opcode in {0x10, 0x11, 0x12, 0x13}
    ensures Table(Sample(opcode)).Row? && Table(Sample(opcode)).opcode == opcode
  { hide MemoryRow, ShiftedRow, MoveRow, BranchRow, BitfieldRow; }

  lemma SampleMoreLogicals(opcode: u8)
    requires opcode in {0x14, 0x15, 0x16, 0x17}
    ensures Table(Sample(opcode)).Row? && Table(Sample(opcode)).opcode == opcode
  { hide MemoryRow, ShiftedRow, MoveRow, BranchRow, BitfieldRow; }

  lemma SampleMoves(opcode: u8)
    requires opcode in {0x21, 0x22, 0x23, 0x24, 0x25}
    ensures Table(Sample(opcode)).Row? && Table(Sample(opcode)).opcode == opcode
  { hide LogicalRow, MemoryRow, ShiftedRow, BranchRow, BitfieldRow; }

  lemma SampleBranches(opcode: u8)
    requires opcode in {0x50, 0x51, 0x54, 0x55, 0x56}
    ensures Table(Sample(opcode)).Row? && Table(Sample(opcode)).opcode == opcode
  { hide LogicalRow, MemoryRow, ShiftedRow, MoveRow, BitfieldRow, SystemRow, LateRow, RegisterBranch; }

  lemma SampleMoreBranches(opcode: u8)
    requires opcode in {0x52, 0x53, 0x57, 0x58}
    ensures Table(Sample(opcode)).Row? && Table(Sample(opcode)).opcode == opcode
  { hide LogicalRow, MemoryRow, ShiftedRow, MoveRow, BitfieldRow, SystemRow, LateRow; }

  lemma SampleAccesses(opcode: u8)
    requires opcode in {0x60, 0x61, 0x63, 0x70, 0x71, 0x73}
    ensures Table(Sample(opcode)).Row? && Table(Sample(opcode)).opcode == opcode
  { hide LogicalRow, ShiftedRow, MoveRow, BranchRow, BitfieldRow; }

  lemma SystemPlace(opcode: u8)
    requires 0x90 <= opcode <= 0x95
    ensures var w := Sample(opcode); Group(w) == 6 && Form(w) == 21 && !RegisterBranch(w) && w / 0x40_0000 % 4 == 0
  {}

  lemma SystemFunction(opcode: u8)
    requires 0x90 <= opcode <= 0x95
    ensures SystemRow(Sample(opcode)) == Plain(opcode)
  {}

  lemma SampleSystems(opcode: u8)
    requires 0x90 <= opcode <= 0x95
    ensures Table(Sample(opcode)).Row? && Table(Sample(opcode)).opcode == opcode
  {
    SystemPlace(opcode);
    SystemFunction(opcode);
    hide Sample, Group, Form, RegisterBranch, SystemRow, LogicalRow, MemoryRow, ShiftedRow, MoveRow, BitfieldRow;
  }

  lemma SampleFits(opcode: u8)
    requires opcode in REACHED
    ensures Table(Sample(opcode)).Row? && Table(Sample(opcode)).opcode == opcode
  {
    hide Table, Sample;
    if opcode <= 0x01 { SampleAddSubs(opcode); }
    else if opcode <= 0x08 { SampleBitfields(opcode); }
    else if opcode <= 0x13 { SampleLogicals(opcode); }
    else if opcode <= 0x17 { SampleMoreLogicals(opcode); }
    else if opcode <= 0x25 { SampleMoves(opcode); }
    else if opcode in {0x52, 0x53, 0x57, 0x58} { SampleMoreBranches(opcode); }
    else if opcode <= 0x56 { SampleBranches(opcode); }
    else if opcode <= 0x73 { SampleAccesses(opcode); }
    else { SampleSystems(opcode); }
  }

  lemma TableReached(w: u32)
    requires Table(w).Row?
    ensures Table(w).opcode in REACHED
  { Ranges(w); hide Top, Group, Form, Bits; }

  predicate DecodesTo(w: u32, opcode: u8) { Decode(w).ok && Decode(w).out.opcode == opcode }

  /** The image of the decoder. */
  lemma OpcodesReached(opcode: u8)
    ensures (exists w: u32 :: DecodesTo(w, opcode)) <==> opcode in REACHED
  {
    hide Decode, Table, Sample;
    if w: u32 :| DecodesTo(w, opcode) {
      TableHolds(w);
      TableReached(w);
    }
    if opcode in REACHED {
      TableHolds(Sample(opcode));
      SampleFits(opcode);
      assert DecodesTo(Sample(opcode), opcode);
    }
  }

  /** LDP and STP words, whatever their fields, decode to AND and become one NOP. */
  lemma PairsLost(w: u32, pc: u64)
    requires Top(w) in {0x28, 0x29, 0xA8, 0xA9}
    ensures DecodesTo(w, 0x10) && IR.BuildInstr(Decode(w).out, pc)[0].op.NOP? && |IR.BuildInstr(Decode(w).out, pc)| == 1
  {
    TableHolds(w);
    Ranges(w);
    hide Decode, Bits;
  }

  /** 64-bit register compares (CMP, SUBS) decode to 64-bit loads and stores, by bit 22. */
  lemma ComparesAreAccesses(w: u32)
    requires Top(w) == 0xEB
    ensures DecodesTo(w, if LoadWord(w) then 0x63 else 0x73)
  {
    assert Group(w) == 7 && Form(w) == 11;
    hide Decode, Top, Group, Form, LoadWord, LogicalRow;
    TableHolds(w);
    assert Table(w) == MemoryRow(w);
    hide Table;
  }

  /** TBZ and TBNZ words never decode; vector pair words with these top bytes decode to them. */
  lemma TestBranchesSwapped(w: u32)
    ensures Top(w) in {0x36, 0x37, 0xB6, 0xB7} ==> !Decode(w).ok
    ensures Top(w) in {0x6C, 0x6E} ==> DecodesTo(w, 0x57)
    ensures Top(w) in {0x6D, 0x6F} ==> DecodesTo(w, 0x58)
  {
    TableHolds(w);
    hide Decode;
  }

  /** Every SUB with an immediate comes marked as setting flags, and nothing else with its opcode does;
      no ADD does. */
  lemma SubtractionsMarked(w: u32)
    ensures DecodesTo(w, 0x01) ==> Decode(w).out.setsFlags == (Form(w) == 17)
    ensures DecodesTo(w, 0x00) ==> !Decode(w).out.setsFlags
  {
    TableHolds(w);
    Ranges(w);
    hide Decode, Bits, Top, Form, Group;
  }

  /** MOV between registers, an ORR word, decodes to ORR. */
  lemma MovesAreOrr(w: u32)
    requires Top(w) in {0x2A, 0xAA}
    ensures DecodesTo(w, 0x12)
  {
    TableHolds(w);
    hide Decode;
  }

  // ----- a program flag merging changes -----

  /** MOVZ X7, #0x80 in 64 or 32 bits; two words that subtract an immediate; B.EQ with low offset bits
      other than 1. */
  predicate MarkedWords(ws: seq<u32>)
  {
    && |ws| == 4 && ws[0] in {0xD2801007, 0x52801007} && Subtracts(ws[1]) && Subtracts(ws[2])
    && EqualWord(ws[3])
  }

  predicate EqualWord(w: u32) { Top(w) == 0x54 && w % 16 == 0 && w % 0x8_0000 != 1 }

  predicate Subtracts(w: u32) { Top(w) in {0x51, 0x71, 0xD1, 0xF1} }

  predicate IsSubtraction(a: Attempt)
  { a.ok && a.out.opcode == 0x01 && a.out.rm == 0xFF && a.out.setsFlags && a.out.category == INTEGER_ARITH }

  predicate IsMove(a: Attempt, rd: int, imm: int)
  { a.ok && a.out.rd == rd && a.out.imm == imm && a.out.category == MOVE }

  /** The decoding of a word of a given group. */
  lemma RecordOf(w: u32)
    ensures Form(w) == 17 ==> Table(w).Row? && Record(w) == AddSubRecord(w, Base(w))
    ensures Form(w) == 18 && Table(w).Row? ==> Record(w) == MoveRecord(w, Base(w))
    ensures Form(w) == 19 && Table(w).Row? ==> Record(w) == BitfieldRecord(w, Base(w))
    ensures Group(w) == 2 && 20 <= Form(w) <= 21 ==> Table(w) == Plain(0x54) && Record(w) == BranchRecord(w, Base(w))
  { hide Group, Form, Low5, Mid5, Wide, Sext, Bytes; }

  lemma SubtractRecord(w: u32)
    requires Subtracts(w)
    ensures IsSubtraction(Decode(w))
  {
    SubtractWord(w);
    hide Decode, Table, Top, Group, Form, Low5, Mid5, Wide;
    DecodeIs(w);
    RecordOf(w);
  }

  lemma SubtractWord(w: u32)
    requires Subtracts(w)
    ensures Form(w) == 17 && Table(w) == Row(0x01, true)
  {}

  lemma MoveRecordIs(w: u32)
    requires Form(w) == 18 && MoveRow(w) == Plain(0x22)
    ensures IsMove(Decode(w), w % 32, w / 32 % 0x1_0000) && DecodesTo(w, 0x22)
  {
    hide Decode, Group, Form, Wide, MoveRow;
    assert Table(w) == MoveRow(w);
    hide Table;
    DecodeIs(w);
    RecordOf(w);
  }

  lemma MoveWord(w: u32)
    requires w in {0xD2801007, 0x52801007}
    ensures Form(w) == 18 && MoveRow(w) == Plain(0x22) && w % 32 == 7 && w / 32 % 0x1_0000 == 0x80
  {}

  lemma ConditionRecord(w: u32)
    requires Top(w) == 0x54
    ensures Decode(w).ok && ConditionalFields(Decode(w).out, w)
  {
    assert Group(w) == 2 && Form(w) == 20;
    hide Decode, Table, Top, Group, Form;
    DecodeIs(w);
    RecordOf(w);
    OffsetFour(w % 0x8_0000, 0x8_0000);
    hide Bytes, Sext, Mid5;
  }

  predicate ConditionalFields(d: DecodedInstr, w: u32)
  { d.opcode == 0x54 && d.cond == w % 16 && d.category == BRANCH_COND && (d.branchOffset == 4 <==> w % 0x8_0000 == 1) }

  function Records(ws: seq<u32>): (ds: seq<DecodedInstr>)
    ensures |ds| == |ws|
  { seq(|ws|, i requires 0 <= i < |ws| => Decode(ws[i]).out) }

  /** For each of these programs, at every pc and from every entry state, the merged code leaves the block
      elsewhere than the unmerged code. */
  lemma MarkedWordsPart(ws: seq<u32>, pc: u64, m: X86.Machine, p: int)
    requires MarkedWords(ws) && MergedCode.Hosted(m, p)
    ensures forall i :: 0 <= i < 4 ==> Decode(ws[i]).ok
    ensures MergedCode.ExitsPart(IR.BuildList(Records(ws), pc), U64(pc + 16), m)
  {
    hide Decode, MergedCode.ExitsPart, MergedCode.Hosted, IR.BuildList, Top, Subtracts, Form, MoveRow;
    MoveWord(ws[0]);
    MoveRecordIs(ws[0]);
    SubtractRecord(ws[1]);
    SubtractRecord(ws[2]);
    ConditionRecord(ws[3]);
    MergedCode.MarkedPairParts(Records(ws), pc, m, p);
  }

  // ----- a branch that reads the overflow of a shift -----

  /** A bitfield word with imms 63, rotation 1: shift right by one, as decoded. */
  predicate HalvingWord(w: u32) { Form(w) == 19 && Table(w) == Plain(0x05) && w / 0x1_0000 % 64 == 1 }

  predicate OverflowWord(w: u32) { Top(w) == 0x54 && w % 16 == 6 }

  predicate IsHalving(a: Attempt, rn: int) { a.ok && a.out.opcode == 0x05 && Bitfield(a.out, 1, rn) }

  predicate Bitfield(d: DecodedInstr, immr: int, rn: int)
  { d.imm == immr && d.rn == rn && d.rd < 32 && d.category == INTEGER_ARITH }

  lemma HalvingRecord(w: u32)
    requires HalvingWord(w)
    ensures IsHalving(Decode(w), w / 32 % 32)
  {
    hide Decode, Table, Group, Form, Wide;
    DecodeIs(w);
    RecordOf(w);
  }

  lemma HalvingBuilt(a: Attempt, b: Attempt, w: u32, rn: int, pc: u64)
    requires IsHalving(a, rn) && ConditionalFields(b.out, w) && w % 16 == 6
    ensures var s := IR.BuildList([a.out, b.out], pc);
            && |s| == 2 && s[0].op.SHR? && s[0].src1 == rn && s[0].imm == 1 && s[0].src2 == IR.IR_IMM && s[0].dest < 32
            && !s[0].flagsSet && s[1].op.JMP_COND? && s[1].cond == 6
  {
    assert [a.out, b.out][1..] == [b.out];
    assert IR.BuildList([b.out], U64(pc + 4)) == IR.BuildInstr(b.out, U64(pc + 4));
  }

  /** Shift right by one, B.VS: at every pc the code branches exactly when the operand had its top bit set. */
  lemma OverflowExit(w: u32, b: u32, pc: u64, ft: u64, m: X86.Machine, p: int)
    requires HalvingWord(w) && OverflowWord(b) && Refine.Inside(m, p)
    ensures var s := IR.BuildList([Decode(w).out, Decode(b).out], pc);
            && |s| == 2 && ControlFlow.Stop(s) == 1 && Mapped(m.mem, p + 8 * (w / 32 % 32), 8)
            && ControlFlow.ExitPc(s, ft, ControlFlow.Before(s, 1, m)) ==
               if Read64(m.mem, p + 8 * (w / 32 % 32)) >= TWO_63 then s[1].imm else ft
  {
    hide Decode, ControlFlow.ExitPc, ControlFlow.Stop, ControlFlow.Before, X86.Holds, X86.ShiftFlags, Refine.Inside,
      HalvingWord, Top, IR.BuildList, Read64;
    HalvingRecord(w);
    ConditionRecord(b);
    HalvingBuilt(Decode(w), Decode(b), b, w / 32 % 32, pc);
    var s := IR.BuildList([Decode(w).out, Decode(b).out], pc);
    ShiftStop(s);
    MergedCode.SlotLoad(s[0].src1, X86.RAX, m, p);
    StartsAt(s, m);
    MergedCode.ShiftedExit(s, ft, m, p);
    MergedCode.OneBitOverflow(X86.SHR, Read64(m.mem, p + 8 * (w / 32 % 32)), m.flags);
  }

  lemma StartsAt(s: seq<IR.IRInst>, m: X86.Machine)
    ensures ControlFlow.Before(s, 0, m) == m
  {}

  lemma ShiftStop(s: seq<IR.IRInst>)
    requires |s| == 2 && Steps.FallsThrough(s[0]) && !Steps.FallsThrough(s[1])
    ensures ControlFlow.Stop(s) == 1
  {}

  // ----- a program whose code does not fit its slot -----

  predicate MovesWide(w: u32) { Form(w) == 18 && MoveRow(w) == Plain(0x22) }

  /** SUB with an immediate and MOVZ by turns; `first` says whether SUB starts. */
  predicate ByTurns(ds: seq<DecodedInstr>, first: bool)
  { forall i :: 0 <= i < |ds| ==> TurnOf(ds[i], (i % 2 == 0) == first) }

  predicate TurnOf(d: DecodedInstr, subtracts: bool)
  {
    DecoderShaped(d) &&
    if subtracts then d.opcode == 0x01 && d.setsFlags && d.category == INTEGER_ARITH else d.opcode == 0x22 && d.category == MOVE
  }

  lemma TurnBuilt(d: DecodedInstr, subtracts: bool, pc: u64)
    requires TurnOf(d, subtracts)
    ensures var irs := IR.BuildInstr(d, pc); |irs| == 1 && irs[0].flagsSet == subtracts && !IR.EndsBlock(d)
  {}

  lemma {:induction false} TurnsBuilt(ds: seq<DecodedInstr>, first: bool, pc: u64)
    requires ByTurns(ds, first)
    ensures var s := IR.BuildList(ds, pc);
            && |s| == |ds| && MarksByTurns(s, first)
            && CodeSize.Setters(s) == (|s| + if first then 1 else 0) / 2
    decreases |ds|
  {
    assert |ds| == 0 ==> IR.BuildList(ds, pc) == [] && CodeSize.Setters(IR.BuildList(ds, pc)) == 0;
    hide IR.BuildInstr, TurnOf, CodeSize.Setters;
    if |ds| > 0 {
      var rest := ds[1..];
      TurnBuilt(ds[0], first, pc);
      forall i | 0 <= i < |rest| ensures TurnOf(rest[i], (i % 2 == 0) == !first) { assert rest[i] == ds[i + 1]; }
      TurnsBuilt(rest, !first, U64(pc + 4));
      TurnsMore(IR.BuildInstr(ds[0], pc), IR.BuildList(rest, U64(pc + 4)), first);
    }
  }

  predicate MarksByTurns(s: seq<IR.IRInst>, first: bool)
  { forall i :: 0 <= i < |s| ==> s[i].flagsSet == ((i % 2 == 0) == first) }

  lemma TurnsMore(a: seq<IR.IRInst>, b: seq<IR.IRInst>, first: bool)
    requires |a| == 1 && a[0].flagsSet == first && MarksByTurns(b, !first)
    requires CodeSize.Setters(b) == (|b| + if first then 0 else 1) / 2
    ensures MarksByTurns(a + b, first) && CodeSize.Setters(a + b) == (|a + b| + if first then 1 else 0) / 2
  {
    var s: seq<IR.IRInst> := a + b;
    assert s[1..] == b && s[0] == a[0];
    forall i | 0 <= i < |s| ensures s[i].flagsSet == ((i % 2 == 0) == first) {
      if i > 0 { assert s[i] == b[i - 1]; }
    }
  }

  lemma TurnsUnmerged(s: seq<IR.IRInst>, first: bool)
    requires MarksByTurns(s, first)
    ensures FlagMerging.Merged(s) == s
  {}

  lemma MoveTurn(w: u32)
    requires MovesWide(w)
    ensures Decode(w).ok && TurnOf(Decode(w).out, false)
  {
    hide Decode, MoveRow, DecoderShaped, Form;
    MoveRecordIs(w);
    DecodeShape(w);
  }

  lemma SubtractTurn(w: u32)
    requires Subtracts(w)
    ensures Decode(w).ok && TurnOf(Decode(w).out, true)
  {
    hide Decode, DecoderShaped, Subtracts;
    SubtractRecord(w);
    DecodeShape(w);
  }

  /** SUB with an immediate and MOVZ by turns, 61 words or more: at every pc the translation never returns. */
  lemma TurnsRunOut(ws: seq<u32>, pc: u64, m: X86.Machine)
    requires |ws| >= 61 && forall i :: 0 <= i < |ws| ==> if i % 2 == 0 then Subtracts(ws[i]) else MovesWide(ws[i])
    ensures forall i :: 0 <= i < |ws| ==> Decode(ws[i]).ok
    ensures !X86.Run(Pipeline.SlotCode(Records(ws), pc), 0, m).Returned?
  {
    hide Decode, X86.Run, Lower.Emitted, IR.BuildList, FlagMerging.Merged, TurnOf, Subtracts, MovesWide, CodeSize.Setters;
    var ds := Records(ws);
    forall i | 0 <= i < |ws| ensures Decode(ws[i]).ok && TurnOf(ds[i], (i % 2 == 0) == true) {
      if i % 2 == 0 { SubtractTurn(ws[i]); } else { MoveTurn(ws[i]); }
    }
    TurnsBuilt(ds, true, pc);
    TurnsUnmerged(IR.BuildList(ds, pc), true);
    TurnsStraight(ds, true);
    Clipped.OverflowRunsOut(ds, pc, U64(pc + 4 * |ds|), m);
  }

  lemma TurnsStraight(ds: seq<DecodedInstr>, first: bool)
    requires ByTurns(ds, first)
    ensures CodeSize.StraightRun(ds)
  {
    hide DecoderShaped;
    forall i | 0 <= i < |ds| ensures DecoderShaped(ds[i]) && !IR.EndsBlock(ds[i]) { assert TurnOf(ds[i], (i % 2 == 0) == first); }
  }
}