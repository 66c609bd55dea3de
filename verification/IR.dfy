/** The intermediate representation (src/ir/ir.hpp) and its builder (src/ir/ir_builder.cpp). */
module IR {
  import opened Words
  import opened Decoder

  /** The opcodes the builder produces. */
  datatype Op =
    | ADD | SUB | SHL | SHR | SAR | CMP | TST | SET_REG | MOV_IMM
    | LOAD32 | LOAD64 | STORE32 | STORE64 | LOAD_PAIR | STORE_PAIR
    | JMP | JMP_COND | CALL | RET | SYSCALL | NOP | BARRIER
    | VEC_DUP | VEC_ADD8 | VEC_SUB8 | VEC_AND | VEC_OR | VEC_XOR

  const IR_NONE: u16 := 0
  const IR_IMM: u16 := 0xFFFF

  datatype IRInst = IRInst(
    op: Op, dest: u16, src1: u16, src2: u16, imm: u64, size: u8, cond: u8, flagsSet: bool, flagsUsed: bool)

  datatype IRBlock = IRBlock(instructions: seq<IRInst>, pcStart: u64, pcEnd: u64, instrCount: nat)

  const Fresh := IRInst(NOP, IR_NONE, IR_NONE, IR_NONE, 0, 8, 0, false, false)

  /** The target of B and BL: the 32-bit offset is sign-extended. */
  function SignedTarget(pc: u64, offset: u32): u64 { U64(pc + AsI32(offset)) }

  /** The target of B.cond, CBZ and CBNZ: the 32-bit offset is zero-extended. */
  function UnsignedTarget(pc: u64, offset: u32): u64 { U64(pc + offset) }

  function ArithIR(op: Op, d: DecodedInstr, ir: IRInst): IRInst
  {
    var common := ir.(op := op, dest := d.rd, src1 := d.rn, flagsSet := d.setsFlags);
    if d.rm == 0xFF then common.(src2 := IR_IMM, imm := d.imm) else common.(src2 := d.rm)
  }

  function ZeroTest(d: DecodedInstr, pc: u64, ir: IRInst, cond: u8): seq<IRInst>
  {
    [ir.(op := CMP, src1 := d.rn, src2 := IR_NONE, imm := 0, flagsSet := true),
     Fresh.(op := JMP_COND, flagsUsed := true, imm := UnsignedTarget(pc, d.branchOffset), cond := cond)]
  }

  function VectorIR(d: DecodedInstr, ir: IRInst): IRInst
  {
    var common := ir.(dest := d.rd, src1 := d.rn, src2 := d.rm);
    match d.opcode
    case 0xA0 => ir.(op := VEC_DUP, dest := d.rd, src1 := d.rm, imm := d.size)
    case 0xA1 => common.(op := VEC_ADD8)
    case 0xA2 => common.(op := VEC_SUB8)
    case 0xA4 => common.(op := VEC_OR)
    case 0xA5 => common.(op := VEC_XOR)
    case _ => common.(op := VEC_AND)
  }

  /** `build_instr`: the IR appended for one instruction. */
  function BuildInstr(d: DecodedInstr, pc: u64): (irs: seq<IRInst>)
    ensures 1 <= |irs| <= 2
  {
    var ir := Fresh.(size := if d.size != 0 then 8 else 4);
    match d.opcode
    case 0x00 => [ArithIR(ADD, d, ir)]
    case 0x01 => [ArithIR(SUB, d, ir)]
    case 0x04 => [ir.(op := SAR, dest := d.rd, src1 := d.rn, src2 := IR_IMM, imm := d.imm)]
    case 0x05 => [ir.(op := SHR, dest := d.rd, src1 := d.rn, src2 := IR_IMM, imm := d.imm)]
    case 0x06 => [ir.(op := SHL, dest := d.rd, src1 := d.rn, src2 := IR_IMM, imm := d.imm)]
    case 0x20 => [ir.(op := SET_REG, dest := d.rd, src1 := d.rm)]
    case 0x21 => [ir.(op := MOV_IMM, dest := d.rd, imm := d.imm)]
    case 0x22 => [ir.(op := MOV_IMM, dest := d.rd, imm := d.imm)]
    case 0x23 => [ir.(op := MOV_IMM, dest := d.rd, imm := d.imm)]
    case 0x24 => [ir.(op := MOV_IMM, dest := d.rd, imm := U64(pc + d.immS))]
    case 0x25 => [ir.(op := MOV_IMM, dest := d.rd, imm := U64(pc - pc % 4096 + 4096 * d.immS))]
    case 0x30 => [ir.(op := CMP, src1 := d.rn, src2 := d.rm, flagsSet := true)]
    case 0x31 => [ir.(op := TST, src1 := d.rn, src2 := d.rm, flagsSet := true)]
    case 0x50 => [ir.(op := JMP, imm := SignedTarget(pc, d.branchOffset))]
    case 0x51 => [Fresh.(op := SET_REG, dest := 30, src1 := IR_NONE, imm := U64(pc + 4)),
                  ir.(op := CALL, imm := SignedTarget(pc, d.branchOffset))]
    case 0x53 => [ir.(op := RET, src1 := 30)]
    case 0x54 => [ir.(op := JMP_COND, flagsUsed := true, imm := UnsignedTarget(pc, d.branchOffset), cond := d.cond)]
    case 0x55 => ZeroTest(d, pc, ir, 0)
    case 0x56 => ZeroTest(d, pc, ir, 1)
    case 0x63 => [ir.(op := LOAD64, dest := d.rt, src1 := d.rn, imm := d.imm)]
    case 0x62 => [ir.(op := LOAD32, dest := d.rt, src1 := d.rn, imm := d.imm)]
    case 0x73 => [ir.(op := STORE64, src1 := d.rn, src2 := d.rt, imm := d.imm)]
    case 0x72 => [ir.(op := STORE32, src1 := d.rn, src2 := d.rt, imm := d.imm)]
    case 0x80 => [ir.(op := LOAD_PAIR, dest := d.rt, src1 := d.rn, src2 := d.rm, imm := U64(d.immS))]
    case 0x81 => [ir.(op := STORE_PAIR, src1 := d.rn, src2 := d.rt, imm := U64(d.immS))]
    case 0x91 => [ir.(op := BARRIER)]
    case 0x92 => [ir.(op := BARRIER)]
    case 0x93 => [ir.(op := BARRIER)]
    case 0xFF => [ir.(op := Op.SYSCALL, imm := d.imm)]
    case _ => if 0xA0 <= d.opcode <= 0xA6 then [VectorIR(d, ir)] else [ir]
  }

  /** The instructions `build` stops after. */
  predicate EndsBlock(d: DecodedInstr) { d.category in {BRANCH, BRANCH_COND, Category.SYSCALL} }

  /** How many of `ds` the builder consumes. */
  function Consumed(ds: seq<DecodedInstr>): (n: nat)
    ensures n <= |ds|
  {
    if |ds| == 0 then 0 else if EndsBlock(ds[0]) then 1 else 1 + Consumed(ds[1..])
  }

  function BuildList(ds: seq<DecodedInstr>, pc: u64): seq<IRInst>
  {
    if |ds| == 0 then []
    else if EndsBlock(ds[0]) then BuildInstr(ds[0], pc)
    else BuildInstr(ds[0], pc) + BuildList(ds[1..], U64(pc + 4))
  }

  lemma PcAdvance(pc: u64, a: nat, b: nat)
    ensures U64(U64(pc + a) + b) == U64(pc + (a + b))
  {}

  lemma {:induction false} BuildSplit(ds: seq<DecodedInstr>, k: nat, pc: u64)
    requires k <= |ds| && forall i :: 0 <= i < k ==> !EndsBlock(ds[i])
    ensures BuildList(ds, pc) == BuildList(ds[..k], pc) + BuildList(ds[k..], U64(pc + 4 * k))
    ensures Consumed(ds) == k + Consumed(ds[k..])
  {
    hide BuildInstr;
    if k == 0 {
      assert ds[0..] == ds;
      assert ds[..0] == [];
    } else {
      BuildSplit(ds[1..], k - 1, U64(pc + 4));
      assert ds[..k][1..] == ds[1..][..k - 1];
      assert ds[k..] == ds[1..][k - 1..];
      PcAdvance(pc, 4, 4 * (k - 1));
    }
  }

  /** `IRBuilder::build`. */
  method Build(ds: seq<DecodedInstr>, startPc: u64) returns (block: IRBlock)
    ensures block.instructions == BuildList(ds, startPc)
    ensures block.pcStart == startPc
    ensures block.instrCount == Consumed(ds)
    ensures block.pcEnd == U64(startPc + 4 * Consumed(ds))
  {
    hide BuildInstr;
    var out: seq<IRInst> := [];
    var count := |ds|;
    var i := 0;
    while i < |ds|
      invariant i <= |ds| && count == |ds|
      invariant forall k :: 0 <= k < i ==> !EndsBlock(ds[k])
      invariant out == BuildList(ds[..i], startPc)
    {
      BuildSplit(ds, i, startPc);
      BuildSplit(ds[..i + 1], i, startPc);
      assert ds[..i + 1][..i] == ds[..i] && ds[..i + 1][i..] == [ds[i]];
      var pc := U64(startPc + 4 * i);
      out := out + BuildInstr(ds[i], pc);
      if EndsBlock(ds[i]) {
        count := i + 1;
        break;
      }
      assert BuildList([ds[i]], pc) == BuildInstr(ds[i], pc);
      i := i + 1;
    }
    assert i == |ds| ==> ds[..i] == ds && ds[i..] == [];
    BuildSplit(ds, i, startPc);
    block := IRBlock(out, startPc, U64(startPc + 4 * count), count);
  }
}
