/** Lowering (src/backend/x86_64_lower.cpp): the instructions each IR operation turns into. */
module Lower {
  import opened Words
  import opened X86
  import opened Emitter
  import IR
  import RegAlloc

  const PC_OFFSET: i32 := 256
  const LR_OFFSET: i32 := 264
  const NZCV_OFFSET: i32 := 272

  /** The host register of a guest register. The NONE returned for X16..X28 is 0xFF, whose bits the
      emitter reads as R15. */
  function HostReg(arm: int): (x: Reg)
    ensures x != RSP && x != R12
  {
    var x := RegAlloc.ArmToX86(arm % 256);
    if x < 16 then x else 15
  }

  /** The context offset of a register: register numbers are cut to 8 bits. */
  function Slot(arm: int): i32 { 8 * (arm % 256) }

  function LoadArm(arm: int, x: Reg): Instr { Load(x, R12, Slot(arm)) }
  function StoreArm(x: Reg, arm: int): Instr { Store(R12, Slot(arm), x) }

  /** `save_nzcv`, call by call: scratch registers to the context, RFLAGS to RAX through the stack,
      the packing, the store, the scratch registers back. */
  function SaveNzcv(): seq<Instr> { SpillHead() + [Pushfq, PopRax] + Packing() + SpillTail() }

  function SpillHead(): seq<Instr> { [Store(R12, 512, RAX), Store(R12, 520, RCX), Store(R12, 528, RDX)] }

  function Packing(): seq<Instr>
  {
    [Alu(MOV, RCX, RAX), ShiftImm(SHR, RCX, 7), AluImm(AND, RCX, 1),
     Alu(MOV, RDX, RAX), ShiftImm(SHR, RDX, 6), AluImm(AND, RDX, 1), ShiftImm(SHL, RDX, 1), Alu(OR, RCX, RDX),
     Alu(MOV, RDX, RAX), AluImm(AND, RDX, 1), ShiftImm(SHL, RDX, 2), Alu(OR, RCX, RDX),
     Alu(MOV, RDX, RAX), ShiftImm(SHR, RDX, 11), AluImm(AND, RDX, 1), ShiftImm(SHL, RDX, 3), Alu(OR, RCX, RDX),
     ShiftImm(SHL, RCX, 28)]
  }

  function SpillTail(): seq<Instr>
  { [Store(R12, NZCV_OFFSET, RCX), Load(RDX, R12, 528), Load(RCX, R12, 520), Load(RAX, R12, 512)] }

  /** Set the pc slot and return: `emit_block_ret`, JMP and CALL. */
  function ExitTo(pc: u64): seq<Instr> { [MovImm(RAX, pc), Store(R12, PC_OFFSET, RAX), Ret] }

  /** The x86 condition chosen for an ARM condition. */
  function HostCond(cond: u8): (cc: u8)
    ensures cc < 16
  {
    match cond
    case 0 => 4
    case 1 => 5
    case 2 => 3
    case 3 => 2
    case 4 => 8
    case 5 => 9
    case 6 => 0
    case 7 => 1
    case 8 => 7
    case 9 => 6
    case 10 => 13
    case 11 => 12
    case 12 => 15
    case 13 => 14
    case 14 => 5
    case _ => 4
  }

  /** `cc ^ 1` */
  function Inverted(cc: u8): u8 { if cc % 2 == 0 then cc + 1 else cc - 1 }

  function FlagSpill(ir: IR.IRInst): seq<Instr> { if ir.flagsSet then SaveNzcv() else [] }

  function Arith(op: AluOp, ir: IR.IRInst): seq<Instr>
  {
    [LoadArm(ir.src1, RAX)]
    + (if ir.src2 == IR.IR_IMM then [AluImm(op, RAX, U32(ir.imm))] else [LoadArm(ir.src2, RCX), Alu(op, RAX, RCX)])
    + FlagSpill(ir) + [StoreArm(RAX, ir.dest)]
  }

  function Shift(op: ShiftOp, ir: IR.IRInst): seq<Instr>
  { [LoadArm(ir.src1, RAX), ShiftImm(op, RAX, ir.imm % 256), StoreArm(RAX, ir.dest)] }

  /** The displacement of the second word of a pair. */
  function Plus8(disp: i32): i32 { if disp + 8 < TWO_31 then disp + 8 else disp + 8 - TWO_32 }

  /** The bytes between a JMP_COND's jcc and its fall-through exit. */
  const TAKEN_LEN: int := 19

  /** `lower_instr`: the emitter calls, in order, for the operations of `Coded`. */
  function LowerInstr(ir: IR.IRInst, fallthrough: u64): seq<Instr>
  {
    match ir.op
    case ADD => Arith(AluOp.ADD, ir)
    case SUB => Arith(AluOp.SUB, ir)
    case SHL => Shift(ShiftOp.SHL, ir)
    case SHR => Shift(ShiftOp.SHR, ir)
    case SAR => Shift(ShiftOp.SAR, ir)
    case CMP =>
      [LoadArm(ir.src1, RAX)]
      + (if ir.src2 == IR.IR_IMM || ir.src2 == IR.IR_NONE then [AluImm(AluOp.CMP, RAX, U32(ir.imm))]
         else [LoadArm(ir.src2, RCX), Alu(AluOp.CMP, RAX, RCX)])
      + FlagSpill(ir)
    case TST => [LoadArm(ir.src1, RAX), LoadArm(ir.src2, RCX), Alu(TEST, RAX, RCX)] + FlagSpill(ir)
    case MOV_IMM => [MovImm(HostReg(ir.dest), ir.imm), StoreArm(HostReg(ir.dest), ir.dest)]
    case SET_REG =>
      if ir.src1 == IR.IR_NONE then [MovImm(RAX, ir.imm), StoreArm(RAX, ir.dest)]
      else [LoadArm(ir.src1, HostReg(ir.src1)), StoreArm(HostReg(ir.src1), ir.dest)]
    case LOAD64 => [LoadArm(ir.src1, RAX), Load(RAX, RAX, AsI32(ir.imm)), StoreArm(RAX, ir.dest)]
    case LOAD32 => [LoadArm(ir.src1, RAX), Load(RAX, RAX, AsI32(ir.imm)), StoreArm(RAX, ir.dest)]
    case STORE64 => [LoadArm(ir.src1, RAX), LoadArm(ir.src2, RCX), Store(RAX, AsI32(ir.imm), RCX)]
    case STORE32 => [LoadArm(ir.src1, RAX), LoadArm(ir.src2, RCX), Store(RAX, AsI32(ir.imm), RCX)]
    case LOAD_PAIR =>
      var disp := AsI32(ir.imm);
      [LoadArm(ir.src1, RAX), Load(RCX, RAX, disp), Load(RDX, RAX, Plus8(disp)),
       StoreArm(RCX, ir.dest), StoreArm(RDX, ir.src2)]
    case STORE_PAIR =>
      var disp := AsI32(ir.imm);
      [LoadArm(ir.src1, RAX), LoadArm(ir.src2, RCX), LoadArm(ir.imm / TWO_32, RDX),
       Store(RAX, disp, RCX), Store(RAX, Plus8(disp), RDX)]
    case JMP => ExitTo(ir.imm)
    case CALL => ExitTo(ir.imm)
    case JMP_COND => [Jcc(Inverted(HostCond(ir.cond)), TAKEN_LEN)] + ExitTo(ir.imm) + ExitTo(fallthrough)
    case RET => [Load(RAX, R12, LR_OFFSET), Store(R12, PC_OFFSET, RAX), Ret]
    case _ => [Nop]
  }

  /** The operations `LowerInstr` covers. The others emit raw bytes: an immediate above 32 bits takes
      a hand-written long form, SYSCALL is an INT3, VEC_DUP a vector instruction. */
  predicate Coded(ir: IR.IRInst)
  {
    && !ir.op.SYSCALL? && !ir.op.VEC_DUP?
    && ((ir.op.ADD? || ir.op.SUB?) && ir.src2 == IR.IR_IMM ==> ir.imm < TWO_32)
    && (ir.op.CMP? && (ir.src2 == IR.IR_IMM || ir.src2 == IR.IR_NONE) ==> ir.imm < TWO_32)
  }

  /** What the operations outside `Coded` emit. */
  function RawCode(ir: IR.IRInst): seq<u8>
  {
    if ir.op.SYSCALL? then [0xCC]
    else if ir.op.VEC_DUP? then
      var gpr := HostReg(ir.src1);
      Encode(LoadArm(ir.src1, gpr)) +
      (if ir.imm == 0 then [0xC4, 0xE2, 0x79, 0x78, ModRm(3, ir.dest % 8, gpr % 8)]
       else [0x66, 0x0F, 0xEF, ModRm(3, ir.dest % 8, ir.dest % 8)])
    else
      Encode(LoadArm(ir.src1, RAX)) +
      LongImm(if ir.op.ADD? then AluOp.ADD else if ir.op.SUB? then AluOp.SUB else AluOp.CMP, RAX, ir.imm) + EncodeAll(FlagSpill(ir)) +
      (if ir.op.CMP? then [] else Encode(StoreArm(RAX, ir.dest)))
  }

  /** SYSCALL is INT3; VEC_DUP with a non-zero immediate ends in PXOR of the vector register with itself. */
  lemma RawBytes(ir: IR.IRInst)
    ensures ir.op.SYSCALL? ==> InstrCode(ir, 0) == [0xCC]
    ensures ir.op.VEC_DUP? && ir.imm != 0 ==>
              var n := |RawCode(ir)|; n >= 4 && RawCode(ir)[n - 4..] == [0x66, 0x0F, 0xEF, 0xC0 + 9 * (ir.dest % 8)]
  { hide Encode, HostReg; }

  /** The bytes of one operation. */
  function InstrCode(ir: IR.IRInst, fallthrough: u64): seq<u8>
  { if Coded(ir) then EncodeAll(LowerInstr(ir, fallthrough)) else RawCode(ir) }

  /** The bytes of a block from some operation on, with the final exit. */
  function TailCode(irs: seq<IR.IRInst>, fallthrough: u64): seq<u8>
  {
    if |irs| == 0 then EncodeAll(ExitTo(fallthrough))
    else InstrCode(irs[0], fallthrough) + TailCode(irs[1..], fallthrough)
  }

  /** `lower_block`: context pointer to R12, the operations, the fall-through exit. */
  function BlockCode(irs: seq<IR.IRInst>, fallthrough: u64): seq<u8>
  { Encode(Alu(MOV, R12, RDI)) + TailCode(irs, fallthrough) }

  // ----- a window that may be too small -----

  /** The displacement patched into a jump whose code starts at byte `at` of a window of `n` bytes: the
      cursor stops at the end of the window, and a displacement that does not fit is not patched. */
  function WindowRel(n: nat, at: nat): (rel: nat)
    ensures rel <= TAKEN_LEN && (at + 6 + TAKEN_LEN <= n ==> rel == TAKEN_LEN) && (at + 6 <= n ==> at + 6 + rel <= n)
  { if at + 6 > n then 0 else if at + 6 + TAKEN_LEN <= n then TAKEN_LEN else n - at - 6 }

  /** The bytes asked for by one operation, whose code starts at byte `at` of the window. */
  function WindowInstr(ir: IR.IRInst, fallthrough: u64, n: nat, at: nat): seq<u8>
  {
    if ir.op.JMP_COND? then
      Encode(Jcc(Inverted(HostCond(ir.cond)), WindowRel(n, at))) + EncodeAll(ExitTo(ir.imm)) + EncodeAll(ExitTo(fallthrough))
    else InstrCode(ir, fallthrough)
  }

  function WindowTail(irs: seq<IR.IRInst>, fallthrough: u64, n: nat, at: nat): seq<u8>
  {
    if |irs| == 0 then EncodeAll(ExitTo(fallthrough))
    else
      var c := WindowInstr(irs[0], fallthrough, n, at);
      c + WindowTail(irs[1..], fallthrough, n, at + |c|)
  }

  const PROLOGUE: seq<u8> := Encode(Alu(MOV, R12, RDI))

  /** The bytes `lower_block` asks for in a window of `n` bytes, also those that are dropped. */
  function WindowCode(irs: seq<IR.IRInst>, fallthrough: u64, n: nat): seq<u8>
  { PROLOGUE + WindowTail(irs, fallthrough, n, |PROLOGUE|) }

  /** The bytes that stay in the window. */
  function Emitted(irs: seq<IR.IRInst>, fallthrough: u64, n: nat): seq<u8>
  { Clip(WindowCode(irs, fallthrough, n), n) }
}
