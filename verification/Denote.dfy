/** What flag-free IR does to the guest state, as the emitted code does it. */
module Denote {
  import opened Words
  import opened Guest
  import X86
  import opened IR
  import opened Lower

  predicate ArmReg(r: int) { 0 <= r < 32 }

  /** A second operand that is an immediate or a register. */
  predicate OperandOk(ir: IRInst) { if ir.src2 == IR_IMM then ir.imm < TWO_32 else ArmReg(ir.src2) }

  /** The register number STORE_PAIR finds for its second word. */
  function SecondStored(ir: IRInst): int { ir.imm / TWO_32 % 256 }

  /** IR the denotation covers: no flag spill, no raw bytes, register numbers inside the context. */
  predicate Denotable(ir: IRInst)
  {
    !ir.flagsSet &&
    match ir.op
    case ADD => ArmReg(ir.dest) && ArmReg(ir.src1) && OperandOk(ir)
    case SUB => ArmReg(ir.dest) && ArmReg(ir.src1) && OperandOk(ir)
    case SHL => ArmReg(ir.dest) && ArmReg(ir.src1)
    case SHR => ArmReg(ir.dest) && ArmReg(ir.src1)
    case SAR => ArmReg(ir.dest) && ArmReg(ir.src1)
    case MOV_IMM => ArmReg(ir.dest)
    case SET_REG => ArmReg(ir.dest) && ArmReg(ir.src1)
    case LOAD64 => ArmReg(ir.dest) && ArmReg(ir.src1)
    case LOAD32 => ArmReg(ir.dest) && ArmReg(ir.src1)
    case STORE64 => ArmReg(ir.src1) && ArmReg(ir.src2)
    case STORE32 => ArmReg(ir.src1) && ArmReg(ir.src2)
    case LOAD_PAIR => ArmReg(ir.dest) && ArmReg(ir.src1) && ArmReg(ir.src2)
    case STORE_PAIR => ArmReg(ir.src1) && ArmReg(ir.src2) && ArmReg(SecondStored(ir))
    case CMP => false
    case TST => false
    case SYSCALL => false
    case VEC_DUP => false
    case _ => true
  }

  predicate Exits(ir: IRInst) { ir.op in {JMP, CALL, RET, JMP_COND} }

  function Operand2(ir: IRInst, c: CPUContext): u64
    requires OperandOk(ir)
  { if ir.src2 == IR_IMM then X86.SignedImm(ir.imm) else c.x[ir.src2] }

  function Addr1(ir: IRInst, c: CPUContext): u64
    requires ArmReg(ir.src1)
  { U64(c.x[ir.src1] + AsI32(ir.imm)) }

  function Addr2(ir: IRInst, c: CPUContext): u64
    requires ArmReg(ir.src1)
  { U64(c.x[ir.src1] + Plus8(AsI32(ir.imm))) }

  /** The guest accesses of `ir` are mapped. */
  predicate AccessesMapped(ir: IRInst, g: Guest)
    requires Denotable(ir)
  {
    (ir.op in {LOAD64, LOAD32, STORE64, STORE32, LOAD_PAIR, STORE_PAIR} ==> Mapped(g.mem, Addr1(ir, g.ctx), 8)) &&
    (ir.op in {LOAD_PAIR, STORE_PAIR} ==> Mapped(g.mem, Addr2(ir, g.ctx), 8))
  }

  /** The effect of one operation that stays in the block; the pc is not touched. */
  function Body(ir: IRInst, g: Guest): Guest
    requires Denotable(ir) && !Exits(ir) && AccessesMapped(ir, g)
  {
    var c := g.ctx;
    match ir.op
    case ADD => g.(ctx := c.SetReg(ir.dest, U64(c.x[ir.src1] + Operand2(ir, c))))
    case SUB => g.(ctx := c.SetReg(ir.dest, U64(c.x[ir.src1] - Operand2(ir, c))))
    case SHL => g.(ctx := c.SetReg(ir.dest, X86.ShiftResult(X86.SHL, c.x[ir.src1], ir.imm % 64)))
    case SHR => g.(ctx := c.SetReg(ir.dest, X86.ShiftResult(X86.SHR, c.x[ir.src1], ir.imm % 64)))
    case SAR => g.(ctx := c.SetReg(ir.dest, X86.ShiftResult(X86.SAR, c.x[ir.src1], ir.imm % 64)))
    case MOV_IMM => g.(ctx := c.SetReg(ir.dest, ir.imm))
    case SET_REG => g.(ctx := c.SetReg(ir.dest, if ir.src1 == IR_NONE then ir.imm else c.x[ir.src1]))
    case LOAD64 => g.(ctx := c.SetReg(ir.dest, Read64(g.mem, Addr1(ir, c))))
    case LOAD32 => g.(ctx := c.SetReg(ir.dest, Read64(g.mem, Addr1(ir, c))))
    case STORE64 => g.(mem := Write64(g.mem, Addr1(ir, c), c.x[ir.src2]))
    case STORE32 => g.(mem := Write64(g.mem, Addr1(ir, c), c.x[ir.src2]))
    case LOAD_PAIR =>
      g.(ctx := c.SetReg(ir.dest, Read64(g.mem, Addr1(ir, c))).SetReg(ir.src2, Read64(g.mem, Addr2(ir, c))))
    case STORE_PAIR =>
      g.(mem := Write64(Write64(g.mem, Addr1(ir, c), c.x[ir.src2]), Addr2(ir, c), c.x[SecondStored(ir)]))
    case _ => g
  }

  function ExitPc(ir: IRInst, c: CPUContext): u64
    requires Exits(ir)
  { if ir.op.RET? then c.lr else ir.imm }

  /** Every access on the way through the block is mapped, and a conditional exit at its end has equal
      targets: where it goes does not depend on the host flags. */
  predicate RunsClean(irs: seq<IRInst>, ft: u64, g: Guest)
    requires forall ir :: ir in irs ==> Denotable(ir)
  {
    |irs| == 0 ||
    if Exits(irs[0]) then irs[0].op.JMP_COND? ==> irs[0].imm == ft
    else AccessesMapped(irs[0], g) && RunsClean(irs[1..], ft, Body(irs[0], g))
  }

  /** The effect of a whole block: the operations up to the first exit, then the pc. */
  function Block(irs: seq<IRInst>, fallthrough: u64, g: Guest): Guest
    requires forall ir :: ir in irs ==> Denotable(ir)
    requires RunsClean(irs, fallthrough, g)
  {
    if |irs| == 0 then g.(ctx := g.ctx.(pc := fallthrough))
    else if Exits(irs[0]) then g.(ctx := g.ctx.(pc := ExitPc(irs[0], g.ctx)))
    else Block(irs[1..], fallthrough, Body(irs[0], g))
  }
}
