/** The interpreter, `ExecEngine::execute_decoded` (src/core/exec_engine.cpp:21-237): the
    reference semantics of the translator. */
module Interp {
  import opened Words
  import opened Guest
  import opened Decoder

  function Bit(x: u64, i: nat): bool { x / Pow2(i) % 2 == 1 }

  function PackNzcv(n: bool, z: bool, c: bool, v: bool): u64
  {
    (if n then 0x8000_0000 else 0) + (if z then 0x4000_0000 else 0) +
    (if c then 0x2000_0000 else 0) + (if v then 0x1000_0000 else 0)
  }

  predicate FlagN(nzcv: u64) { nzcv / 0x8000_0000 % 2 == 1 }
  predicate FlagZ(nzcv: u64) { nzcv / 0x4000_0000 % 2 == 1 }
  predicate FlagC(nzcv: u64) { nzcv / 0x2000_0000 % 2 == 1 }
  predicate FlagV(nzcv: u64) { nzcv / 0x1000_0000 % 2 == 1 }

  /** `check_condition` */
  predicate CheckCondition(nzcv: u64, cond: u8)
  {
    var n, z, c, v := FlagN(nzcv), FlagZ(nzcv), FlagC(nzcv), FlagV(nzcv);
    match cond
    case 0 => z
    case 1 => !z
    case 2 => c
    case 3 => !c
    case 4 => n
    case 5 => !n
    case 6 => v
    case 7 => !v
    case 8 => c && !z
    case 9 => !c || z
    case 10 => n == v
    case 11 => n != v
    case 12 => !z && n == v
    case 13 => z || n != v
    case 14 => true
    case _ => false
  }

  /** The flags the interpreter computes for CMP. */
  function CmpNzcv(a: u64, b: u64): u64
  {
    var result := U64(a - b);
    PackNzcv(result >= TWO_63, result == 0, a >= b, (AsI64(result) < 0) != (AsI64(a) < AsI64(b)))
  }

  function TstNzcv(a: u64, b: u64): u64
  { PackNzcv(And64(a, b) >= TWO_63, And64(a, b) == 0, false, false) }

  /** The two-bit halfword selector of MOVN and MOVK. */
  function HalfwordShift(d: DecodedInstr): nat { 16 * Bits(d.raw, 22, 21) }

  /** The byte offset of a single-register load or store. */
  function AccessOffset(d: DecodedInstr, c: CPUContext): u64
  {
    if d.immS != 0 && d.imm == 0 then U64(d.immS)
    else if d.rm < 31 && d.imm == 0 && d.immS == 0 && (d.opcode < 0x70 ==> d.shiftType < 4)
      then U64(c.x[d.rm] * Pow2(d.shiftType))
    else d.imm
  }

  /** The address of a single-register load or store, or of the first word of a pair. */
  function AccessAddr(d: DecodedInstr, c: CPUContext): u64
  {
    if d.opcode == 0x80 || d.opcode == 0x81 then U64(c.Reg(d.rn) + d.immS)
    else if d.opcode in {0x62, 0x63} && d.pcRelative then U64(c.pc + 4 * d.immS)
    else if d.opcode in {0x62, 0x63, 0x72, 0x73} then U64(c.Reg(d.rn) + AccessOffset(d, c))
    else U64(c.Reg(d.rn) + d.imm)
  }

  function ExecLoad(d: DecodedInstr, g: Guest, n: nat): Guest
    requires n in {1, 2, 4, 8}
  {
    var a := AccessAddr(d, g.ctx);
    // read_u32 skips the permission check (src/core/memory_manager.cpp:91-96)
    if (n == 4 || CheckPerms(g.regions, a, n, ReadAccess)) && Mapped(g.mem, a, n) then
      g.(ctx := g.ctx.SetReg(d.rt, U64(g.Load(a, n))))
    else
      g.(ctx := g.ctx.Crash())
  }

  function ExecLoadPair(d: DecodedInstr, g: Guest): Guest
  {
    var a := AccessAddr(d, g.ctx);
    var b := U64(a + 8);
    if g.CanRead(a, 8) && g.CanRead(b, 8) then
      g.(ctx := g.ctx.SetReg(d.rt, Read64(g.mem, a)).SetReg(d.rm, Read64(g.mem, b)))
    else
      g.(ctx := g.ctx.Crash())
  }

  function ExecStore(d: DecodedInstr, g: Guest, n: nat): Guest
  { g.Store(AccessAddr(d, g.ctx), n, g.ctx.Reg(d.rt)) }

  function ExecStorePair(d: DecodedInstr, g: Guest): Guest
  {
    var a := AccessAddr(d, g.ctx);
    g.Store(a, 8, g.ctx.Reg(d.rt)).Store(U64(a + 8), 8, g.ctx.Reg(d.rm))
  }

  function TestedWord(d: DecodedInstr, c: CPUContext): u64
  { if d.size != 0 then c.Reg(d.rn) else c.Reg(d.rn) % TWO_32 }

  /** Is the branch taken? Only for the branch opcodes 0x50..0x58. */
  predicate Taken(d: DecodedInstr, c: CPUContext)
  {
    match d.opcode
    case 0x54 => CheckCondition(c.nzcv, d.cond)
    case 0x55 => TestedWord(d, c) == 0
    case 0x56 => TestedWord(d, c) != 0
    case 0x57 => !Bit(c.Reg(d.rn), U32(d.imm))
    case 0x58 => Bit(c.Reg(d.rn), U32(d.imm))
    case _ => true
  }

  function BranchTo(d: DecodedInstr, c: CPUContext): u64
  {
    if d.opcode == 0x52 then c.Reg(d.rn)
    else if d.opcode == 0x53 then (if d.rn == 31 then c.x[30] else c.Reg(d.rn))
    else U64(c.pc + d.branchOffset)
  }

  predicate IsBranch(d: DecodedInstr) { 0x50 <= d.opcode <= 0x58 }

  /** Register and flag updates of the instructions that touch no memory and do not branch.
      The result still has the pc of the instruction. */
  function ExecPlain(d: DecodedInstr, c: CPUContext): CPUContext
  {
    match d.opcode
    case 0x22 => c.SetReg(d.rd, d.imm)
    case 0x23 =>
      var k := HalfwordShift(d);
      c.SetReg(d.rd, Or64(And64(c.Reg(d.rd), Not64(U64(0xFFFF * Pow2(k)))), U64(d.imm * Pow2(k))))
    case 0x21 => c.SetReg(d.rd, Not64(U64(d.imm * Pow2(HalfwordShift(d)))))
    case 0x24 => c.SetReg(d.rd, U64(c.pc + d.immS))
    case 0x25 => c.SetReg(d.rd, U64(c.pc - c.pc % 4096 + 4096 * d.immS))
    case 0x00 => c.SetReg(d.rd, U64(c.Reg(d.rn) + d.imm))
    case 0x01 => c.SetReg(d.rd, U64(c.Reg(d.rn) - d.imm))
    case 0x12 => c.SetReg(d.rd, Or64(c.Reg(d.rn), c.Reg(d.rm)))
    case 0x10 => c.SetReg(d.rd, And64(c.Reg(d.rn), c.Reg(d.rm)))
    case 0x14 => c.SetReg(d.rd, Xor64(c.Reg(d.rn), c.Reg(d.rm)))
    case 0x20 => c.SetReg(d.rd, c.Reg(d.rm))
    case 0x30 => c.(nzcv := CmpNzcv(c.Reg(d.rn), c.Reg(d.rm)))
    case 0x31 => c.(nzcv := TstNzcv(c.Reg(d.rn), c.Reg(d.rm)))
    case 0x40 => c.SetReg(d.rd, if CheckCondition(c.nzcv, d.cond) then c.Reg(d.rn) else c.Reg(d.rm))
    case 0x90 => c
    case _ => c.Crash()
  }

  /** `execute_decoded` */
  function Exec(d: DecodedInstr, g: Guest): Guest
  {
    if IsBranch(d) then
      var linked := if d.opcode == 0x51 then g.ctx.SetReg(30, U64(g.ctx.pc + 4)) else g.ctx;
      g.(ctx := if Taken(d, g.ctx) then linked.(pc := BranchTo(d, g.ctx)) else g.ctx.Next())
    else
      var done := ExecBody(d, g);
      done.(ctx := done.ctx.Next())
  }

  function ExecBody(d: DecodedInstr, g: Guest): Guest
  {
    match d.opcode
    case 0x60 => ExecLoad(d, g, 1)
    case 0x61 => ExecLoad(d, g, 2)
    case 0x62 => ExecLoad(d, g, 4)
    case 0x63 => ExecLoad(d, g, 8)
    case 0x70 => ExecStore(d, g, 1)
    case 0x71 => ExecStore(d, g, 2)
    case 0x72 => ExecStore(d, g, 4)
    case 0x73 => ExecStore(d, g, 8)
    case 0x80 => ExecLoadPair(d, g)
    case 0x81 => ExecStorePair(d, g)
    case _ => g.(ctx := ExecPlain(d, g.ctx))
  }

  /** Interpreting a list, one instruction after the other. */
  function ExecAll(ds: seq<DecodedInstr>, g: Guest): Guest
  { if |ds| == 0 then g else ExecAll(ds[1..], Exec(ds[0], g)) }
}
