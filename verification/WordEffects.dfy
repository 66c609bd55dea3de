/** From words to effects: what the interpreter does with whole classes of words, and what the builder makes
    of them. */
module WordEffects {
  import opened Words
  import opened Guest
  import opened Decoder
  import opened Interp
  import opened WordTable
  import opened WordRecord
  import opened Semantics
  import Targets
  import IR

  /** CBZ and CBNZ on 64 bits. */
  predicate IsCompareBranch(w: u32) { Targets.Top(w) in {0xB4, 0xB5} }

  /** The target as the decoder reads it: the low 19 bits, with their sign, cut to 32 bits without it. */
  function NearTarget(w: u32, pc: u64): u64 { U64(pc + Bytes(Sext(w % 0x8_0000, 0x8_0000))) }

  lemma CompareBranchRecord(w: u32)
    requires IsCompareBranch(w)
    ensures CompareBranchFields(Decode(w), w)
  {
    DecodeIs(w);
    CompareBranchRow(w);
    hide Decode, Table, Mid5, Bytes, Sext, Targets.Top, Form, Group;
  }

  predicate CompareBranchFields(a: Attempt, w: u32)
  {
    var d := a.out;
    && a.ok && d.opcode == (if Targets.Top(w) == 0xB4 then 0x55 else 0x56) && d.rn == Mid5(w) && d.size == 1
    && d.branchOffset == Bytes(Sext(w % 0x8_0000, 0x8_0000)) && d.cond == 0 && d.imm == 0
  }

  lemma CompareBranchRow(w: u32)
    requires IsCompareBranch(w)
    ensures Table(w) == Plain(if Targets.Top(w) == 0xB4 then 0x55 else 0x56) && Record(w) == BranchRecord(w, Base(w))
    ensures Group(w) == 5 && 20 <= Form(w) <= 21
  { hide Mid5, Low5, High5, Sext, Bytes; }

  /** The interpreter on CBZ and CBNZ words: to the target if and only if the register is zero, or is not. */
  lemma CompareBranches(w: u32, g: Guest)
    requires IsCompareBranch(w)
    ensures Decode(w).ok
    ensures GoesTo(g, Exec(Decode(w).out, g),
                   if (g.ctx.x[Mid5(w)] == 0) == (Targets.Top(w) == 0xB4) then NearTarget(w, g.ctx.pc) else After(g))
  {
    hide Decode, Exec, Mid5, Bytes, Sext, Targets.Top, IsCompareBranch, GoesTo;
    CompareBranchRecord(w);
    Branches(Decode(w).out, g);
  }

  /** A compare of register `rn` with zero that sets the flags, then an exit to `target` on `cond`. */
  predicate ComparesZero(irs: seq<IR.IRInst>, rn: u8, cond: u8, target: u64)
  {
    && |irs| == 2 && irs[0].op.CMP? && irs[0].src1 == rn && irs[0].src2 == IR.IR_NONE && irs[0].imm == 0
    && irs[0].flagsSet && irs[1].op.JMP_COND? && irs[1].cond == cond && irs[1].flagsUsed && irs[1].imm == target
  }

  lemma ZeroBuilt(d: DecodedInstr, pc: u64)
    requires d.opcode in {0x55, 0x56}
    ensures ComparesZero(IR.BuildInstr(d, pc), d.rn, if d.opcode == 0x55 then 0 else 1, U64(pc + d.branchOffset))
  {}

  /** The builder on CBZ and CBNZ words. */
  lemma CompareBranchBuilt(w: u32, pc: u64)
    requires IsCompareBranch(w)
    ensures Decode(w).ok
    ensures ComparesZero(IR.BuildInstr(Decode(w).out, pc), Mid5(w), if Targets.Top(w) == 0xB4 then 0 else 1, NearTarget(w, pc))
  {
    hide Decode, Mid5, Bytes, Sext, Targets.Top, IsCompareBranch, ComparesZero, IR.BuildInstr;
    CompareBranchRecord(w);
    ZeroBuilt(Decode(w).out, pc);
  }

  lemma JumpBuilt(d: DecodedInstr, pc: u64)
    requires d.opcode in {0x52, 0x53}
    ensures var irs := IR.BuildInstr(d, pc); |irs| == 1 && if d.opcode == 0x53 then irs[0].op.RET? else irs[0].op.NOP?
  {}

  /** BR and RET words go to the register they name, for the interpreter; BR is built as NOP, RET leaves by the
      lr slot. */
  lemma RegisterBranches(w: u32, g: Guest)
    requires Group(w) == 6 && 20 <= Form(w) <= 23 && RegisterBranch(w)
    ensures Decode(w).ok && GoesTo(g, Exec(Decode(w).out, g), g.ctx.x[Mid5(w)])
    ensures var irs := IR.BuildInstr(Decode(w).out, g.ctx.pc);
            |irs| == 1 && if Mid5(w) == 30 then irs[0].op.RET? else irs[0].op.NOP?
  {
    hide Decode, Exec, Table, Mid5, Bytes, Sext, Targets.Top, Form, Group, GoesTo, IR.BuildInstr, RegisterBranch, Record;
    DecodeIs(w);
    RegisterBranchRow(w);
    Jumps(Decode(w).out, g);
    JumpBuilt(Decode(w).out, g.ctx.pc);
  }

  lemma RegisterBranchRow(w: u32)
    requires Group(w) == 6 && 20 <= Form(w) <= 23 && RegisterBranch(w)
    ensures Table(w) == Plain(if Mid5(w) == 30 then 0x53 else 0x52) && Record(w) == BranchRecord(w, Base(w))
    ensures Record(w).rn == Mid5(w) < 32
  { hide Low5, High5, Sext, Bytes, LateRow; }

  /** CMP, TST, CBZ and CBNZ records are built as marked compares of the registers they name. */
  lemma ComparesBuilt(d: DecodedInstr, pc: u64)
    requires d.opcode in {0x30, 0x31}
    ensures var irs := IR.BuildInstr(d, pc);
            && |irs| == 1 && irs[0].op == (if d.opcode == 0x30 then IR.CMP else IR.TST) && irs[0].src1 == d.rn
            && irs[0].src2 == d.rm && irs[0].flagsSet && !irs[0].flagsUsed
  {}

  /** Barriers are built as barriers; NOP, MRS and MSR, and every opcode the builder has no case for, as NOP. */
  lemma SystemBuilt(d: DecodedInstr, pc: u64)
    requires d.category == SYSTEM && 0x90 <= d.opcode <= 0x95
    ensures var irs := IR.BuildInstr(d, pc);
            |irs| == 1 && irs[0].op == if 0x91 <= d.opcode <= 0x93 then IR.BARRIER else IR.NOP
  {}

  /** The size of every operation is 8 or 4 by the size field of the record; BL's link is 8 bytes wide. */
  lemma BuiltSizes(d: DecodedInstr, pc: u64, i: nat)
    requires i < |IR.BuildInstr(d, pc)|
    ensures IR.BuildInstr(d, pc)[i].size ==
            if d.size != 0 || (d.opcode == 0x51 && i == 0) || (d.opcode in {0x55, 0x56} && i == 1) then 8 else 4
  {}

  /** The builder goes on behind an instruction unless its category is one of three. */
  lemma BuildsOn(d: DecodedInstr, rest: seq<DecodedInstr>, pc: u64)
    ensures IR.BuildList([d] + rest, pc) ==
            IR.BuildInstr(d, pc) +
            (if d.category in {BRANCH, BRANCH_COND, Category.SYSCALL} then [] else IR.BuildList(rest, U64(pc + 4)))
    ensures IR.Consumed([d] + rest) == if d.category in {BRANCH, BRANCH_COND, Category.SYSCALL} then 1 else 1 + IR.Consumed(rest)
  {
    hide IR.BuildInstr;
    assert ([d] + rest)[1..] == rest;
  }
}
