/** `IRLowering` (src/backend/x86_64_lower.cpp): the emitter calls, in the order of the source. */
module Lowering {
  import opened Words
  import opened X86
  import opened Emitter
  import opened CodeBuffer
  import opened Lower
  import opened RegAlloc
  import IR

  lemma Two(a: Instr, b: Instr)
    ensures EncodeAll([a, b]) == Encode(a) + Encode(b)
  { hide Encode; assert [a, b][1..] == [b] && [b][1..] == []; assert EncodeAll([b]) == Encode(b) + []; }

  lemma Three(a: Instr, b: Instr, c: Instr)
    ensures EncodeAll([a, b, c]) == Encode(a) + Encode(b) + Encode(c)
  { hide Encode; Two(b, c); assert [a, b, c][1..] == [b, c]; }

  lemma Five(a: Instr, b: Instr, c: Instr, d: Instr, e: Instr)
    ensures EncodeAll([a, b, c, d, e]) == Encode(a) + Encode(b) + Encode(c) + Encode(d) + Encode(e)
  {
    hide Encode, EncodeAll;
    Two(a, b);
    Three(c, d, e);
    EncodeAppend([a, b], [c, d, e]);
    assert [a, b] + [c, d, e] == [a, b, c, d, e];
  }

  lemma OneByte()
    ensures Encode(Ret) == [0xC3] && Encode(Nop) == [0x90] && Encode(Pushfq) == [0x9C] && Encode(PopRax) == [0x58]
  {}

  // ----- the code of each group of operations, call by call -----

  /** The arithmetic call in the middle of ADD, SUB and CMP. */
  function Middle(op: AluOp, ir: IR.IRInst, immediate: bool): seq<u8>
  {
    if immediate then ImmCode(op, RAX, ir.imm)
    else Encode(LoadArm(ir.src2, RCX)) + Encode(Alu(op, RAX, RCX))
  }

  lemma ArithCode(op: AluOp, ir: IR.IRInst, ft: u64)
    requires (ir.op.ADD? && op == AluOp.ADD) || (ir.op.SUB? && op == AluOp.SUB)
    ensures InstrCode(ir, ft) ==
            Encode(LoadArm(ir.src1, RAX)) + Middle(op, ir, ir.src2 == IR.IR_IMM) + EncodeAll(FlagSpill(ir)) + Encode(StoreArm(RAX, ir.dest))
  {
    hide Encode, SaveNzcv, LongImm, Slot;
    if Coded(ir) {
      var load, store := [LoadArm(ir.src1, RAX)], [StoreArm(RAX, ir.dest)];
      var mid := if ir.src2 == IR.IR_IMM then [AluImm(op, RAX, U32(ir.imm))] else [LoadArm(ir.src2, RCX), Alu(op, RAX, RCX)];
      EncodeAppend(load, mid);
      EncodeAppend(load + mid, FlagSpill(ir));
      EncodeAppend(load + mid + FlagSpill(ir), store);
      Single(load[0]);
      Single(store[0]);
      Single(mid[0]);
      Two(LoadArm(ir.src2, RCX), Alu(op, RAX, RCX));
      hide EncodeAll;
      assert LowerInstr(ir, ft) == load + mid + FlagSpill(ir) + store;
    }
  }

  lemma CompareCode(ir: IR.IRInst, ft: u64)
    requires ir.op.CMP?
    ensures InstrCode(ir, ft) ==
            Encode(LoadArm(ir.src1, RAX)) + Middle(AluOp.CMP, ir, ir.src2 == IR.IR_IMM || ir.src2 == IR.IR_NONE) + EncodeAll(FlagSpill(ir))
  {
    hide Encode, SaveNzcv, LongImm, Slot;
    if Coded(ir) {
      var load := [LoadArm(ir.src1, RAX)];
      var mid := if ir.src2 == IR.IR_IMM || ir.src2 == IR.IR_NONE then [AluImm(AluOp.CMP, RAX, U32(ir.imm))]
                 else [LoadArm(ir.src2, RCX), Alu(AluOp.CMP, RAX, RCX)];
      EncodeAppend(load, mid);
      EncodeAppend(load + mid, FlagSpill(ir));
      Single(load[0]);
      Single(mid[0]);
      Two(LoadArm(ir.src2, RCX), Alu(AluOp.CMP, RAX, RCX));
      hide EncodeAll;
      assert LowerInstr(ir, ft) == load + mid + FlagSpill(ir);
    }
  }

  lemma TestCode(ir: IR.IRInst, ft: u64)
    requires ir.op.TST?
    ensures InstrCode(ir, ft) == Encode(LoadArm(ir.src1, RAX)) + Encode(LoadArm(ir.src2, RCX)) + Encode(Alu(TEST, RAX, RCX)) + EncodeAll(FlagSpill(ir))
  {
    hide Encode, SaveNzcv, Slot;
    var l := [LoadArm(ir.src1, RAX), LoadArm(ir.src2, RCX), Alu(TEST, RAX, RCX)];
    Three(l[0], l[1], l[2]);
    EncodeAppend(l, FlagSpill(ir));
  }

  lemma Single(i: Instr)
    ensures EncodeAll([i]) == Encode(i)
  { hide Encode; assert [i][1..] == []; assert Encode(i) + [] == Encode(i); }

  lemma HostNamed(arm: int)
    ensures HostReg(arm) == Named(ArmToX86(arm % 256))
  {}

  lemma LoadPairCode(ir: IR.IRInst, ft: u64)
    requires ir.op.LOAD_PAIR?
    ensures var disp := AsI32(ir.imm);
            InstrCode(ir, ft) == Encode(LoadArm(ir.src1, RAX)) + Encode(Load(RCX, RAX, disp)) + Encode(Load(RDX, RAX, Plus8(disp))) +
                                 Encode(StoreArm(RCX, ir.dest)) + Encode(StoreArm(RDX, ir.src2))
  {
    hide Encode, EncodeAll, Slot;
    var disp := AsI32(ir.imm);
    Five(LoadArm(ir.src1, RAX), Load(RCX, RAX, disp), Load(RDX, RAX, Plus8(disp)), StoreArm(RCX, ir.dest), StoreArm(RDX, ir.src2));
  }

  lemma StorePairCode(ir: IR.IRInst, ft: u64)
    requires ir.op.STORE_PAIR?
    ensures var disp := AsI32(ir.imm);
            InstrCode(ir, ft) == Encode(LoadArm(ir.src1, RAX)) + Encode(LoadArm(ir.src2, RCX)) + Encode(LoadArm(ir.imm / TWO_32, RDX)) +
                                 Encode(Store(RAX, disp, RCX)) + Encode(Store(RAX, Plus8(disp), RDX))
  {
    hide Encode, EncodeAll, Slot;
    var disp := AsI32(ir.imm);
    Five(LoadArm(ir.src1, RAX), LoadArm(ir.src2, RCX), LoadArm(ir.imm / TWO_32, RDX), Store(RAX, disp, RCX), Store(RAX, Plus8(disp), RDX));
  }

  /** Patching the displacement of a jump whose code is `head`, four bytes, `exit`. */
  lemma PatchedJump(l0: seq<u8>, head: seq<u8>, zero: seq<u8>, value: seq<u8>, exit: seq<u8>)
    requires |zero| == |value| == 4
    ensures var l1 := l0 + head + zero + exit; var at := |l0 + head|;
            l1[at..at + 4] == zero && l1[..at] + value + l1[at + 4..] == l0 + head + value + exit
  {
    var l1 := l0 + head + zero + exit;
    var at := |l0 + head|;
    assert l1[..at] == l0 + head && l1[at + 4..] == exit;
  }

  lemma InvertedHost(cond: u8)
    ensures Inverted(HostCond(cond)) < 16
  {}

  lemma JumpTogether(l0: seq<u8>, head: seq<u8>, rel: seq<u8>, exit: seq<u8>, last: seq<u8>)
    ensures l0 + head + rel + exit + last == l0 + (head + rel + exit + last)
  {}

  /** Where the cursor stands, and what the patch then does to the bytes asked for. */
  lemma PatchPlan(n: nat, l: nat, at: nat, end: nat)
    requires at == (if l + 2 <= n then l + 2 else n)
    requires end == (if l + 6 + TAKEN_LEN <= n then l + 6 + TAKEN_LEN else n)
    ensures if at + 4 <= n then at == l + 2 && end - (at + 4) == WindowRel(n, l) else WindowRel(n, l) == 0
  {}

  lemma ExitSize(pc: u64)
    ensures |EncodeAll(ExitTo(pc))| == TAKEN_LEN
  {
    Three(MovImm(RAX, pc), Store(R12, PC_OFFSET, RAX), Ret);
    assert |Encode(MovImm(RAX, pc))| == 10 && |Encode(Store(R12, PC_OFFSET, RAX))| == 8 && |Encode(Ret)| == 1;
  }

  lemma Nothing()
    ensures EncodeAll([]) == []
  {}

  function PackN(): seq<Instr> { [Alu(MOV, RCX, RAX), ShiftImm(SHR, RCX, 7), AluImm(AluOp.AND, RCX, 1)] }
  function PackShifted(down: u8, up: u8): seq<Instr>
  {
    [Alu(MOV, RDX, RAX), ShiftImm(SHR, RDX, down), AluImm(AluOp.AND, RDX, 1), ShiftImm(SHL, RDX, up),
     Alu(AluOp.OR, RCX, RDX)]
  }
  function PackC(): seq<Instr>
  { [Alu(MOV, RDX, RAX), AluImm(AluOp.AND, RDX, 1), ShiftImm(SHL, RDX, 2), Alu(AluOp.OR, RCX, RDX)] }

  lemma PackingCode()
    ensures EncodeAll(Packing()) ==
            EncodeAll(PackN()) + EncodeAll(PackShifted(6, 1)) + EncodeAll(PackC()) + EncodeAll(PackShifted(11, 3)) +
            Encode(ShiftImm(SHL, RCX, 28))
  {
    hide Encode, EncodeAll;
    var a, b, c, d, e := PackN(), PackShifted(6, 1), PackC(), PackShifted(11, 3), [ShiftImm(SHL, RCX, 28)];
    assert Packing() == a + b + c + d + e;
    hide PackN, PackShifted, PackC;
    EncodeAppend(a, b);
    EncodeAppend(a + b, c);
    EncodeAppend(a + b + c, d);
    EncodeAppend(a + b + c + d, e);
    Single(e[0]);
  }

  lemma SaveNzcvCode()
    ensures EncodeAll(SaveNzcv()) ==
            EncodeAll(SpillHead()) + EncodeAll([Pushfq, PopRax]) +
            EncodeAll(PackN()) + EncodeAll(PackShifted(6, 1)) + EncodeAll(PackC()) + EncodeAll(PackShifted(11, 3)) +
            Encode(ShiftImm(SHL, RCX, 28)) + EncodeAll(SpillTail())
  {
    hide Encode, EncodeAll, SpillHead, SpillTail, Packing, PackN, PackShifted, PackC;
    PackingCode();
    EncodeAppend(SpillHead(), [Pushfq, PopRax]);
    EncodeAppend(SpillHead() + [Pushfq, PopRax], Packing());
    EncodeAppend(SpillHead() + [Pushfq, PopRax] + Packing(), SpillTail());
  }

  lemma JccBytes(cc: u8, rel: i32)
    requires rel >= 0
    ensures Encode(Jcc(cc, rel)) == [0x0F, 0x80 + cc % 16] + Le(rel, 4)
  {
    hide Le, Rex, ModRm, ModMem;
    assert U32(rel) == rel;
    hide U32;
  }

  lemma ConditionalCode(ir: IR.IRInst, ft: u64)
    requires ir.op.JMP_COND?
    ensures InstrCode(ir, ft) ==
            [0x0F, 0x80 + Inverted(HostCond(ir.cond)) % 16] + Le(TAKEN_LEN, 4) + EncodeAll(ExitTo(ir.imm)) + EncodeAll(ExitTo(ft))
  {
    hide Encode, EncodeAll, Le, HostCond, Inverted;
    var j := Jcc(Inverted(HostCond(ir.cond)), TAKEN_LEN);
    JccBytes(Inverted(HostCond(ir.cond)), TAKEN_LEN);
    EncodeAppend([j], ExitTo(ir.imm));
    EncodeAppend([j] + ExitTo(ir.imm), ExitTo(ft));
    Single(j);
  }

  /** The bytes of a jump do not depend on its displacement in number, and with room for all of it they
      are the code of the operation. */
  lemma WindowConditional(ir: IR.IRInst, ft: u64, n: nat, at: nat)
    requires ir.op.JMP_COND?
    ensures WindowInstr(ir, ft, n, at) ==
            [0x0F, 0x80 + Inverted(HostCond(ir.cond)) % 16] + Le(WindowRel(n, at), 4)
            + EncodeAll(ExitTo(ir.imm)) + EncodeAll(ExitTo(ft))
    ensures |WindowInstr(ir, ft, n, at)| == |InstrCode(ir, ft)| == 6 + 2 * TAKEN_LEN
    ensures at + 6 + TAKEN_LEN <= n ==> WindowInstr(ir, ft, n, at) == InstrCode(ir, ft)
  {
    hide Encode, EncodeAll, InstrCode, Le, HostCond, Inverted, ExitTo;
    ConditionalCode(ir, ft);
    JccBytes(Inverted(HostCond(ir.cond)), WindowRel(n, at));
    ExitSize(ir.imm);
    ExitSize(ft);
  }

  lemma WindowSame(ir: IR.IRInst, ft: u64, n: nat, at: nat)
    ensures |WindowInstr(ir, ft, n, at)| == |InstrCode(ir, ft)|
    ensures at + |InstrCode(ir, ft)| <= n ==> WindowInstr(ir, ft, n, at) == InstrCode(ir, ft)
  {
    hide Encode, EncodeAll, InstrCode, HostCond, Inverted, ExitTo;
    if ir.op.JMP_COND? { WindowConditional(ir, ft, n, at); }
  }

  lemma {:induction false} WindowTailFits(irs: seq<IR.IRInst>, ft: u64, n: nat, at: nat)
    ensures |WindowTail(irs, ft, n, at)| == |TailCode(irs, ft)|
    ensures at + |TailCode(irs, ft)| <= n ==> WindowTail(irs, ft, n, at) == TailCode(irs, ft)
    decreases |irs|
  {
    hide InstrCode, WindowInstr, EncodeAll, ExitTo;
    if |irs| > 0 {
      WindowSame(irs[0], ft, n, at);
      WindowTailFits(irs[1..], ft, n, at + |InstrCode(irs[0], ft)|);
    }
  }

  /** With room for the whole block the window holds its code. */
  lemma EmittedFits(irs: seq<IR.IRInst>, ft: u64, n: nat)
    ensures |WindowCode(irs, ft, n)| == |BlockCode(irs, ft)|
    ensures |BlockCode(irs, ft)| <= n ==> Emitted(irs, ft, n) == BlockCode(irs, ft)
    ensures |Emitted(irs, ft, n)| == if |BlockCode(irs, ft)| <= n then |BlockCode(irs, ft)| else n
  {
    hide Encode, WindowTail, TailCode;
    WindowTailFits(irs, ft, n, |PROLOGUE|);
  }

  class IRLowering {
    const emitter: X86Emitter
    var fallthrough: u64

    constructor (emitter: X86Emitter)
      ensures this.emitter == emitter
    {
      this.emitter := emitter;
      fallthrough := 0;
    }

    /** `load_arm_reg` */
    method LoadArmReg(arm: u8, x: u8)
      requires emitter.Valid() && (x < 16 || x == NONE)
      modifies emitter`offset, emitter`log, emitter.buf
      ensures emitter.Valid() && emitter.log == old(emitter.log) + Encode(LoadArm(arm, Named(x)))
    {
      hide Encode, X86Emitter.Valid;
      var offset := if arm == 31 then 248 else 8 * arm;
      emitter.MovRegMem(x, R12, offset);
    }

    /** `store_arm_reg` */
    method StoreArmReg(x: u8, arm: u8)
      requires emitter.Valid() && (x < 16 || x == NONE)
      modifies emitter`offset, emitter`log, emitter.buf
      ensures emitter.Valid() && emitter.log == old(emitter.log) + Encode(StoreArm(Named(x), arm))
    {
      hide Encode, X86Emitter.Valid;
      var offset := if arm == 31 then 248 else 8 * arm;
      emitter.MovMemReg(R12, offset, x);
    }

    /** `emit_block_ret` */
    method EmitBlockRet(target: u64)
      requires emitter.Valid()
      modifies emitter`offset, emitter`log, emitter.buf
      ensures emitter.Valid() && emitter.log == old(emitter.log) + EncodeAll(ExitTo(target))
    {
      hide Encode, EncodeAll, X86Emitter.Valid;
      Three(MovImm(RAX, target), Store(R12, PC_OFFSET, RAX), Ret);
      OneByte();
      emitter.MovRegImm(RAX, target);
      emitter.MovMemReg(R12, PC_OFFSET, RAX);
      emitter.EmitByte(0xC3);
    }

    /** The three stores that open `save_nzcv`. */
    method SpillScratch()
      requires emitter.Valid()
      modifies emitter`offset, emitter`log, emitter.buf
      ensures emitter.Valid() && emitter.log == old(emitter.log) + EncodeAll(SpillHead())
    {
      hide Encode, EncodeAll, X86Emitter.Valid;
      Three(Store(R12, 512, RAX), Store(R12, 520, RCX), Store(R12, 528, RDX));
      emitter.MovMemReg(R12, 512, RAX);
      emitter.MovMemReg(R12, 520, RCX);
      emitter.MovMemReg(R12, 528, RDX);
    }

    method FetchFlags()
      requires emitter.Valid()
      modifies emitter`offset, emitter`log, emitter.buf
      ensures emitter.Valid() && emitter.log == old(emitter.log) + EncodeAll([Pushfq, PopRax])
    {
      hide Encode, EncodeAll, X86Emitter.Valid;
      Two(Pushfq, PopRax);
      OneByte();
      emitter.EmitByte(0x9C);
      emitter.EmitByte(0x58);
    }

    /** N from SF. */
    method PackSign()
      requires emitter.Valid()
      modifies emitter`offset, emitter`log, emitter.buf
      ensures emitter.Valid() && emitter.log == old(emitter.log) + EncodeAll(PackN())
    {
      hide Encode, EncodeAll, X86Emitter.Valid;
      Three(Alu(MOV, RCX, RAX), ShiftImm(SHR, RCX, 7), AluImm(AluOp.AND, RCX, 1));
      emitter.RegReg(MOV, RCX, RAX);
      emitter.ShiftRegImm(SHR, RCX, 7);
      emitter.RegImm(AluOp.AND, RCX, 1);
    }

    /** Z from ZF and V from OF. */
    method PackBit(down: u8, up: u8)
      requires emitter.Valid() && 0 < down
      modifies emitter`offset, emitter`log, emitter.buf
      ensures emitter.Valid() && emitter.log == old(emitter.log) + EncodeAll(PackShifted(down, up))
    {
      hide Encode, EncodeAll, X86Emitter.Valid;
      Five(Alu(MOV, RDX, RAX), ShiftImm(SHR, RDX, down), AluImm(AluOp.AND, RDX, 1), ShiftImm(SHL, RDX, up), Alu(AluOp.OR, RCX, RDX));
      emitter.RegReg(MOV, RDX, RAX);
      emitter.ShiftRegImm(SHR, RDX, down);
      emitter.RegImm(AluOp.AND, RDX, 1);
      emitter.ShiftRegImm(SHL, RDX, up);
      emitter.RegReg(AluOp.OR, RCX, RDX);
    }

    /** C from CF. */
    method PackCarry()
      requires emitter.Valid()
      modifies emitter`offset, emitter`log, emitter.buf
      ensures emitter.Valid() && emitter.log == old(emitter.log) + EncodeAll(PackC())
    {
      hide Encode, EncodeAll, X86Emitter.Valid;
      Two(Alu(MOV, RDX, RAX), AluImm(AluOp.AND, RDX, 1));
      Two(ShiftImm(SHL, RDX, 2), Alu(AluOp.OR, RCX, RDX));
      EncodeAppend([Alu(MOV, RDX, RAX), AluImm(AluOp.AND, RDX, 1)], [ShiftImm(SHL, RDX, 2), Alu(AluOp.OR, RCX, RDX)]);
      assert PackC() == [Alu(MOV, RDX, RAX), AluImm(AluOp.AND, RDX, 1)] + [ShiftImm(SHL, RDX, 2), Alu(AluOp.OR, RCX, RDX)];
      emitter.RegReg(MOV, RDX, RAX);
      emitter.RegImm(AluOp.AND, RDX, 1);
      emitter.ShiftRegImm(SHL, RDX, 2);
      emitter.RegReg(AluOp.OR, RCX, RDX);
    }

    method StoreFlags()
      requires emitter.Valid()
      modifies emitter`offset, emitter`log, emitter.buf
      ensures emitter.Valid() && emitter.log == old(emitter.log) + EncodeAll(SpillTail())
    {
      hide Encode, EncodeAll, X86Emitter.Valid;
      Two(Store(R12, NZCV_OFFSET, RCX), Load(RDX, R12, 528));
      Two(Load(RCX, R12, 520), Load(RAX, R12, 512));
      EncodeAppend([Store(R12, NZCV_OFFSET, RCX), Load(RDX, R12, 528)], [Load(RCX, R12, 520), Load(RAX, R12, 512)]);
      assert SpillTail() == [Store(R12, NZCV_OFFSET, RCX), Load(RDX, R12, 528)] + [Load(RCX, R12, 520), Load(RAX, R12, 512)];
      emitter.MovMemReg(R12, NZCV_OFFSET, RCX);
      emitter.MovRegMem(RDX, R12, 528);
      emitter.MovRegMem(RCX, R12, 520);
      emitter.MovRegMem(RAX, R12, 512);
    }

    /** `save_nzcv` */
    method SaveFlags()
      requires emitter.Valid()
      modifies emitter`offset, emitter`log, emitter.buf
      ensures emitter.Valid() && emitter.log == old(emitter.log) + EncodeAll(SaveNzcv())
    {
      hide Encode, EncodeAll, X86Emitter.Valid;
      SaveNzcvCode();
      hide SaveNzcv, SpillHead, SpillTail, PackN, PackShifted, PackC;
      SpillScratch();
      FetchFlags();
      PackSign();
      PackBit(6, 1);
      PackCarry();
      PackBit(11, 3);
      emitter.ShiftRegImm(SHL, RCX, 28);
      StoreFlags();
    }

    method LowerArith(op: AluOp, ir: IR.IRInst)
      requires emitter.Valid() && ((ir.op.ADD? && op == AluOp.ADD) || (ir.op.SUB? && op == AluOp.SUB))
      modifies emitter`offset, emitter`log, emitter.buf
      ensures emitter.Valid() && emitter.log == old(emitter.log) + InstrCode(ir, fallthrough)
    {
      hide Encode, EncodeAll, X86Emitter.Valid, InstrCode, LongImm, SaveNzcv;
      ArithCode(op, ir, fallthrough);
      LoadArmReg(ir.src1 % 256, RAX);
      if ir.src2 == IR.IR_IMM {
        emitter.RegImm(op, RAX, ir.imm);
      } else {
        LoadArmReg(ir.src2 % 256, RCX);
        emitter.RegReg(op, RAX, RCX);
      }
      Nothing();
      if ir.flagsSet { SaveFlags(); }
      StoreArmReg(RAX, ir.dest % 256);
    }

    method LowerCompare(ir: IR.IRInst)
      requires emitter.Valid() && ir.op.CMP?
      modifies emitter`offset, emitter`log, emitter.buf
      ensures emitter.Valid() && emitter.log == old(emitter.log) + InstrCode(ir, fallthrough)
    {
      hide Encode, EncodeAll, X86Emitter.Valid, InstrCode, LongImm, SaveNzcv;
      CompareCode(ir, fallthrough);
      LoadArmReg(ir.src1 % 256, RAX);
      if ir.src2 == IR.IR_IMM || ir.src2 == IR.IR_NONE {
        emitter.RegImm(AluOp.CMP, RAX, ir.imm);
      } else {
        LoadArmReg(ir.src2 % 256, RCX);
        emitter.RegReg(AluOp.CMP, RAX, RCX);
      }
      Nothing();
      if ir.flagsSet { SaveFlags(); }
    }

    method LowerTest(ir: IR.IRInst)
      requires emitter.Valid() && ir.op.TST?
      modifies emitter`offset, emitter`log, emitter.buf
      ensures emitter.Valid() && emitter.log == old(emitter.log) + InstrCode(ir, fallthrough)
    {
      hide Encode, EncodeAll, X86Emitter.Valid, InstrCode, SaveNzcv;
      TestCode(ir, fallthrough);
      LoadArmReg(ir.src1 % 256, RAX);
      LoadArmReg(ir.src2 % 256, RCX);
      emitter.RegReg(TEST, RAX, RCX);
      Nothing();
      if ir.flagsSet { SaveFlags(); }
    }

    method LowerShift(op: ShiftOp, ir: IR.IRInst)
      requires emitter.Valid() && ((ir.op.SHL? && op == SHL) || (ir.op.SHR? && op == SHR) || (ir.op.SAR? && op == SAR))
      modifies emitter`offset, emitter`log, emitter.buf
      ensures emitter.Valid() && emitter.log == old(emitter.log) + InstrCode(ir, fallthrough)
    {
      hide Encode, EncodeAll, X86Emitter.Valid;
      Three(LoadArm(ir.src1, RAX), ShiftImm(op, RAX, ir.imm % 256), StoreArm(RAX, ir.dest));
      LoadArmReg(ir.src1 % 256, RAX);
      emitter.ShiftRegImm(op, RAX, ir.imm % 256);
      StoreArmReg(RAX, ir.dest % 256);
    }

    method LowerMove(ir: IR.IRInst)
      requires emitter.Valid() && ir.op in {IR.MOV_IMM, IR.SET_REG}
      modifies emitter`offset, emitter`log, emitter.buf
      ensures emitter.Valid() && emitter.log == old(emitter.log) + InstrCode(ir, fallthrough)
    {
      hide Encode, EncodeAll, X86Emitter.Valid;
      if ir.op.MOV_IMM? || ir.src1 == IR.IR_NONE {
        var dst := if ir.op.MOV_IMM? then ArmToX86(ir.dest % 256) else RAX;
        HostNamed(ir.dest);
        Two(MovImm(Named(dst), ir.imm), StoreArm(Named(dst), ir.dest));
        emitter.MovRegImm(dst, ir.imm);
        StoreArmReg(dst, ir.dest % 256);
      } else {
        var src := ArmToX86(ir.src1 % 256);
        HostNamed(ir.src1);
        Two(LoadArm(ir.src1, Named(src)), StoreArm(Named(src), ir.dest));
        LoadArmReg(ir.src1 % 256, src);
        StoreArmReg(src, ir.dest % 256);
      }
    }

    method LowerLoad(ir: IR.IRInst)
      requires emitter.Valid() && ir.op in {IR.LOAD64, IR.LOAD32}
      modifies emitter`offset, emitter`log, emitter.buf
      ensures emitter.Valid() && emitter.log == old(emitter.log) + InstrCode(ir, fallthrough)
    {
      hide Encode, EncodeAll, X86Emitter.Valid;
      Three(LoadArm(ir.src1, RAX), Load(RAX, RAX, AsI32(ir.imm)), StoreArm(RAX, ir.dest));
      LoadArmReg(ir.src1 % 256, RAX);
      emitter.MovRegMem(RAX, RAX, AsI32(ir.imm));
      StoreArmReg(RAX, ir.dest % 256);
    }

    method LowerStore(ir: IR.IRInst)
      requires emitter.Valid() && ir.op in {IR.STORE64, IR.STORE32}
      modifies emitter`offset, emitter`log, emitter.buf
      ensures emitter.Valid() && emitter.log == old(emitter.log) + InstrCode(ir, fallthrough)
    {
      hide Encode, EncodeAll, X86Emitter.Valid;
      Three(LoadArm(ir.src1, RAX), LoadArm(ir.src2, RCX), Store(RAX, AsI32(ir.imm), RCX));
      LoadArmReg(ir.src1 % 256, RAX);
      LoadArmReg(ir.src2 % 256, RCX);
      emitter.MovMemReg(RAX, AsI32(ir.imm), RCX);
    }

    method LowerLoadPair(ir: IR.IRInst)
      requires emitter.Valid() && ir.op.LOAD_PAIR?
      modifies emitter`offset, emitter`log, emitter.buf
      ensures emitter.Valid() && emitter.log == old(emitter.log) + InstrCode(ir, fallthrough)
    {
      hide Encode, EncodeAll, X86Emitter.Valid, InstrCode;
      LoadPairCode(ir, fallthrough);
      var disp := AsI32(ir.imm);
      LoadArmReg(ir.src1 % 256, RAX);
      emitter.MovRegMem(RCX, RAX, disp);
      emitter.MovRegMem(RDX, RAX, Plus8(disp));
      StoreArmReg(RCX, ir.dest % 256);
      StoreArmReg(RDX, ir.src2 % 256);
    }

    method LowerStorePair(ir: IR.IRInst)
      requires emitter.Valid() && ir.op.STORE_PAIR?
      modifies emitter`offset, emitter`log, emitter.buf
      ensures emitter.Valid() && emitter.log == old(emitter.log) + InstrCode(ir, fallthrough)
    {
      hide Encode, EncodeAll, X86Emitter.Valid, InstrCode;
      StorePairCode(ir, fallthrough);
      var disp := AsI32(ir.imm);
      LoadArmReg(ir.src1 % 256, RAX);
      LoadArmReg(ir.src2 % 256, RCX);
      LoadArmReg(ir.imm / TWO_32 % 256, RDX);
      emitter.MovMemReg(RAX, disp, RCX);
      emitter.MovMemReg(RAX, Plus8(disp), RDX);
    }

    method LowerJump(ir: IR.IRInst)
      requires emitter.Valid() && ir.op in {IR.JMP, IR.CALL, IR.RET}
      modifies emitter`offset, emitter`log, emitter.buf
      ensures emitter.Valid() && emitter.log == old(emitter.log) + InstrCode(ir, fallthrough)
    {
      hide Encode, EncodeAll, X86Emitter.Valid;
      if ir.op.RET? {
        Three(Load(RAX, R12, LR_OFFSET), Store(R12, PC_OFFSET, RAX), Ret);
        OneByte();
        emitter.MovRegMem(RAX, R12, LR_OFFSET);
        emitter.MovMemReg(R12, PC_OFFSET, RAX);
        emitter.EmitByte(0xC3);
      } else {
        EmitBlockRet(ir.imm);
      }
    }

    /** The back-patch of a jump whose code starts at byte `l`: only if its displacement lies in the
        window, and only as far as the cursor got. */
    method PatchJump(at: nat, ghost l: nat)
      requires emitter.Valid() && |emitter.log| == l + 6 + TAKEN_LEN && emitter.log[l + 2..l + 6] == Le(0, 4)
      requires at == if l + 2 <= emitter.size then l + 2 else emitter.size
      modifies emitter`offset, emitter`log, emitter.buf
      ensures emitter.Valid()
      ensures emitter.log ==
              old(emitter.log)[..l + 2] + Le(WindowRel(emitter.size, l), 4) + old(emitter.log)[l + 6..]
    {
      hide Le, WindowRel, X86Emitter.Valid;
      emitter.OffsetIs();
      PatchPlan(emitter.size, l, at, emitter.offset);
      var rel := emitter.offset - (at + 4);
      ghost var was := emitter.log;
      assert was == was[..l + 2] + was[l + 2..l + 6] + was[l + 6..];
      emitter.PatchDword(at, U32(rel));
    }

    /** A jump with a zero displacement; `at` is the place of the displacement, or the end of the window. */
    method EmitJump(cc: u8) returns (at: nat)
      requires emitter.Valid() && cc < 16
      modifies emitter`offset, emitter`log, emitter.buf
      ensures emitter.Valid() && emitter.log == old(emitter.log) + [0x0F, 0x80 + cc] + Le(0, 4)
      ensures var l := |old(emitter.log)|; at == if l + 2 <= emitter.size then l + 2 else emitter.size
    {
      hide Le, X86Emitter.Valid;
      ghost var l0 := emitter.log;
      emitter.EmitByte(0x0F);
      emitter.EmitByte(0x80 + cc);
      assert emitter.log == l0 + [0x0F, 0x80 + cc];
      emitter.OffsetIs();
      at := emitter.offset;
      emitter.EmitDword(0);
    }

    /** A conditional exit: the jump is emitted with a zero displacement and patched once the place of
        the fall-through exit is known. */
    method LowerConditional(ir: IR.IRInst)
      requires emitter.Valid() && ir.op.JMP_COND?
      modifies emitter`offset, emitter`log, emitter.buf
      ensures emitter.Valid()
      ensures emitter.log == old(emitter.log) + WindowInstr(ir, fallthrough, emitter.size, |old(emitter.log)|)
    {
      hide Encode, EncodeAll, WindowInstr, WindowRel, InstrCode, Le, ExitTo, Inverted, HostCond, X86Emitter.Valid;
      ghost var l0, n := emitter.log, emitter.size;
      WindowConditional(ir, fallthrough, n, |l0|);
      ExitSize(ir.imm);
      var cc := Inverted(HostCond(ir.cond));
      InvertedHost(ir.cond);
      ghost var head, exit, last := [0x0F, 0x80 + cc], EncodeAll(ExitTo(ir.imm)), EncodeAll(ExitTo(fallthrough));
      ghost var rel := Le(WindowRel(n, |l0|), 4);
      var at := EmitJump(cc);
      EmitBlockRet(ir.imm);
      PatchedJump(l0, head, Le(0, 4), rel, exit);
      PatchJump(at, |l0|);
      assert emitter.log == l0 + head + rel + exit;
      EmitBlockRet(fallthrough);
      JumpTogether(l0, head, rel, exit, last);
    }

    /** VEC_DUP: raw vector instructions. */
    method LowerDup(ir: IR.IRInst)
      requires emitter.Valid() && ir.op.VEC_DUP?
      modifies emitter`offset, emitter`log, emitter.buf
      ensures emitter.Valid() && emitter.log == old(emitter.log) + InstrCode(ir, fallthrough)
    {
      hide Encode, EncodeAll, X86Emitter.Valid, LowerInstr;
      var gpr := ArmToX86(ir.src1 % 256);
      HostNamed(ir.src1);
      assert gpr % 8 == HostReg(ir.src1) % 8;
      hide HostReg, ArmToX86, Named, ModRm;
      LoadArmReg(ir.src1 % 256, gpr);
      if ir.imm == 0 {
        emitter.EmitFour(0xC4, 0xE2, 0x79, 0x78);
        emitter.EmitByte(ModRm(3, ir.dest % 8, gpr % 8));
      } else {
        emitter.EmitFour(0x66, 0x0F, 0xEF, ModRm(3, ir.dest % 8, ir.dest % 8));
      }
    }

    /** NOP, BARRIER, the other vector operations and SYSCALL. */
    method LowerRest(ir: IR.IRInst)
      requires emitter.Valid()
      requires ir.op in {IR.NOP, IR.BARRIER, IR.SYSCALL, IR.VEC_ADD8, IR.VEC_SUB8, IR.VEC_AND, IR.VEC_OR, IR.VEC_XOR}
      modifies emitter`offset, emitter`log, emitter.buf
      ensures emitter.Valid() && emitter.log == old(emitter.log) + InstrCode(ir, fallthrough)
    {
      hide Encode, EncodeAll, X86Emitter.Valid;
      if ir.op.SYSCALL? {
        emitter.EmitByte(0xCC);
      } else {
        OneByte();
        Single(Nop);
        emitter.EmitByte(0x90);
      }
    }

    /** `lower_instr` */
    method LowerOne(ir: IR.IRInst)
      requires emitter.Valid()
      modifies emitter`offset, emitter`log, emitter.buf
      ensures emitter.Valid()
      ensures emitter.log == old(emitter.log) + WindowInstr(ir, fallthrough, emitter.size, |old(emitter.log)|)
    {
      hide InstrCode, X86Emitter.Valid, Encode, EncodeAll;
      match ir.op
      case ADD => LowerArith(AluOp.ADD, ir);
      case SUB => LowerArith(AluOp.SUB, ir);
      case SHL => LowerShift(ShiftOp.SHL, ir);
      case SHR => LowerShift(ShiftOp.SHR, ir);
      case SAR => LowerShift(ShiftOp.SAR, ir);
      case CMP => LowerCompare(ir);
      case TST => LowerTest(ir);
      case MOV_IMM => LowerMove(ir);
      case SET_REG => LowerMove(ir);
      case LOAD64 => LowerLoad(ir);
      case LOAD32 => LowerLoad(ir);
      case STORE64 => LowerStore(ir);
      case STORE32 => LowerStore(ir);
      case LOAD_PAIR => LowerLoadPair(ir);
      case STORE_PAIR => LowerStorePair(ir);
      case JMP => LowerJump(ir);
      case CALL => LowerJump(ir);
      case RET => LowerJump(ir);
      case JMP_COND => LowerConditional(ir);
      case VEC_DUP => LowerDup(ir);
      case _ => LowerRest(ir);
    }

    /** `lower_block`: the window holds the code of the block as far as it has room. */
    method LowerBlock(irs: seq<IR.IRInst>, fallthroughPc: u64)
      requires emitter.Valid() && emitter.log == []
      modifies this`fallthrough, emitter`offset, emitter`log, emitter.buf
      ensures emitter.Valid() && emitter.log == WindowCode(irs, fallthroughPc, emitter.size)
    {
      hide Encode, EncodeAll, WindowInstr, X86Emitter.Valid;
      fallthrough := fallthroughPc;
      emitter.RegReg(MOV, R12, RDI);
      ghost var n := emitter.size;
      assert emitter.log == PROLOGUE;
      var i := 0;
      while i < |irs|
        invariant i <= |irs| && emitter.Valid() && fallthrough == fallthroughPc && emitter.size == n
        invariant emitter.log + WindowTail(irs[i..], fallthroughPc, n, |emitter.log|) == WindowCode(irs, fallthroughPc, n)
      {
        assert irs[i..][0] == irs[i] && irs[i..][1..] == irs[i + 1..];
        ghost var before := emitter.log;
        ghost var c := WindowInstr(irs[i], fallthroughPc, n, |before|);
        ghost var t := WindowTail(irs[i + 1..], fallthroughPc, n, |before + c|);
        LowerOne(irs[i]);
        assert before + (c + t) == before + c + t;
        i := i + 1;
      }
      EmitBlockRet(fallthrough);
    }
  }
}
