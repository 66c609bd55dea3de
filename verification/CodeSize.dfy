/** The 4096-byte slot of a block is large enough. */
module CodeSize {
  import opened Words
  import opened X86
  import opened Emitter
  import opened Lower
  import opened Lowering
  import opened Decoder
  import opened FlagMerging
  import IR

  const SPILL_SIZE: int := 135
  const SLOT_SIZE: nat := 4096

  lemma EncodeLen(i: Instr)
    ensures |Encode(i)| <= 10
    ensures i.Load? || i.Store? ==> |Encode(i)| <= (if i.base % 8 == 4 then 8 else 7)
    ensures i.AluImm? ==> |Encode(i)| == 7
    ensures i.ShiftImm? ==> |Encode(i)| == 4
    ensures i.Alu? ==> |Encode(i)| == 3
    ensures i.Jcc? ==> |Encode(i)| == 6
    ensures i.Ret? || i.Nop? || i.Pushfq? || i.PopRax? ==> |Encode(i)| == 1
  { hide Le; }

  lemma FarStoreLen(i: Instr)
    requires (i.Load? || i.Store?) && i.base == R12 && i.disp > 127
    ensures |Encode(i)| == 8
  { hide Le; }

  /** One flag spill takes 135 bytes. */
  lemma SpillSize()
    ensures |EncodeAll(SaveNzcv())| == SPILL_SIZE
  {
    hide Encode, EncodeAll;
    SaveNzcvCode();
    forall i: Instr { EncodeLen(i); }
    Three(Store(R12, 512, RAX), Store(R12, 520, RCX), Store(R12, 528, RDX));
    FarStoreLen(Store(R12, 512, RAX)); FarStoreLen(Store(R12, 520, RCX)); FarStoreLen(Store(R12, 528, RDX));
    Two(Pushfq, PopRax);
    Three(Alu(MOV, RCX, RAX), ShiftImm(SHR, RCX, 7), AluImm(AluOp.AND, RCX, 1));
    ShiftedSize(6, 1);
    ShiftedSize(11, 3);
    CarrySize();
    TailSize();
  }

  lemma ShiftedSize(down: u8, up: u8)
    ensures |EncodeAll(PackShifted(down, up))| == 21
  {
    hide Encode, EncodeAll;
    forall i: Instr { EncodeLen(i); }
    Five(Alu(MOV, RDX, RAX), ShiftImm(SHR, RDX, down), AluImm(AluOp.AND, RDX, 1), ShiftImm(SHL, RDX, up), Alu(AluOp.OR, RCX, RDX));
  }

  lemma CarrySize()
    ensures |EncodeAll(PackC())| == 17
  {
    hide Encode, EncodeAll;
    forall i: Instr { EncodeLen(i); }
    var a, b := [Alu(MOV, RDX, RAX), AluImm(AluOp.AND, RDX, 1)], [ShiftImm(SHL, RDX, 2), Alu(AluOp.OR, RCX, RDX)];
    Two(a[0], a[1]);
    Two(b[0], b[1]);
    EncodeAppend(a, b);
    assert PackC() == a + b;
  }

  lemma TailSize()
    ensures |EncodeAll(SpillTail())| == 32
  {
    hide Encode, EncodeAll;
    var a, b := [Store(R12, NZCV_OFFSET, RCX), Load(RDX, R12, 528)], [Load(RCX, R12, 520), Load(RAX, R12, 512)];
    Two(a[0], a[1]);
    Two(b[0], b[1]);
    EncodeAppend(a, b);
    assert SpillTail() == a + b;
    FarStoreLen(a[0]); FarStoreLen(a[1]); FarStoreLen(b[0]); FarStoreLen(b[1]);
  }

  /** A bound for the code of an operation without its flag spill. */
  function BodyBound(ir: IR.IRInst): nat
  {
    match ir.op
    case JMP_COND => 44
    case JMP => 19
    case CALL => 19
    case RET => 17
    case SET_REG => 18
    case CMP => if ir.src2 == IR.IR_NONE || ir.src2 == IR.IR_IMM then 15 else 19
    case _ => 38
  }

  function SpillBytes(ir: IR.IRInst): nat { if ir.flagsSet then SPILL_SIZE else 0 }

  lemma InstrSize(ir: IR.IRInst, ft: u64)
    requires Coded(ir) && (ir.flagsSet ==> ir.op in {IR.ADD, IR.SUB, IR.CMP, IR.TST})
    ensures |InstrCode(ir, ft)| <= BodyBound(ir) + SpillBytes(ir)
  {
    hide Encode, EncodeAll, LongImm, SaveNzcv, HostReg, Slot;
    forall i: Instr { EncodeLen(i); }
    SpillSize();
    Nothing();
    var h := if ir.op.MOV_IMM? then HostReg(ir.dest) else HostReg(ir.src1);
    if ir.op.ADD? { ArithCode(AluOp.ADD, ir, ft); }
    else if ir.op.SUB? { ArithCode(AluOp.SUB, ir, ft); }
    else if ir.op.CMP? { CompareCode(ir, ft); }
    else if ir.op.TST? { TestCode(ir, ft); }
    else if ir.op.LOAD_PAIR? { LoadPairCode(ir, ft); }
    else if ir.op.STORE_PAIR? { StorePairCode(ir, ft); }
    else if ir.op.JMP_COND? { ConditionalCode(ir, ft); ExitSize(ir.imm); ExitSize(ft); }
    else { PlainSize(ir, ft); }
  }

  lemma PlainSize(ir: IR.IRInst, ft: u64)
    requires Coded(ir) && ir.op !in {IR.ADD, IR.SUB, IR.CMP, IR.TST, IR.LOAD_PAIR, IR.STORE_PAIR, IR.JMP_COND}
    ensures |InstrCode(ir, ft)| <= BodyBound(ir)
  {
    hide Encode, EncodeAll, SaveNzcv, HostReg, Slot;
    forall i: Instr { EncodeLen(i); }
    var l := LowerInstr(ir, ft);
    if ir.op in {IR.JMP, IR.CALL} { ExitSize(ir.imm); }
    else if |l| == 3 { Three(l[0], l[1], l[2]); assert l == [l[0], l[1], l[2]]; }
    else if |l| == 2 { Two(l[0], l[1]); assert l == [l[0], l[1]]; }
    else { assert l == [Nop]; Single(Nop); }
  }

  // ----- blocks -----

  function BodySum(irs: seq<IR.IRInst>): nat { if |irs| == 0 then 0 else BodyBound(irs[0]) + BodySum(irs[1..]) }

  /** The operations that spill flags. */
  function Setters(irs: seq<IR.IRInst>): nat
  { if |irs| == 0 then 0 else (if irs[0].flagsSet then 1 else 0) + Setters(irs[1..]) }

  lemma {:induction false} TailSizeBound(irs: seq<IR.IRInst>, ft: u64)
    requires Marked(irs) && forall ir :: ir in irs ==> Coded(ir)
    ensures |TailCode(irs, ft)| <= BodySum(irs) + SPILL_SIZE * Setters(irs) + TAKEN_LEN
    decreases |irs|
  {
    hide InstrCode, Coded, BodyBound;
    if |irs| == 0 {
      ExitSize(ft);
    } else {
      InstrSize(irs[0], ft);
      TailSizeBound(irs[1..], ft);
    }
  }

  lemma {:induction false} BodySumAppend(a: seq<IR.IRInst>, b: seq<IR.IRInst>)
    ensures BodySum(a + b) == BodySum(a) + BodySum(b)
    decreases |a|
  {
    hide BodyBound;
    if |a| == 0 { assert a + b == b; } else { BodySumAppend(a[1..], b); assert (a + b)[1..] == a[1..] + b; }
  }

  lemma {:induction false} SameBodies(a: seq<IR.IRInst>, b: seq<IR.IRInst>)
    requires |a| == |b| && forall i :: 0 <= i < |a| ==> BodyBound(a[i]) == BodyBound(b[i])
    ensures BodySum(a) == BodySum(b)
    decreases |a|
  { hide BodyBound; if |a| > 0 { SameBodies(a[1..], b[1..]); } }

  /** The bodies of one instruction: a branch may take two operations. */
  lemma BuiltBody(d: DecodedInstr, pc: u64)
    requires DecoderShaped(d)
    ensures BodySum(IR.BuildInstr(d, pc)) <= if IR.EndsBlock(d) then 59 else 38
  {
    var irs := IR.BuildInstr(d, pc);
    assert irs[1..] == if |irs| == 1 then [] else [irs[1]];
    assert BodySum(irs[1..]) == if |irs| == 1 then 0 else BodyBound(irs[1]);
  }

  lemma BuiltCoded(d: DecodedInstr, pc: u64)
    requires DecoderShaped(d)
    ensures forall ir :: ir in IR.BuildInstr(d, pc) ==> Coded(ir)
  {}

  /** Decoder output with a branch at most at the end. */
  predicate StraightRun(ds: seq<DecodedInstr>)
  { (forall d :: d in ds ==> DecoderShaped(d)) && forall i :: 0 <= i < |ds| - 1 ==> !IR.EndsBlock(ds[i]) }

  lemma {:induction false} BuiltBodies(ds: seq<DecodedInstr>, pc: u64)
    requires StraightRun(ds)
    ensures BodySum(IR.BuildList(ds, pc)) <= 38 * |ds| + 21
    ensures forall ir :: ir in IR.BuildList(ds, pc) ==> Coded(ir)
    decreases |ds|
  {
    hide IR.BuildInstr, BodyBound, Coded;
    if |ds| > 0 {
      assert ds[0] in ds;
      BuiltBody(ds[0], pc);
      BuiltCoded(ds[0], pc);
      assert forall i :: 0 <= i < |ds[1..]| - 1 ==> !IR.EndsBlock(ds[1..][i]);
      BuiltBodies(ds[1..], U64(pc + 4));
      BodySumAppend(IR.BuildInstr(ds[0], pc), IR.BuildList(ds[1..], U64(pc + 4)));
      if IR.EndsBlock(ds[0]) { assert |ds| == 1; }
    }
  }

  lemma MergedKeeps(irs: seq<IR.IRInst>)
    requires Marked(irs) && forall ir :: ir in irs ==> Coded(ir)
    ensures BodySum(Merged(irs)) == BodySum(irs)
    ensures Marked(Merged(irs)) && forall ir :: ir in Merged(irs) ==> Coded(ir)
  {
    var r := Merged(irs);
    forall i | 0 <= i < |irs| ensures BodyBound(r[i]) == BodyBound(irs[i]) && Coded(r[i]) && (r[i].flagsSet ==> irs[i].flagsSet) {
      assert irs[i] in irs;
    }
    SameBodies(r, irs);
  }

  /** Any block of at most 64 decoded instructions with at most 12 flag spills left after merging is
      emitted within its slot, so no byte is dropped. */
  lemma BlockFits(ds: seq<DecodedInstr>, pc: u64, ft: u64)
    requires StraightRun(ds) && |ds| <= 64
    requires Setters(Merged(IR.BuildList(ds, pc))) <= 12
    ensures |BlockCode(Merged(IR.BuildList(ds, pc)), ft)| <= SLOT_SIZE
  {
    var irs := IR.BuildList(ds, pc);
    BuiltBodies(ds, pc);
    BuiltListMarks(ds, pc);
    MergedKeeps(irs);
    TailSizeBound(Merged(irs), ft);
    EncodeLen(Alu(MOV, R12, RDI));
    hide Encode, TailCode, Merged;
  }

  lemma SpilledSize(ir: IR.IRInst, ft: u64)
    requires Coded(ir) && ir.flagsSet && ir.op in {IR.ADD, IR.SUB, IR.CMP, IR.TST}
    ensures |InstrCode(ir, ft)| >= SPILL_SIZE
  {
    hide Encode, EncodeAll, LongImm, SaveNzcv, HostReg, Slot, InstrCode, Coded;
    SpillSize();
    if ir.op.ADD? { ArithCode(AluOp.ADD, ir, ft); }
    else if ir.op.SUB? { ArithCode(AluOp.SUB, ir, ft); }
    else if ir.op.CMP? { CompareCode(ir, ft); }
    else { TestCode(ir, ft); }
  }

  lemma {:induction false} SpillsAddUp(irs: seq<IR.IRInst>, ft: u64)
    requires Marked(irs) && forall ir :: ir in irs ==> Coded(ir)
    ensures |TailCode(irs, ft)| >= SPILL_SIZE * Setters(irs)
    decreases |irs|
  {
    hide InstrCode, Coded;
    if |irs| > 0 {
      if irs[0].flagsSet { SpilledSize(irs[0], ft); }
      SpillsAddUp(irs[1..], ft);
    }
  }

  /** The other side of the bound: a block with 31 or more spills left never fits, so `lower_block`
      drops bytes of it, its final exit among them. */
  lemma BlockOverflows(ds: seq<DecodedInstr>, pc: u64, ft: u64)
    requires StraightRun(ds) && Setters(Merged(IR.BuildList(ds, pc))) >= 31
    ensures |BlockCode(Merged(IR.BuildList(ds, pc)), ft)| > SLOT_SIZE
  {
    var irs := IR.BuildList(ds, pc);
    BuiltBodies(ds, pc);
    BuiltListMarks(ds, pc);
    MergedKeeps(irs);
    hide Encode, TailCode, Merged;
    SpillsAddUp(Merged(irs), ft);
  }
}
