/** What the code of one IR operation does to the machine, flag spill included, and exactly which
    addresses it needs. */
module Steps {
  import opened Words
  import opened X86
  import opened Emitter
  import opened Lower
  import opened Refine
  import IR

  // ----- lists of instructions -----

  lemma MeaningsAppend(a: seq<Instr>, b: seq<Instr>)
    ensures Meanings(a + b) == Meanings(a) + Meanings(b)
  { hide Meaning; }

  /** The effect of two lists in a row. */
  function Then(e: Effect, b: seq<Instr>): Effect
    requires Straight(b)
  { match e case Fault => Fault case Done(m) => Effects(b, m) }

  lemma {:induction false} EffectsSplit(a: seq<Instr>, b: seq<Instr>, m: Machine)
    requires Straight(a) && Straight(b)
    ensures Straight(a + b) && Effects(a + b, m) == Then(Effects(a, m), b)
    decreases |a|
  {
    hide Effect1;
    if |a| == 0 {
      assert a + b == b;
    } else {
      assert (a + b)[1..] == a[1..] + b;
      if Effect1(a[0], m).Done? { EffectsSplit(a[1..], b, Effect1(a[0], m).m); }
    }
  }

  lemma OneEffect(i: Instr, m: Machine)
    requires !i.Ret? && !i.Jcc?
    ensures Straight([i]) && Effects([i], m) == Effect1(i, m)
  { hide Effect1; assert [i][1..] == []; }

  /** The register an instruction writes, or -1. */
  function Target(i: Instr): int
  {
    match i
    case MovImm(r, _) => r
    case Alu(_, r, _) => r
    case AluImm(_, r, _) => r
    case ShiftImm(_, r, _) => r
    case Load(r, _, _) => r
    case _ => -1
  }

  /** As its bytes are read, `i` transfers no control, leaves RSP and the base registers alone, and
      addresses memory through them only. */
  predicate Steady(i: Instr, bases: set<int>)
  {
    && Emittable(i) && !RipSlip(i)
    && !i.Ret? && !i.Jcc? && !i.Pushfq? && !i.PopRax?
    && Target(Meaning(i)) !in bases && Target(Meaning(i)) != RSP
    && (i.Load? || i.Store? ==> i.base as int in bases)
  }

  predicate AllSteady(list: seq<Instr>, bases: set<int>) { forall i :: i in list ==> Steady(i, bases) }

  /** The memory operand of `i`, if any, is mapped in `m`. */
  predicate AccessMapped(i: Instr, m: Machine)
  { i.Load? || i.Store? ==> Mapped(m.mem, m.Ea(i.base, i.disp), 8) }

  predicate AllAccessMapped(list: seq<Instr>, m: Machine) { forall i :: i in list ==> AccessMapped(i, m) }

  /** The mapping, RSP and the base registers are those of `m`. */
  predicate Held(bases: set<int>, m: Machine, m': Machine)
  {
    m'.mem.Keys == m.mem.Keys && m'.regs[RSP] == m.regs[RSP] &&
    forall r: Reg :: r as int in bases ==> m'.regs[r] == m.regs[r]
  }

  lemma SteadyStep(i: Instr, bases: set<int>, m: Machine)
    requires Steady(i, bases)
    ensures !Meaning(i).Ret? && !Meaning(i).Jcc?
    ensures var e := Effect1(Meaning(i), m);
            if AccessMapped(i, m) then e.Done? && Held(bases, m, e.m) else e.Fault?
  { hide AluResult, AluFlags, ShiftResult, ShiftFlags, Mapped, Write64, Read64; }

  lemma HeldMapped(i: Instr, bases: set<int>, m: Machine, m': Machine)
    requires Steady(i, bases) && Held(bases, m, m')
    ensures AccessMapped(i, m') <==> AccessMapped(i, m)
  { assert forall k :: k in m.mem <==> k in m.mem.Keys; assert forall k :: k in m'.mem <==> k in m'.mem.Keys; }

  /** Code that only addresses memory through fixed base registers runs through exactly when all its
      operands are mapped on entry. */
  lemma {:induction false} SteadyRuns(list: seq<Instr>, bases: set<int>, m: Machine)
    requires AllSteady(list, bases)
    ensures Straight(Meanings(list))
    ensures var e := Effects(Meanings(list), m);
            if AllAccessMapped(list, m) then e.Done? && Held(bases, m, e.m) else e.Fault?
    decreases |list|
  {
    hide Effect1, Steady, AccessMapped, Meaning, Held;
    if |list| == 0 {
      HeldSelf(bases, m);
    } else {
      var i, rest := list[0], list[1..];
      assert list == [i] + rest;
      SteadyStep(i, bases, m);
      var read, m1 := Meanings(list), Effect1(Meaning(i), m);
      assert read[0] == Meaning(i) && read[1..] == Meanings(rest);
      SteadyRuns(rest, bases, if m1.Done? then m1.m else m);
      if m1.Done? {
        forall j | j in rest ensures AccessMapped(j, m1.m) <==> AccessMapped(j, m) { HeldMapped(j, bases, m, m1.m); }
        if AllAccessMapped(list, m) { HeldTwice(bases, m, m1.m, Effects(Meanings(rest), m1.m).m); }
      }
    }
  }

  lemma HeldSelf(bases: set<int>, m: Machine)
    ensures Held(bases, m, m)
  {}

  lemma HeldTwice(bases: set<int>, m: Machine, m1: Machine, m2: Machine)
    requires Held(bases, m, m1) && Held(bases, m1, m2)
    ensures Held(bases, m, m2)
  {}

  /** The forms the lowering uses. One-register forms on RCX name R9. */
  lemma SteadyForms(bases: set<int>)
    requires bases <= {RAX as int, R12 as int}
    ensures forall x: Reg, b: Reg, k: i32 :: x != RSP && x as int !in bases && b % 8 != 5 && b as int in bases ==> Steady(Load(x, b, k), bases)
    ensures forall x: Reg, b: Reg, k: i32 :: b % 8 != 5 && b as int in bases ==> Steady(Store(b, k, x), bases)
    ensures forall x: Reg, v: u64 :: x != RSP && x as int !in bases ==> Steady(MovImm(x, v), bases)
    ensures forall op: AluOp, x: Reg, y: Reg :: x != RSP && x as int !in bases ==> Steady(Alu(op, x, y), bases)
    ensures forall op: AluOp, x: Reg, v: u32 ::
              x <= RDX && x as int !in bases && op != TEST && op != MOV ==> Steady(AluImm(op, x, v), bases)
    ensures forall op: ShiftOp, x: Reg, n: u8 :: x <= RDX && x as int !in bases ==> Steady(ShiftImm(op, x, n), bases)
    ensures Steady(Nop, bases)
  {}

  // ----- the flag spill -----

  /** The address PUSHFQ writes to. */
  function Pushed(m: Machine): u64 { var top: int := m.regs[RSP]; U64(top - 8) }

  const CONTEXT: set<int> := {R12 as int}

  predicate CtxMapped(m: Machine, disp: i32) { Mapped(m.mem, m.Ea(R12, disp), 8) }

  /** What the spill accesses: three scratch words and the nzcv slot of the context, one stack word. */
  predicate SpillMapped(m: Machine)
  {
    && CtxMapped(m, 512) && CtxMapped(m, 520) && CtxMapped(m, 528) && CtxMapped(m, NZCV_OFFSET)
    && Mapped(m.mem, Pushed(m), 8)
  }

  lemma SpillSteady()
    ensures AllSteady(SpillHead(), CONTEXT) && AllSteady(Packing(), CONTEXT) && AllSteady(SpillTail(), CONTEXT)
  { hide Steady; SteadyForms(CONTEXT); }

  lemma PushPopEffect(m: Machine)
    ensures var l := [Pushfq, PopRax]; Straight(l) && Meanings(l) == l
    ensures var e := Effects([Pushfq, PopRax], m);
            if Mapped(m.mem, Pushed(m), 8) then e.Done? && Held(CONTEXT, m, e.m) else e.Fault?
  {
    hide Le, UnLe, Rflags;
    var e := Effect1(Pushfq, m);
    assert [Pushfq, PopRax][1..] == [PopRax];
    if e.Done? {
      OneEffect(PopRax, e.m);
      SameKeys(m.mem, e.m.mem, Pushed(m), 8);
      var top: int := m.regs[RSP];
      assert U64(U64(top - 8) + 8) == top;
    }
  }

  lemma SpillParts()
    ensures Meanings(SaveNzcv()) == Meanings(SpillHead()) + [Pushfq, PopRax] + Meanings(Packing()) + Meanings(SpillTail())
  {
    hide Packing, SpillHead, SpillTail;
    var a, b, c, d := SpillHead(), [Pushfq, PopRax], Packing(), SpillTail();
    MeaningsAppend(a + b + c, d);
    MeaningsAppend(a + b, c);
    MeaningsAppend(a, b);
    assert Meanings(b) == b;
  }

  lemma SpillAccesses(m: Machine)
    ensures AllAccessMapped(SpillHead(), m) <==> CtxMapped(m, 512) && CtxMapped(m, 520) && CtxMapped(m, 528)
    ensures AllAccessMapped(Packing(), m)
    ensures AllAccessMapped(SpillTail(), m) <==>
            CtxMapped(m, NZCV_OFFSET) && CtxMapped(m, 528) && CtxMapped(m, 520) && CtxMapped(m, 512)
  {
    hide Mapped;
    var h, t := SpillHead(), SpillTail();
    assert h[0] in h && h[1] in h && h[2] in h && t[0] in t && t[1] in t && t[2] in t && t[3] in t;
  }

  lemma HeldCtx(m: Machine, m': Machine, disp: i32)
    requires Held(CONTEXT, m, m')
    ensures CtxMapped(m', disp) <==> CtxMapped(m, disp)
  { HeldMapped(Load(RAX, R12, disp), CONTEXT, m, m'); }

  lemma HeldPush(bases: set<int>, m: Machine, m': Machine)
    requires Held(bases, m, m')
    ensures Mapped(m'.mem, Pushed(m'), 8) <==> Mapped(m.mem, Pushed(m), 8)
  { assert forall k :: k in m.mem <==> k in m.mem.Keys; assert forall k :: k in m'.mem <==> k in m'.mem.Keys; }

  /** The spill runs through exactly when its accesses are mapped. */
  lemma SpillRuns(m: Machine)
    ensures Straight(Meanings(SaveNzcv()))
    ensures var e := Effects(Meanings(SaveNzcv()), m);
            if SpillMapped(m) then e.Done? && Held(CONTEXT, m, e.m) else e.Fault?
  {
    hide SaveNzcv, SpillHead, Packing, SpillTail, Effects, Held, Meanings, CtxMapped, Mapped, AllAccessMapped,
      AllSteady, Pushed;
    SpillParts();
    SpillSteady();
    var a, b, c, d := Meanings(SpillHead()), [Pushfq, PopRax], Meanings(Packing()), Meanings(SpillTail());
    SteadyRuns(SpillHead(), CONTEXT, m);
    SpillAccesses(m);
    PushPopEffect(m);
    SteadyRuns(Packing(), CONTEXT, m);
    SteadyRuns(SpillTail(), CONTEXT, m);
    EffectsSplit(a, b, m);
    EffectsSplit(a + b, c, m);
    EffectsSplit(a + b + c, d, m);
    if Effects(a, m).Done? {
      var m1 := Effects(a, m).m;
      HeldPush(CONTEXT, m, m1);
      PushPopEffect(m1);
      if Effects(b, m1).Done? {
        var m2 := Effects(b, m1).m;
        SteadyRuns(Packing(), CONTEXT, m2);
        SpillAccesses(m2);
        var m3 := Effects(c, m2).m;
        HeldTwice(CONTEXT, m, m1, m2);
        HeldTwice(CONTEXT, m, m2, m3);
        SteadyRuns(SpillTail(), CONTEXT, m3);
        SpillAccesses(m3);
        HeldCtx(m, m3, NZCV_OFFSET); HeldCtx(m, m3, 512); HeldCtx(m, m3, 520); HeldCtx(m, m3, 528);
        if Effects(d, m3).Done? { HeldTwice(CONTEXT, m, m3, Effects(d, m3).m); }
      }
    }
  }

  // ----- the operations -----

  /** The operations after which control goes on in the block. */
  predicate FallsThrough(ir: IR.IRInst) { ir.op !in {IR.JMP, IR.CALL, IR.RET, IR.JMP_COND} }

  /** The operations that may spill the flags. */
  predicate IsSetter(ir: IR.IRInst) { ir.op in {IR.ADD, IR.SUB, IR.CMP, IR.TST} }

  function SetterAlu(ir: IR.IRInst): AluOp
    requires IsSetter(ir)
  {
    if ir.op.ADD? then AluOp.ADD else if ir.op.SUB? then AluOp.SUB else if ir.op.CMP? then AluOp.CMP else TEST
  }

  /** The second operand is an immediate. */
  predicate TakesImm(ir: IR.IRInst)
  { (ir.src2 == IR.IR_IMM && !ir.op.TST?) || (ir.op.CMP? && ir.src2 == IR.IR_NONE) }

  /** Operands and the operation itself. */
  function SetterHead(ir: IR.IRInst): seq<Instr>
    requires IsSetter(ir)
  {
    [LoadArm(ir.src1, RAX)] +
    (if TakesImm(ir) then [AluImm(SetterAlu(ir), RAX, U32(ir.imm))]
     else [LoadArm(ir.src2, RCX), Alu(SetterAlu(ir), RAX, RCX)])
  }

  /** ADD and SUB store their result, behind the spill. */
  function SetterTail(ir: IR.IRInst): seq<Instr>
  { if ir.op in {IR.ADD, IR.SUB} then [StoreArm(RAX, ir.dest)] else [] }

  lemma SetterParts(ir: IR.IRInst, ft: u64)
    requires IsSetter(ir)
    ensures LowerInstr(ir, ft) == SetterHead(ir) + FlagSpill(ir) + SetterTail(ir)
  { hide SaveNzcv; }

  /** The memory operations: the base register into RAX, then accesses through it. */
  predicate IsMemory(ir: IR.IRInst)
  { ir.op in {IR.LOAD64, IR.LOAD32, IR.STORE64, IR.STORE32, IR.LOAD_PAIR, IR.STORE_PAIR} }

  predicate SlotMapped(m: Machine, arm: int) { CtxMapped(m, Slot(arm)) }

  /** The guest register `arm`, as the code reads it. */
  function SlotWord(m: Machine, arm: int): u64
    requires SlotMapped(m, arm)
  { Read64(m.mem, m.Ea(R12, Slot(arm))) }

  /** The guest address of a memory operation. */
  function GuestAddr(ir: IR.IRInst, m: Machine, disp: i32): u64
    requires SlotMapped(m, ir.src1)
  { U64(SlotWord(m, ir.src1) + disp) }

  /** Exactly what the code of an operation that stays in the block accesses. */
  predicate OpMapped(ir: IR.IRInst, m: Machine)
    requires FallsThrough(ir)
  {
    var disp := AsI32(ir.imm);
    match ir.op
    case ADD => SetterMapped(ir, m) && SlotMapped(m, ir.dest)
    case SUB => SetterMapped(ir, m) && SlotMapped(m, ir.dest)
    case CMP => SetterMapped(ir, m)
    case TST => SetterMapped(ir, m)
    case SHL => SlotMapped(m, ir.src1) && SlotMapped(m, ir.dest)
    case SHR => SlotMapped(m, ir.src1) && SlotMapped(m, ir.dest)
    case SAR => SlotMapped(m, ir.src1) && SlotMapped(m, ir.dest)
    case MOV_IMM => SlotMapped(m, ir.dest)
    case SET_REG => (ir.src1 != IR.IR_NONE ==> SlotMapped(m, ir.src1)) && SlotMapped(m, ir.dest)
    case LOAD64 => SlotMapped(m, ir.src1) && Mapped(m.mem, GuestAddr(ir, m, disp), 8) && SlotMapped(m, ir.dest)
    case LOAD32 => SlotMapped(m, ir.src1) && Mapped(m.mem, GuestAddr(ir, m, disp), 8) && SlotMapped(m, ir.dest)
    case STORE64 => SlotMapped(m, ir.src1) && SlotMapped(m, ir.src2) && Mapped(m.mem, GuestAddr(ir, m, disp), 8)
    case STORE32 => SlotMapped(m, ir.src1) && SlotMapped(m, ir.src2) && Mapped(m.mem, GuestAddr(ir, m, disp), 8)
    case LOAD_PAIR =>
      && SlotMapped(m, ir.src1)
      && Mapped(m.mem, GuestAddr(ir, m, disp), 8) && Mapped(m.mem, GuestAddr(ir, m, Plus8(disp)), 8)
      && SlotMapped(m, ir.dest) && SlotMapped(m, ir.src2)
    case STORE_PAIR =>
      && SlotMapped(m, ir.src1) && SlotMapped(m, ir.src2) && SlotMapped(m, ir.imm / TWO_32)
      && Mapped(m.mem, GuestAddr(ir, m, disp), 8) && Mapped(m.mem, GuestAddr(ir, m, Plus8(disp)), 8)
    case _ => true
  }

  predicate SetterMapped(ir: IR.IRInst, m: Machine)
  {
    && SlotMapped(m, ir.src1) && (!TakesImm(ir) ==> SlotMapped(m, ir.src2))
    && (ir.flagsSet ==> SpillMapped(m))
  }

  /** The effect of the code of an operation that stays in the block. */
  function OpEffect(ir: IR.IRInst, m: Machine): Effect
    requires FallsThrough(ir)
  {
    OpStraight(ir);
    Effects(Meanings(LowerInstr(ir, 0)), m)
  }

  lemma OpStraight(ir: IR.IRInst)
    requires FallsThrough(ir)
    ensures Straight(LowerInstr(ir, 0)) && Straight(Meanings(LowerInstr(ir, 0)))
    ensures forall i :: i in LowerInstr(ir, 0) ==> Emittable(i) && !RipSlip(i)
  {
    hide SaveNzcv, SetterHead, SetterTail, Meaning;
    if IsSetter(ir) {
      SetterParts(ir, 0);
      SetterSteady(ir);
      SpillDecodable();
      Decodable(SetterHead(ir), CONTEXT);
      Decodable(SetterTail(ir), CONTEXT);
      var a, b, c := SetterHead(ir), FlagSpill(ir), SetterTail(ir);
      MeaningsAppend(a + b, c);
      MeaningsAppend(a, b);
    } else if IsMemory(ir) {
      MemoryPlain(ir, 0);
    } else {
      PlainSteady(ir, 0);
      Decodable(LowerInstr(ir, 0), CONTEXT);
    }
  }

  lemma Decodable(list: seq<Instr>, bases: set<int>)
    requires AllSteady(list, bases)
    ensures Straight(list) && Straight(Meanings(list)) && forall i :: i in list ==> Emittable(i) && !RipSlip(i)
  {
    hide Meaning, Emittable;
    forall k | 0 <= k < |list| ensures !Meanings(list)[k].Ret? && !Meanings(list)[k].Jcc? {
      assert list[k] in list;
      MeaningStraight(list[k]);
    }
  }

  lemma MeaningStraight(i: Instr)
    ensures Meaning(i).Ret? == i.Ret? && Meaning(i).Jcc? == i.Jcc?
  {}

  lemma SpillDecodable()
    ensures Straight(SaveNzcv()) && Straight(Meanings(SaveNzcv()))
    ensures forall i :: i in SaveNzcv() ==> Emittable(i) && !RipSlip(i)
  {
    hide SpillHead, Packing, SpillTail, Meaning;
    SpillSteady();
    Decodable(SpillHead(), CONTEXT);
    Decodable(Packing(), CONTEXT);
    Decodable(SpillTail(), CONTEXT);
    SpillParts();
  }

  lemma SetterSteady(ir: IR.IRInst)
    requires IsSetter(ir)
    ensures AllSteady(SetterHead(ir), CONTEXT) && AllSteady(SetterTail(ir), CONTEXT)
  { hide Steady; SteadyForms(CONTEXT); }

  lemma PlainSteady(ir: IR.IRInst, ft: u64)
    requires FallsThrough(ir) && !IsSetter(ir) && !IsMemory(ir)
    ensures AllSteady(LowerInstr(ir, ft), CONTEXT)
  { hide Steady; SteadyForms(CONTEXT); }

  /** The accesses through RAX. */
  function Through(ir: IR.IRInst): seq<Instr>
    requires IsMemory(ir)
  {
    var disp := AsI32(ir.imm);
    match ir.op
    case LOAD64 => [Load(RAX, RAX, disp)]
    case LOAD32 => [Load(RAX, RAX, disp)]
    case LOAD_PAIR => [Load(RCX, RAX, disp), Load(RDX, RAX, Plus8(disp)), StoreArm(RCX, ir.dest), StoreArm(RDX, ir.src2)]
    case STORE_PAIR =>
      [LoadArm(ir.src2, RCX), LoadArm(ir.imm / TWO_32, RDX), Store(RAX, disp, RCX), Store(RAX, Plus8(disp), RDX)]
    case _ => [LoadArm(ir.src2, RCX), Store(RAX, disp, RCX)]
  }

  function Behind(ir: IR.IRInst): seq<Instr>
  { if ir.op in {IR.LOAD64, IR.LOAD32} then [StoreArm(RAX, ir.dest)] else [] }

  lemma MemoryParts(ir: IR.IRInst, ft: u64)
    requires IsMemory(ir)
    ensures LowerInstr(ir, ft) == [LoadArm(ir.src1, RAX)] + Through(ir) + Behind(ir)
  {}

  /** Loads and stores mean themselves. */
  lemma MemoryPlain(ir: IR.IRInst, ft: u64)
    requires IsMemory(ir)
    ensures var l := LowerInstr(ir, ft);
            Meanings(l) == l && forall i :: i in l ==> (i.Load? || i.Store?) && Emittable(i) && !RipSlip(i)
  {}

  const GUEST: set<int> := {RAX as int, R12 as int}

  lemma ThroughSteady(ir: IR.IRInst)
    requires IsMemory(ir) && ir.op !in {IR.LOAD64, IR.LOAD32}
    ensures AllSteady(Through(ir), GUEST)
  { hide Steady; SteadyForms(GUEST); }

  lemma LoadArmEffect(arm: int, x: Reg, m: Machine)
    ensures Effect1(LoadArm(arm, x), m) == if SlotMapped(m, arm) then Done(m.Set(x, SlotWord(m, arm))) else Fault
  {}

  /** The accesses through RAX, once it holds the base register. */
  lemma ThroughAccesses(ir: IR.IRInst, m: Machine)
    requires IsMemory(ir) && ir.op !in {IR.LOAD64, IR.LOAD32} && SlotMapped(m, ir.src1)
    ensures AllAccessMapped(Through(ir), m.Set(RAX, SlotWord(m, ir.src1))) <==> OpMapped(ir, m)
  {
    hide Mapped, Read64, AsI32;
    var l := Through(ir);
    assert l[0] in l && l[1] in l;
    if |l| == 4 {
      assert l[2] in l && l[3] in l;
      assert l == [l[0], l[1], l[2], l[3]];
    } else {
      assert l == [l[0], l[1]];
    }
  }

  lemma PairRuns(ir: IR.IRInst, m: Machine)
    requires IsMemory(ir) && ir.op !in {IR.LOAD64, IR.LOAD32}
    ensures var e := OpEffect(ir, m);
            if OpMapped(ir, m) then e.Done? && Held(CONTEXT, m, e.m) else e.Fault?
  {
    hide Effects, Through, Meanings, LowerInstr, AllSteady, AllAccessMapped, Mapped, Read64;
    OpStraight(ir);
    MemoryParts(ir, 0);
    MemoryPlain(ir, 0);
    var a, b := [LoadArm(ir.src1, RAX)], Through(ir);
    assert LowerInstr(ir, 0) == a + b;
    OneEffect(a[0], m);
    LoadArmEffect(ir.src1, RAX, m);
    ThroughSteady(ir);
    Decodable(b, GUEST);
    ThroughMeans(ir);
    EffectsSplit(a, b, m);
    if SlotMapped(m, ir.src1) {
      ThroughAccesses(ir, m);
      SteadyRuns(b, GUEST, m.Set(RAX, SlotWord(m, ir.src1)));
    }
  }

  lemma ThroughMeans(ir: IR.IRInst)
    requires IsMemory(ir)
    ensures Meanings(Through(ir)) == Through(ir) && Straight(Through(ir))
  {}

  lemma LoadRuns(ir: IR.IRInst, m: Machine)
    requires ir.op in {IR.LOAD64, IR.LOAD32}
    ensures var e := OpEffect(ir, m);
            if OpMapped(ir, m) then e.Done? && Held(CONTEXT, m, e.m) else e.Fault?
  {
    hide Effects, Effect1, LowerInstr, Mapped, Read64;
    OpStraight(ir);
    MemoryPlain(ir, 0);
    MemoryParts(ir, 0);
    var load, store := Load(RAX, RAX, AsI32(ir.imm)), StoreArm(RAX, ir.dest);
    assert LowerInstr(ir, 0) == [LoadArm(ir.src1, RAX)] + [load] + [store];
    OneEffect(LoadArm(ir.src1, RAX), m);
    EffectsSplit([LoadArm(ir.src1, RAX)], [load], m);
    EffectsSplit([LoadArm(ir.src1, RAX)] + [load], [store], m);
    LoadArmEffect(ir.src1, RAX, m);
    if SlotMapped(m, ir.src1) {
      var m1 := m.Set(RAX, SlotWord(m, ir.src1));
      LoadThroughRax(AsI32(ir.imm), m1);
      OneEffect(load, m1);
      if Mapped(m.mem, GuestAddr(ir, m, AsI32(ir.imm)), 8) {
        var m2 := Effect1(load, m1).m;
        SteadyForms(CONTEXT);
        assert AllSteady([store], CONTEXT) && Meanings([store]) == [store];
        SteadyRuns([store], CONTEXT, m2);
        assert AllAccessMapped([store], m2) <==> SlotMapped(m, ir.dest) by { assert store in [store]; }
      }
    }
  }

  lemma LoadThroughRax(disp: i32, m: Machine)
    ensures var a := m.Ea(RAX, disp);
            Effect1(Load(RAX, RAX, disp), m) == if Mapped(m.mem, a, 8) then Done(m.Set(RAX, Read64(m.mem, a))) else Fault
  {}

  lemma HeadAccesses(ir: IR.IRInst, m: Machine)
    requires IsSetter(ir)
    ensures AllAccessMapped(SetterHead(ir), m) <==> SlotMapped(m, ir.src1) && (!TakesImm(ir) ==> SlotMapped(m, ir.src2))
    ensures AllAccessMapped(SetterTail(ir), m) <==> (ir.op in {IR.ADD, IR.SUB} ==> SlotMapped(m, ir.dest))
  {
    hide Mapped;
    var h, t := SetterHead(ir), SetterTail(ir);
    assert h[0] in h && h[1] in h && (|t| > 0 ==> t[0] in t);
  }

  lemma HeldSpill(m: Machine, m': Machine)
    requires Held(CONTEXT, m, m')
    ensures SpillMapped(m') <==> SpillMapped(m)
  {
    hide CtxMapped, Held, Mapped, Pushed;
    HeldCtx(m, m', 512); HeldCtx(m, m', 520); HeldCtx(m, m', 528); HeldCtx(m, m', NZCV_OFFSET);
    HeldPush(CONTEXT, m, m');
  }

  lemma SpillOrNot(ir: IR.IRInst, m: Machine)
    ensures Straight(Meanings(FlagSpill(ir)))
    ensures var e := Effects(Meanings(FlagSpill(ir)), m);
            if ir.flagsSet ==> SpillMapped(m) then e.Done? && Held(CONTEXT, m, e.m) else e.Fault?
  {
    hide SaveNzcv, SpillMapped;
    if ir.flagsSet { SpillRuns(m); } else { assert Meanings([]) == []; }
  }

  lemma SetterRuns(ir: IR.IRInst, m: Machine)
    requires IsSetter(ir)
    ensures var e := OpEffect(ir, m);
            if OpMapped(ir, m) then e.Done? && Held(CONTEXT, m, e.m) else e.Fault?
  {
    hide Effects, Meanings, LowerInstr, SetterHead, SetterTail, FlagSpill, AllSteady, AllAccessMapped, CtxMapped,
      SpillMapped, Held;
    OpStraight(ir);
    SetterParts(ir, 0);
    SetterSteady(ir);
    var a, b, c := Meanings(SetterHead(ir)), Meanings(FlagSpill(ir)), Meanings(SetterTail(ir));
    MeaningsAppend(SetterHead(ir) + FlagSpill(ir), SetterTail(ir));
    MeaningsAppend(SetterHead(ir), FlagSpill(ir));
    SteadyRuns(SetterHead(ir), CONTEXT, m);
    SpillOrNot(ir, m);
    SteadyRuns(SetterTail(ir), CONTEXT, m);
    HeadAccesses(ir, m);
    EffectsSplit(a, b, m);
    EffectsSplit(a + b, c, m);
    if Effects(a, m).Done? {
      var m1 := Effects(a, m).m;
      SpillOrNot(ir, m1);
      HeldSpill(m, m1);
      if Effects(b, m1).Done? {
        var m2 := Effects(b, m1).m;
        HeldTwice(CONTEXT, m, m1, m2);
        SteadyRuns(SetterTail(ir), CONTEXT, m2);
        HeadAccesses(ir, m2);
        HeldCtx(m, m2, Slot(ir.dest));
        if Effects(c, m2).Done? { HeldTwice(CONTEXT, m, m2, Effects(c, m2).m); }
      }
    }
  }

  lemma PlainAccesses(ir: IR.IRInst, m: Machine)
    requires FallsThrough(ir) && !IsSetter(ir) && !IsMemory(ir)
    ensures AllAccessMapped(LowerInstr(ir, 0), m) <==> OpMapped(ir, m)
  {
    hide Mapped, HostReg;
    var l := LowerInstr(ir, 0);
    assert l[0] in l && (|l| > 1 ==> l[1] in l) && (|l| > 2 ==> l[2] in l);
  }

  /** An operation runs through exactly when its accesses are mapped; it then keeps the mapping, RSP and
      the context pointer. */
  lemma OpRuns(ir: IR.IRInst, m: Machine)
    requires FallsThrough(ir)
    ensures var e := OpEffect(ir, m);
            if OpMapped(ir, m) then e.Done? && Held(CONTEXT, m, e.m) else e.Fault?
  {
    hide OpEffect, OpMapped, Held;
    if IsSetter(ir) { SetterRuns(ir, m); }
    else if ir.op in {IR.LOAD64, IR.LOAD32} { LoadRuns(ir, m); }
    else if IsMemory(ir) { PairRuns(ir, m); }
    else { PlainRuns(ir, m); }
  }

  lemma PlainRuns(ir: IR.IRInst, m: Machine)
    requires FallsThrough(ir) && !IsSetter(ir) && !IsMemory(ir)
    ensures var e := OpEffect(ir, m);
            if OpMapped(ir, m) then e.Done? && Held(CONTEXT, m, e.m) else e.Fault?
  {
    hide Effects, Meanings, LowerInstr, AllSteady, AllAccessMapped, OpMapped, Held;
    OpStraight(ir);
    PlainSteady(ir, 0);
    PlainAccesses(ir, m);
    SteadyRuns(LowerInstr(ir, 0), CONTEXT, m);
  }
}
