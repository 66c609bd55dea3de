/** Flag merging on the emitted bytes: what clearing a mark changes in the code that runs. A spill keeps
    RAX, RCX and RDX but not R9 and the host flags, and a conditional exit reads the host flags, so
    merging is invisible up to the first conditional exit and there exactly when the flags it reads were
    not left by a spill behind a cleared one. */
module MergedCode {
  import opened Words
  import opened View
  import opened X86
  import opened Emitter
  import opened Lower
  import opened Refine
  import opened Steps
  import opened Spill
  import opened ControlFlow
  import opened FlagMerging
  import opened Decoder
  import IR
  import Semantics

  // ----- two machines that differ in R9 and the flags -----

  /** Memory and every register but R9 agree. */
  predicate Twins(u: Machine, v: Machine)
  { u.mem == v.mem && SameRegs(u, v) }

  predicate SameRegs(u: Machine, v: Machine) { forall r: Reg :: r != R9 ==> u.regs[r] == v.regs[r] }

  /** Does not touch R9 and does not read the flags, as its bytes are read. */
  predicate Aside(i: Instr) { LeavesR9(Meaning(i)) }

  predicate LeavesR9(i: Instr)
  {
    match i
    case MovImm(r, _) => r != R9
    case Alu(_, dst, src) => dst != R9 && src != R9
    case AluImm(_, r, _) => r != R9
    case ShiftImm(_, r, _) => r != R9
    case Load(r, base, _) => r != R9 && base != R9
    case Store(base, _, r) => base != R9 && r != R9
    case Nop => true
    case _ => false
  }

  predicate AllAside(list: seq<Instr>) { forall i :: i in list ==> Aside(i) }

  /** Sets all the flags. */
  predicate FlagWriter(i: Instr)
  { (i.Alu? && i.op != MOV) || (i.AluImm? && i.op != MOV) || (i.ShiftImm? && i.count % 64 != 0) }

  /** Both fault, or both go on as twins: with the same flags behind a flag writer, with the flags they
      had otherwise. */
  predicate GoOn(e: Effect, f: Effect, u: Machine, v: Machine, writes: bool)
  {
    if e.Fault? then f.Fault? else
      && f.Done? && Twins(e.m, f.m) && e.m.regs[R9] == u.regs[R9] && f.m.regs[R9] == v.regs[R9]
      && (if writes then e.m.flags == f.m.flags else e.m.flags == u.flags && f.m.flags == v.flags)
  }

  lemma TwinAccess(i: Instr, u: Machine, v: Machine)
    requires LeavesR9(i) && (i.Load? || i.Store?) && Twins(u, v)
    ensures GoOn(Effect1(i, u), Effect1(i, v), u, v, false)
  { hide Write64, Read64, Mapped; }

  lemma TwinCompute(i: Instr, u: Machine, v: Machine)
    requires LeavesR9(i) && !i.Load? && !i.Store? && Twins(u, v)
    ensures GoOn(Effect1(i, u), Effect1(i, v), u, v, FlagWriter(i))
  { hide AluResult, ShiftResult, SignedImm, ResultFlags, Pow2, And64; }

  lemma SameWriter(i: Instr)
    requires Aside(i)
    ensures FlagWriter(i) == FlagWriter(Meaning(i)) && !Meaning(i).Ret? && !Meaning(i).Jcc?
  {}

  lemma TwinStep(i: Instr, u: Machine, v: Machine)
    requires Aside(i) && Twins(u, v)
    ensures !Meaning(i).Ret? && !Meaning(i).Jcc?
    ensures GoOn(Effect1(Meaning(i), u), Effect1(Meaning(i), v), u, v, FlagWriter(i))
  {
    SameWriter(i);
    hide Meaning, Effect1, GoOn, LeavesR9, Twins;
    var j := Meaning(i);
    if j.Load? || j.Store? { TwinAccess(j, u, v); } else { TwinCompute(j, u, v); }
  }

  predicate Writes(list: seq<Instr>) { exists i :: i in list && FlagWriter(i) }

  lemma GoOnSelf(u: Machine, v: Machine)
    requires Twins(u, v)
    ensures GoOn(Done(u), Done(v), u, v, false)
  {}

  lemma GoOnTwice(e1: Effect, f1: Effect, e2: Effect, f2: Effect, u: Machine, v: Machine, a: bool, b: bool)
    requires GoOn(e1, f1, u, v, a) && (e1.Done? ==> GoOn(e2, f2, e1.m, f1.m, b))
    ensures GoOn(if e1.Done? then e2 else Fault, if f1.Done? then f2 else Fault, u, v, a || b)
  {}

  lemma {:induction false} TwinRuns(list: seq<Instr>, u: Machine, v: Machine)
    requires AllAside(list) && Twins(u, v)
    ensures Straight(Meanings(list))
    ensures GoOn(Effects(Meanings(list), u), Effects(Meanings(list), v), u, v, Writes(list))
    decreases |list|
  {
    hide Effect1, Aside, FlagWriter, GoOn, Twins;
    if |list| == 0 {
      GoOnSelf(u, v);
      assert !Writes(list);
    } else {
      var i, rest := list[0], list[1..];
      assert list == [i] + rest;
      TwinStep(i, u, v);
      var read := Meanings(list);
      assert read[0] == Meaning(i) && read[1..] == Meanings(rest);
      var e, f := Effect1(Meaning(i), u), Effect1(Meaning(i), v);
      GoOnTwins(e, f, u, v, FlagWriter(i));
      if e.Done? {
        TwinRuns(rest, e.m, f.m);
        GoOnTwice(e, f, Effects(Meanings(rest), e.m), Effects(Meanings(rest), f.m), u, v, FlagWriter(i), Writes(rest));
      } else {
        TwinRuns(rest, u, v);
        GoOnTwice(e, f, Fault, Fault, u, v, FlagWriter(i), Writes(rest));
      }
      assert Writes(list) == (FlagWriter(i) || Writes(rest)) by { WritesCons(i, rest); }
    }
  }

  lemma WritesCons(i: Instr, rest: seq<Instr>)
    ensures Writes([i] + rest) == (FlagWriter(i) || Writes(rest))
  {
    hide FlagWriter;
    if FlagWriter(i) { assert i in [i] + rest; }
    if Writes(rest) { var j :| j in rest && FlagWriter(j); assert j in [i] + rest; }
  }

  lemma GoOnTwins(e: Effect, f: Effect, u: Machine, v: Machine, w: bool)
    requires GoOn(e, f, u, v, w)
    ensures e.Done? == f.Done? && (e.Done? ==> Twins(e.m, f.m))
  {}

  // ----- operations without a spill -----

  /** Whether the code of an operation sets the host flags. */
  predicate WritesFlags(ir: IR.IRInst)
  { IsSetter(ir) || (ir.op in {IR.SHL, IR.SHR, IR.SAR} && ir.imm % 64 != 0) }

  /** A move through R9: X7 and X29 live there. */
  predicate ThroughR9(ir: IR.IRInst)
  {
    (ir.op.MOV_IMM? && HostReg(ir.dest) == R9) ||
    (ir.op.SET_REG? && ir.src1 != IR.IR_NONE && HostReg(ir.src1) == R9)
  }

  lemma SetterAside(ir: IR.IRInst)
    requires IsSetter(ir) && !ir.flagsSet
    ensures AllAside(LowerInstr(ir, 0)) && Writes(LowerInstr(ir, 0))
  {
    hide LowerInstr;
    SetterParts(ir, 0);
    HeadAside(ir);
    var h, l := SetterHead(ir), LowerInstr(ir, 0);
    assert l == h + SetterTail(ir);
    var i :| i in h && FlagWriter(i);
    assert i in l;
  }

  lemma HeadAside(ir: IR.IRInst)
    requires IsSetter(ir)
    ensures AllAside(SetterHead(ir)) && AllAside(SetterTail(ir)) && Writes(SetterHead(ir))
  {
    hide Slot;
    var h := SetterHead(ir);
    assert h[if TakesImm(ir) then 1 else 2] in h;
  }

  lemma ShiftAside(ir: IR.IRInst)
    requires ir.op in {IR.SHL, IR.SHR, IR.SAR}
    ensures AllAside(LowerInstr(ir, 0)) && Writes(LowerInstr(ir, 0)) == WritesFlags(ir)
  {
    hide Slot;
    var l := LowerInstr(ir, 0);
    assert l[1] in l && ir.imm % 256 % 64 == ir.imm % 64;
  }

  lemma OpAside(ir: IR.IRInst)
    requires FallsThrough(ir) && !(IsSetter(ir) && ir.flagsSet) && !ThroughR9(ir)
    ensures AllAside(LowerInstr(ir, 0)) && Writes(LowerInstr(ir, 0)) == WritesFlags(ir)
  {
    hide HostReg, Slot, SaveNzcv;
    if IsSetter(ir) { SetterAside(ir); }
    else if ir.op in {IR.SHL, IR.SHR, IR.SAR} { ShiftAside(ir); }
    else { OtherAside(ir); }
  }

  lemma OtherAside(ir: IR.IRInst)
    requires FallsThrough(ir) && !IsSetter(ir) && ir.op !in {IR.SHL, IR.SHR, IR.SAR} && !ThroughR9(ir)
    ensures AllAside(LowerInstr(ir, 0)) && !Writes(LowerInstr(ir, 0))
  { hide HostReg, Slot; }

  /** Equal in memory and registers, with the flags they had. */
  predicate Caught(e: Effect, f: Effect, u: Machine, v: Machine)
  {
    e.Done? == f.Done? &&
    (e.Done? ==> e.m.mem == f.m.mem && e.m.regs == f.m.regs && e.m.flags == u.flags && f.m.flags == v.flags)
  }

  lemma PutNinth(i: Instr, u: Machine, v: Machine)
    requires Twins(u, v) && Target(i) == R9 && (i.MovImm? || (i.Load? && i.base != R9))
    ensures Caught(Effect1(i, u), Effect1(i, v), u, v)
  { hide Read64, Mapped; }

  lemma StoreCaught(i: Instr, u: Machine, v: Machine)
    requires u.mem == v.mem && u.regs == v.regs && i.Store?
    ensures Caught(Effect1(i, u), Effect1(i, v), u, v)
  { hide Write64, Mapped; }

  lemma NinthMove(i: Instr, disp: i32, u: Machine, v: Machine)
    requires Twins(u, v) && Target(i) == R9 && (i.MovImm? || (i.Load? && i.base != R9))
    ensures var l := [i, Store(R12, disp, R9)]; Straight(l) && Caught(Effects(l, u), Effects(l, v), u, v)
  {
    hide Effect1, Twins;
    var l := [i, Store(R12, disp, R9)];
    assert l[1..] == [l[1]];
    PutNinth(i, u, v);
    var e, f := Effect1(i, u), Effect1(i, v);
    if e.Done? {
      OneEffect(l[1], e.m);
      OneEffect(l[1], f.m);
      StoreCaught(l[1], e.m, f.m);
    }
  }

  /** An operation without a spill takes twins to twins. */
  lemma TwinOp(ir: IR.IRInst, u: Machine, v: Machine)
    requires FallsThrough(ir) && !(IsSetter(ir) && ir.flagsSet) && Twins(u, v)
    ensures OpEffect(ir, u).Done? == OpEffect(ir, v).Done?
    ensures OpEffect(ir, u).Done? ==>
              var u', v' := OpEffect(ir, u).m, OpEffect(ir, v).m;
              && Twins(u', v')
              && (if ThroughR9(ir) then u'.regs[R9] == v'.regs[R9] else u'.regs[R9] == u.regs[R9] && v'.regs[R9] == v.regs[R9])
              && (if WritesFlags(ir) then u'.flags == v'.flags else u'.flags == u.flags && v'.flags == v.flags)
  {
    OpStraight(ir);
    if ThroughR9(ir) {
      MoveMeans(ir);
      hide LowerInstr, Effects, Meanings;
      var i, disp := NinthMoved(ir);
      NinthMove(i, disp, u, v);
      if OpEffect(ir, u).Done? { assert SameRegs(OpEffect(ir, u).m, OpEffect(ir, v).m); }
    } else {
      hide LowerInstr, Effects, Meanings, AllAside;
      OpAside(ir);
      TwinRuns(LowerInstr(ir, 0), u, v);
    }
  }

  lemma MoveMeans(ir: IR.IRInst)
    requires ThroughR9(ir)
    ensures Meanings(LowerInstr(ir, 0)) == LowerInstr(ir, 0) && !WritesFlags(ir)
  {}

  lemma NinthMoved(ir: IR.IRInst) returns (i: Instr, disp: i32)
    requires ThroughR9(ir)
    ensures LowerInstr(ir, 0) == [i, Store(R12, disp, R9)] && Target(i) == R9 && (i.MovImm? || (i.Load? && i.base != R9))
  {
    var l := LowerInstr(ir, 0);
    i, disp := l[0], l[1].disp;
  }

  // ----- setters, exactly -----

  function OperandA(ir: IR.IRInst, mem: Mem, p: int): u64
    requires Mapped(mem, p, CTX_SIZE) && Regular(ir)
  { Read64(mem, p + 8 * ir.src1) }

  function OperandB(ir: IR.IRInst, mem: Mem, p: int): u64
    requires Mapped(mem, p, CTX_SIZE) && Regular(ir) && IsSetter(ir)
  { if TakesImm(ir) then SignedImm(U32(ir.imm)) else Read64(mem, p + 8 * ir.src2) }

  /** Behind operands and operation. */
  function HeadDone(ir: IR.IRInst, m: Machine, p: int): Machine
    requires Mapped(m.mem, p, CTX_SIZE) && Regular(ir) && IsSetter(ir)
  {
    var a, b, op := OperandA(ir, m.mem, p), OperandB(ir, m.mem, p), SetterAlu(ir);
    Machine((if TakesImm(ir) then m.regs else m.regs[RCX := b])[RAX := AluResult(op, a, b)], AluFlags(op, a, b, m.flags), m.mem)
  }

  /** Behind the whole operation. */
  function SetterDone(ir: IR.IRInst, m: Machine, p: int): Machine
    requires Mapped(m.mem, p, CTX_SIZE) && Regular(ir) && IsSetter(ir)
  {
    var m1 := HeadDone(ir, m, p);
    var m2 := if ir.flagsSet then Spilled(m1, p) else m1;
    if ir.op in {IR.ADD, IR.SUB} then m2.(mem := Write64(m2.mem, p + 8 * ir.dest, m2.regs[RAX])) else m2
  }

  lemma SlotLoad(arm: int, x: Reg, m: Machine, p: int)
    requires Inside(m, p) && 0 <= arm < 32
    ensures Mapped(m.mem, p + 8 * arm, 8) && Effect1(LoadArm(arm, x), m) == Done(m.Set(x, Read64(m.mem, p + 8 * arm)))
  { assert m.Ea(R12, Slot(arm)) == p + 8 * arm; }

  lemma AluStep(op: AluOp, m: Machine)
    ensures Effect1(Alu(op, RAX, RCX), m) ==
            Done(m.(flags := AluFlags(op, m.regs[RAX], m.regs[RCX], m.flags)).Set(RAX, AluResult(op, m.regs[RAX], m.regs[RCX])))
  {}

  lemma AluImmStep(op: AluOp, imm: u32, m: Machine)
    ensures var b := SignedImm(imm);
            Effect1(AluImm(op, RAX, imm), m) ==
            Done(m.(flags := AluFlags(op, m.regs[RAX], b, m.flags)).Set(RAX, AluResult(op, m.regs[RAX], b)))
  {}

  lemma HeadMeans(ir: IR.IRInst)
    requires IsSetter(ir)
    ensures Meanings(SetterHead(ir)) == SetterHead(ir) && Meanings(SetterTail(ir)) == SetterTail(ir)
    ensures Straight(SetterHead(ir)) && Straight(SetterTail(ir))
  {}

  lemma HeadEffect(ir: IR.IRInst, m: Machine, p: int)
    requires IsSetter(ir) && Regular(ir) && Inside(m, p)
    ensures Straight(SetterHead(ir)) && Effects(SetterHead(ir), m) == Done(HeadDone(ir, m, p))
  {
    hide Effect1, AluResult, AluFlags, Read64, SignedImm, Inside;
    HeadMeans(ir);
    assert Mapped(m.mem, p, CTX_SIZE) by { InsideMapped(m, p); }
    var l := SetterHead(ir);
    var a, op := OperandA(ir, m.mem, p), SetterAlu(ir);
    SlotLoad(ir.src1, RAX, m, p);
    var m1 := m.Set(RAX, a);
    if TakesImm(ir) {
      AluImmStep(op, U32(ir.imm), m1);
      assert l == [l[0], l[1]];
      Chain2(l[0], l[1], m, m1);
    } else {
      InsideSet(m, p, RAX, a);
      SlotLoad(ir.src2, RCX, m1, p);
      var b := OperandB(ir, m.mem, p);
      var m2 := m1.Set(RCX, b);
      AluStep(op, m2);
      assert l[1..] == [l[1], l[2]];
      Chain2(l[1], l[2], m1, m2);
      assert m.regs[RAX := a][RCX := b][RAX := AluResult(op, a, b)] == m.regs[RCX := b][RAX := AluResult(op, a, b)];
    }
  }

  lemma InsideMapped(m: Machine, p: int)
    requires Inside(m, p)
    ensures Mapped(m.mem, p, CTX_SIZE)
  {}

  lemma InsideSet(m: Machine, p: int, x: Reg, v: u64)
    requires Inside(m, p) && x != R12
    ensures Inside(m.Set(x, v), p)
  {}

  lemma SpilledInside(m: Machine, p: int)
    requires Inside(m, p)
    ensures Inside(Spilled(m, p), p) && Spilled(m, p).mem.Keys == m.mem.Keys
  {
    hide Write64, PackedWord, Rflags, Scratch;
    ScratchKeys(m.mem, p, m.regs);
    SameKeys(m.mem, Spilled(m, p).mem, p, 832);
  }

  /** The machine has its context at `p`, and a stack word apart from it. */
  predicate Hosted(m: Machine, p: int) { Inside(m, p) && Mapped(m.mem, Pushed(m), 8) && StackApart(m, p) }

  lemma HeadHosted(ir: IR.IRInst, m: Machine, p: int)
    requires IsSetter(ir) && Regular(ir) && Hosted(m, p)
    ensures Hosted(HeadDone(ir, m, p), p)
  { hide AluResult, AluFlags, Read64; }

  lemma SetterEffect(ir: IR.IRInst, m: Machine, p: int)
    requires IsSetter(ir) && Regular(ir) && Hosted(m, p)
    ensures OpEffect(ir, m) == Done(SetterDone(ir, m, p))
  {
    hide Effects, Effect1, Meanings, LowerInstr, SetterHead, SetterTail, Inside, HeadDone, Spilled, SaveNzcv;
    OpStraight(ir);
    SetterParts(ir, 0);
    HeadMeans(ir);
    InsideMapped(m, p);
    var h, t := SetterHead(ir), SetterTail(ir);
    MeaningsAppend(h + FlagSpill(ir), t);
    MeaningsAppend(h, FlagSpill(ir));
    HeadEffect(ir, m, p);
    HeadHosted(ir, m, p);
    var m1 := HeadDone(ir, m, p);
    var m2 := if ir.flagsSet then Spilled(m1, p) else m1;
    assert Straight(Meanings(FlagSpill(ir))) && Effects(Meanings(FlagSpill(ir)), m1) == Done(m2) && Inside(m2, p) by {
      if ir.flagsSet { SpillEffect(m1, p); SpilledInside(m1, p); } else { NothingDone(m1); }
    }
    TailEffect(ir, m2, p);
    EffectsSplit(h, Meanings(FlagSpill(ir)), m);
    EffectsSplit(h + Meanings(FlagSpill(ir)), t, m);
  }

  lemma NothingDone(m: Machine)
    ensures Meanings([]) == [] && Straight([]) && Effects([], m) == Done(m)
  {}

  lemma TailEffect(ir: IR.IRInst, m: Machine, p: int)
    requires IsSetter(ir) && Regular(ir) && Inside(m, p)
    ensures Straight(SetterTail(ir))
    ensures Effects(SetterTail(ir), m) ==
            Done(if ir.op in {IR.ADD, IR.SUB} then m.(mem := Write64(m.mem, p + 8 * ir.dest, m.regs[RAX])) else m)
  {
    hide Effect1, Write64, Inside;
    if ir.op in {IR.ADD, IR.SUB} {
      StoreAt(m, p, 8 * ir.dest, RAX);
      OneEffect(StoreArm(RAX, ir.dest), m);
    }
  }

  // ----- memories that differ where a spill writes -----

  /** Where a spill writes: the nzcv slot, the scratch words and the stack word. */
  predicate Foot(p: int, sp: int, k: int) { p + 272 <= k < p + 280 || p + 512 <= k < p + 536 || sp <= k < sp + 8 }

  predicate EqualOutside(a: Mem, b: Mem, p: int, sp: int)
  { a.Keys == b.Keys && forall k :: k in a && k in b && !Foot(p, sp, k) ==> a[k] == b[k] }

  lemma WriteAt(m: Mem, a: int, v: u64, k: int)
    ensures (k in Write64(m, a, v) <==> k in m) && (k in m ==> Write64(m, a, v)[k] == if a <= k < a + 8 then Le(v, 8)[k - a] else m[k])
  { hide Le; }

  /** A byte behind a spill: the last store that covers it. */
  lemma SpilledByte(m: Machine, p: int, k: int)
    requires k in m.mem
    ensures var sp, v := Pushed(m), Rflags(m.flags);
            k in SpilledMem(m, p) && SpilledMem(m, p)[k] ==
            if p + 272 <= k < p + 280 then Le(PackedWord(v), 8)[k - p - 272]
            else if sp <= k < sp + 8 then Le(v, 8)[k - sp]
            else if p + 528 <= k < p + 536 then Le(m.regs[RDX], 8)[k - p - 528]
            else if p + 520 <= k < p + 528 then Le(m.regs[RCX], 8)[k - p - 520]
            else if p + 512 <= k < p + 520 then Le(m.regs[RAX], 8)[k - p - 512]
            else m.mem[k]
  {
    hide Write64, Le, PackedWord, Rflags, Pushed;
    var sp, v := Pushed(m), Rflags(m.flags);
    var a := Write64(m.mem, p + 512, m.regs[RAX]);
    var b := Write64(a, p + 520, m.regs[RCX]);
    var c := Write64(b, p + 528, m.regs[RDX]);
    var d := Write64(c, sp, v);
    WriteAt(m.mem, p + 512, m.regs[RAX], k);
    WriteAt(a, p + 520, m.regs[RCX], k);
    WriteAt(b, p + 528, m.regs[RDX], k);
    WriteAt(c, sp, v, k);
    WriteAt(d, p + 272, PackedWord(v), k);
  }

  lemma SpilledKeys(m: Machine, p: int)
    ensures SpilledMem(m, p).Keys == m.mem.Keys
  { hide Write64, PackedWord, Rflags, Pushed, Scratch; ScratchKeys(m.mem, p, m.regs); }

  /** A spill on one side keeps memories equal outside its footprint. */
  lemma SpillOneSide(u: Machine, v: Mem, p: int, sp: int)
    requires EqualOutside(u.mem, v, p, sp) && sp == Pushed(u)
    ensures EqualOutside(SpilledMem(u, p), v, p, sp)
  {
    hide SpilledMem, Le, PackedWord, Rflags, Pushed;
    SpilledKeys(u, p);
    forall k | k in SpilledMem(u, p) && k in v && !Foot(p, sp, k) ensures SpilledMem(u, p)[k] == v[k] {
      assert k in SpilledMem(u, p).Keys;
      SpilledByte(u, p, k);
    }
  }

  /** A spill of the same values on both sides closes the gap. */
  lemma SpillBothSides(u: Machine, v: Machine, p: int, sp: int)
    requires EqualOutside(u.mem, v.mem, p, sp) && sp == Pushed(u) == Pushed(v) && u.flags == v.flags && SameRegs(u, v)
    ensures SpilledMem(u, p) == SpilledMem(v, p)
  {
    hide SpilledMem, Le, PackedWord, Rflags, Pushed;
    SpilledKeys(u, p);
    SpilledKeys(v, p);
    forall k | k in SpilledMem(u, p) ensures k in SpilledMem(v, p) && SpilledMem(u, p)[k] == SpilledMem(v, p)[k] {
      assert k in SpilledMem(u, p).Keys && k in v.mem.Keys;
      SpilledByte(u, p, k);
      SpilledByte(v, p, k);
    }
    assert forall k :: k in SpilledMem(v, p) ==> k in SpilledMem(v, p).Keys;
  }

  lemma StoreBothSides(a: Mem, b: Mem, p: int, sp: int, x: int, w: u64)
    requires EqualOutside(a, b, p, sp)
    ensures EqualOutside(Write64(a, x, w), Write64(b, x, w), p, sp)
  {
    hide Write64, Foot, Le;
    forall k | k in Write64(a, x, w) && k in Write64(b, x, w) && !Foot(p, sp, k)
      ensures Write64(a, x, w)[k] == Write64(b, x, w)[k]
    { WriteAt(a, x, w, k); WriteAt(b, x, w, k); }
  }

  /** Register slots lie outside the footprint. */
  lemma ReadBothSides(a: Mem, b: Mem, p: int, sp: int, r: int)
    requires EqualOutside(a, b, p, sp) && Mapped(a, p, CTX_SIZE) && Mapped(b, p, CTX_SIZE) && (sp + 8 <= p || p + CTX_SIZE <= sp)
    requires 0 <= r < 32
    ensures Read64(a, p + 8 * r) == Read64(b, p + 8 * r)
  { assert ReadBytes(a, p + 8 * r, 8) == ReadBytes(b, p + 8 * r, 8); hide UnLe; }

  // ----- one setter, on both sides -----

  /** Registers other than R9 agree, and memory outside the footprint. */
  predicate Alike(u: Machine, v: Machine, p: int) { SameRegs(u, v) && EqualOutside(u.mem, v.mem, p, Pushed(u)) }

  lemma SetterFlags(op: AluOp, a: u64, b: u64, f: Flags, g: Flags)
    requires op in {AluOp.ADD, AluOp.SUB, AluOp.CMP, TEST}
    ensures AluFlags(op, a, b, f) == AluFlags(op, a, b, g)
  {}

  lemma HeadAlike(iu: IR.IRInst, iv: IR.IRInst, u: Machine, v: Machine, p: int)
    requires IsSetter(iu) && Regular(iu) && iv == iu.(flagsSet := iv.flagsSet)
    requires Hosted(u, p) && Hosted(v, p) && Alike(u, v, p)
    ensures Alike(HeadDone(iu, u, p), HeadDone(iv, v, p), p) && HeadDone(iu, u, p).flags == HeadDone(iv, v, p).flags
    ensures HeadDone(iu, u, p).regs[R9] == u.regs[R9] && HeadDone(iv, v, p).regs[R9] == v.regs[R9]
  {
    hide AluResult, AluFlags, Read64, SignedImm, EqualOutside;
    ReadBothSides(u.mem, v.mem, p, Pushed(u), iu.src1);
    if !TakesImm(iu) { ReadBothSides(u.mem, v.mem, p, Pushed(u), iu.src2); }
    var a, b := OperandA(iu, u.mem, p), OperandB(iu, u.mem, p);
    SetterFlags(SetterAlu(iu), a, b, u.flags, v.flags);
  }

  lemma EqualSelf(a: Mem, p: int, sp: int)
    ensures EqualOutside(a, a, p, sp)
  {}

  /** The unmerged side spills, the merged side does not. */
  lemma OneSideStep(iu: IR.IRInst, u: Machine, v: Machine, p: int)
    requires IsSetter(iu) && Regular(iu) && iu.flagsSet && Hosted(u, p) && Hosted(v, p) && Alike(u, v, p)
    ensures var u', v' := SetterDone(iu, u, p), SetterDone(iu.(flagsSet := false), v, p);
            Alike(u', v', p) && u'.regs[R9] == Ninth(u.regs[R9]) && v'.regs[R9] == v.regs[R9]
  {
    hide HeadDone, SpilledMem, Write64, EqualOutside, Ninth, AfterSpill;
    var iv := iu.(flagsSet := false);
    HeadAlike(iu, iv, u, v, p);
    var u1, v1 := HeadDone(iu, u, p), HeadDone(iv, v, p);
    SpillOneSide(u1, v1.mem, p, Pushed(u1));
    StoreBothSides(SpilledMem(u1, p), v1.mem, p, Pushed(u1), p + 8 * iu.dest, u1.regs[RAX]);
  }

  /** Both sides spill: memory is equal again. */
  lemma LiveStep(ir: IR.IRInst, u: Machine, v: Machine, p: int)
    requires IsSetter(ir) && Regular(ir) && ir.flagsSet && Hosted(u, p) && Hosted(v, p) && Alike(u, v, p)
    ensures var u', v' := SetterDone(ir, u, p), SetterDone(ir, v, p);
            && Twins(u', v') && u'.regs[R9] == Ninth(u.regs[R9]) && v'.regs[R9] == Ninth(v.regs[R9])
            && u'.flags == AfterSpill(u.regs[R9]) && v'.flags == AfterSpill(v.regs[R9])
  {
    hide HeadDone, SpilledMem, Write64, EqualOutside, Ninth, AfterSpill;
    HeadAlike(ir, ir, u, v, p);
    var u1, v1 := HeadDone(ir, u, p), HeadDone(ir, v, p);
    SpillBothSides(u1, v1, p, Pushed(u1));
  }

  // ----- the two runs, side by side -----

  /** The pass clears the mark of operation `k`. */
  predicate Cleared(s: seq<IR.IRInst>, k: int) { 0 <= k < |s| && s[k].flagsSet && Dead(s, k) }

  /** The first setter of the run of setters that ends in `j`. */
  function RunStart(s: seq<IR.IRInst>, j: nat): (i: nat)
    ensures i <= j
  { if j > 0 && Cleared(s, j - 1) then RunStart(s, j - 1) else j }

  /** The last operation before `k` that sets the host flags, or -1. */
  function LastWriter(s: seq<IR.IRInst>, k: nat): (j: int)
    requires k <= |s|
    ensures -1 <= j < k
  { if k == 0 then -1 else if WritesFlags(s[k - 1]) then k - 1 else LastWriter(s, k - 1) }

  /** The host flags in front of `k` were left by a spill right behind a cleared one. */
  predicate Fed(s: seq<IR.IRInst>, k: nat)
    requires k <= |s|
  { var j := LastWriter(s, k); j >= 1 && s[j].flagsSet && Cleared(s, j - 1) }

  /** R9 in front of the run of setters that ends in `j`. */
  function Seed(s: seq<IR.IRInst>, j: nat, m: Machine): u64
    requires j <= Stop(s)
  { Before(s, RunStart(s, j), m).regs[R9] }

  lemma {:induction false} BeforeNext(s: seq<IR.IRInst>, k: nat, m: Machine)
    requires k < Stop(s)
    ensures Before(s, k + 1, m) == StepM(s[k], Before(s, k, m))
    decreases k
  {
    hide StepM, FallsThrough;
    var m1 := StepM(s[0], m);
    assert Stop(s) == 1 + Stop(s[1..]);
    if k == 0 {
      assert Before(s[1..], 0, m1) == m1;
    } else {
      BeforeNext(s[1..], k - 1, m1);
      assert s[1..][k - 1] == s[k];
    }
  }

  lemma StopMerged(s: seq<IR.IRInst>)
    ensures Stop(Merged(s)) == Stop(s)
  {
    var r, a, b := Merged(s), Stop(s), Stop(Merged(s));
    assert forall i :: 0 <= i < |s| ==> FallsThrough(r[i]) == FallsThrough(s[i]);
  }

  /** How the machines in front of operation `k` relate, unmerged and merged. */
  predicate Related(s: seq<IR.IRInst>, k: nat, m: Machine, p: int)
    requires k <= Stop(s) == Stop(Merged(s))
  {
    var u, v := Before(s, k, m), Before(Merged(s), k, m);
    Hosted(u, p) && Hosted(v, p) &&
    if k > 0 && Cleared(s, k - 1) then
      Alike(u, v, p) && !Bit7(u.regs[R9]) && Bit7(v.regs[R9]) == Bit7(Seed(s, k - 1, m))
    else
      && Twins(u, v) && NinthAlike(u.regs[R9], v.regs[R9])
      && if Fed(s, k) then u.flags == AfterSpill(0) && v.flags == AfterSpill(Seed(s, LastWriter(s, k), m)) else u.flags == v.flags
  }

  predicate NinthAlike(a: u64, b: u64) { a == b || (!Bit7(a) && !Bit7(b)) }

  lemma HostedHeld(m: Machine, m': Machine, p: int)
    requires Hosted(m, p) && Held(CONTEXT, m, m')
    ensures Hosted(m', p)
  { HeldInside(m, m', p); HeldPush(CONTEXT, m, m'); }

  lemma HostedStep(ir: IR.IRInst, m: Machine, p: int)
    requires FallsThrough(ir) && Hosted(m, p)
    ensures Hosted(StepM(ir, m), p)
  {
    hide OpEffect, Hosted, OpMapped, Held;
    OpRuns(ir, m);
    if OpEffect(ir, m).Done? { HostedHeld(m, StepM(ir, m), p); }
  }

  lemma TwinsAlike(u: Machine, v: Machine, p: int)
    requires Twins(u, v)
    ensures Alike(u, v, p)
  { EqualSelf(u.mem, p, Pushed(u)); }

  /** A setter that loses its mark. */
  lemma ClearedSide(s: seq<IR.IRInst>, k: nat, m: Machine, p: int)
    requires k < Stop(s) == Stop(Merged(s)) && Related(s, k, m, p) && Cleared(s, k) && IsSetter(s[k]) && Regular(s[k])
    ensures Related(s, k + 1, m, p)
  {
    hide Hosted, Alike, Twins, OpEffect, SetterDone, Before, Bit7, AfterSpill, LastWriter, Dead, Stop, Regular;
    var u, v := Before(s, k, m), Before(Merged(s), k, m);
    BeforeNext(s, k, m);
    BeforeNext(Merged(s), k, m);
    HostedStep(s[k], u, p);
    HostedStep(Merged(s)[k], v, p);
    if !(k > 0 && Cleared(s, k - 1)) { TwinsAlike(u, v, p); }
    RegularCleared(s[k]);
    OneSideStep(s[k], u, v, p);
    SetterEffect(s[k], u, p);
    SetterEffect(Merged(s)[k], v, p);
    NinthTwice(u.regs[R9]);
  }

  lemma RegularCleared(ir: IR.IRInst)
    requires Regular(ir)
    ensures Regular(ir.(flagsSet := false)) && IsSetter(ir.(flagsSet := false)) == IsSetter(ir)
  {}

  /** A setter that keeps its mark. */
  lemma LiveSide(s: seq<IR.IRInst>, k: nat, m: Machine, p: int)
    requires k < Stop(s) == Stop(Merged(s)) && Related(s, k, m, p) && !Cleared(s, k) && s[k].flagsSet && IsSetter(s[k]) && Regular(s[k])
    ensures Related(s, k + 1, m, p)
  {
    hide Hosted, Alike, Twins, OpEffect, SetterDone, Before, Ninth, Dead, Stop, Regular;
    var u, v := Before(s, k, m), Before(Merged(s), k, m);
    BeforeNext(s, k, m);
    BeforeNext(Merged(s), k, m);
    HostedStep(s[k], u, p);
    HostedStep(s[k], v, p);
    if !(k > 0 && Cleared(s, k - 1)) { TwinsAlike(u, v, p); }
    LiveStep(s[k], u, v, p);
    SetterEffect(s[k], u, p);
    SetterEffect(s[k], v, p);
    NinthTwice(u.regs[R9]);
    NinthTwice(v.regs[R9]);
    hide Bit7;
  }

  /** Any other operation. */
  lemma PlainSide(s: seq<IR.IRInst>, k: nat, m: Machine, p: int)
    requires k < Stop(s) == Stop(Merged(s)) && Related(s, k, m, p) && !s[k].flagsSet && OpMapped(s[k], Before(s, k, m))
    ensures Related(s, k + 1, m, p)
  {
    hide Hosted, Alike, Twins, OpEffect, Before, Bit7, AfterSpill, WritesFlags, ThroughR9, IsSetter, Stop,
      FallsThrough, OpMapped, Held;
    OpRuns(s[k], Before(s, k, m));
    var u, v := Before(s, k, m), Before(Merged(s), k, m);
    BeforeNext(s, k, m);
    BeforeNext(Merged(s), k, m);
    assert Merged(s)[k] == s[k];
    HostedStep(s[k], u, p);
    HostedStep(s[k], v, p);
    TwinOp(s[k], u, v);
  }

  lemma {:induction false} SideBySide(s: seq<IR.IRInst>, k: nat, m: Machine, p: int)
    requires Marked(s) && (forall ir :: ir in s ==> Regular(ir)) && Hosted(m, p) && k <= Stop(s)
    requires forall i :: 0 <= i < k ==> OpMapped(s[i], Before(s, i, m))
    ensures Stop(Merged(s)) == Stop(s) && Related(s, k, m, p)
    decreases k
  {
    hide Related, Hosted, Regular, Stop, Dead, Merged, OpMapped, Before;
    StopMerged(s);
    if k == 0 {
      StartRelated(s, m, p);
    } else {
      SideBySide(s, k - 1, m, p);
      assert s[k - 1] in s;
      if !s[k - 1].flagsSet { PlainSide(s, k - 1, m, p); }
      else if Cleared(s, k - 1) { ClearedSide(s, k - 1, m, p); }
      else { LiveSide(s, k - 1, m, p); }
    }
  }

  lemma StartRelated(s: seq<IR.IRInst>, m: Machine, p: int)
    requires Hosted(m, p) && Stop(Merged(s)) == Stop(s)
    ensures Related(s, 0, m, p)
  {}

  // ----- whole blocks -----

  /** The conditions whose host condition reads ZF. */
  predicate ReadsZero(cond: u8) { cond !in {2, 3, 4, 5, 6, 7, 10, 11} }

  /** A host condition behind a spill: ZF decides those that read it, the others do not depend on the
      state at all. */
  lemma SpillConditions(cond: u8, x: u64)
    ensures Holds(HostCond(cond), AfterSpill(x)) != Holds(HostCond(cond), AfterSpill(0)) <==> ReadsZero(cond) && Bit7(x)
  {}

  /** The block leaves by a conditional exit that reads ZF behind a cleared spill, bit 7 of R9 was set in
      front of that run of setters, and the two targets differ. */
  predicate ExitsPart(s: seq<IR.IRInst>, ft: u64, m: Machine)
  {
    var n := Stop(s);
    && n < |s| && s[n].op.JMP_COND? && s[n].imm != ft && ReadsZero(s[n].cond)
    && Fed(s, n) && Bit7(Seed(s, LastWriter(s, n), m))
  }

  lemma NotClearedLast(s: seq<IR.IRInst>)
    requires Marked(s)
    ensures !Cleared(s, Stop(s) - 1)
  { assert forall i :: 0 <= i < |s| ==> s[i] in s; }

  lemma MergedMapped(s: seq<IR.IRInst>, k: nat, m: Machine, p: int)
    requires Marked(s) && (forall ir :: ir in s ==> Regular(ir)) && Hosted(m, p) && Stop(Merged(s)) == Stop(s) && k < Stop(s)
    requires Related(s, k, m, p) && OpMapped(s[k], Before(s, k, m))
    ensures OpMapped(Merged(s)[k], Before(Merged(s), k, m))
  {
    hide Hosted, Regular, OpMapped, OpEffect, Before, Alike, SetterDone, Held, Twins, NinthAlike, Stop;
    var u, v, ir := Before(s, k, m), Before(Merged(s), k, m), Merged(s)[k];
    assert s[k] in s;
    OpRuns(ir, v);
    OpRuns(s[k], u);
    if IsSetter(ir) {
      RegularCleared(s[k]);
      SetterEffect(ir, v, p);
    } else {
      assert ir == s[k] && !s[k].flagsSet;
      TwinOp(ir, u, v);
    }
  }

  /** The exits of the two runs. */
  lemma ExitsCompared(s: seq<IR.IRInst>, ft: u64, m: Machine, p: int)
    requires Marked(s) && Stop(Merged(s)) == Stop(s) && Related(s, Stop(s), m, p)
    ensures var u, v := Before(s, Stop(s), m), Before(Merged(s), Stop(s), m);
            u.mem == v.mem && u.regs[R12] == v.regs[R12] && (ExitPc(s, ft, u) != ExitPc(Merged(s), ft, v) <==> ExitsPart(s, ft, m))
  {
    hide Hosted, Before, Holds, HostCond, AfterSpill, Bit7, LastWriter, Dead, Stop;
    NotClearedLast(s);
    var n := Stop(s);
    if n < |s| {
      assert Merged(s)[n] == s[n].(flagsSet := Merged(s)[n].flagsSet);
      if Fed(s, n) { SpillConditions(s[n].cond, Seed(s, LastWriter(s, n), m)); }
    }
  }

  /** Equal up to the word at `a`. */
  predicate EqualButWord(x: Mem, y: Mem, a: int)
  { x.Keys == y.Keys && forall k :: k in x && k in y && !(a <= k < a + 8) ==> x[k] == y[k] }

  lemma OneWord(m: Mem, a: int, v: u64, w: u64)
    requires Mapped(m, a, 8)
    ensures EqualButWord(Write64(m, a, v), Write64(m, a, w), a)
    ensures Write64(m, a, v) == Write64(m, a, w) <==> v == w
  {
    ReadBack(m, a, v);
    ReadBack(m, a, w);
    hide Le, UnLe;
  }

  lemma AllMergedMapped(s: seq<IR.IRInst>, m: Machine, p: int)
    requires Marked(s) && (forall ir :: ir in s ==> Regular(ir)) && Hosted(m, p) && BlockMapped(s, m)
    ensures Stop(Merged(s)) == Stop(s) && Related(s, Stop(s), m, p) && BlockMapped(Merged(s), m)
  {
    hide Related, Hosted, Regular, Stop, Dead, Merged, OpMapped, Before, Inside, ExitMapped;
    StopMerged(s);
    forall k | 0 <= k < Stop(s) ensures OpMapped(Merged(s)[k], Before(Merged(s), k, m)) {
      SideBySide(s, k, m, p);
      MergedMapped(s, k, m, p);
    }
    SideBySide(s, Stop(s), m, p);
    RelatedInside(s, Stop(s), m, p);
    RegularExit(Merged(s), Before(Merged(s), Stop(s), m), p);
  }

  lemma RelatedInside(s: seq<IR.IRInst>, k: nat, m: Machine, p: int)
    requires k <= Stop(s) == Stop(Merged(s)) && Related(s, k, m, p)
    ensures Inside(Before(s, k, m), p) && Inside(Before(Merged(s), k, m), p)
  { hide Before, Alike, Twins, AfterSpill, Bit7, Cleared, Fed; }

  /** Flag merging on the bytes, for blocks of any length: whenever the code of the unmerged block runs
      through, so does that of the merged block, and they leave the same context and memory up to the pc
      slot; the pc slots differ if and only if the block leaves by a conditional exit that reads ZF,
      fed by a run of setters of which the pass cleared some, with bit 7 of R9 set in front of the run. */
  lemma MergedRunsAlike(s: seq<IR.IRInst>, ft: u64, code: seq<u8>, merged: seq<u8>, m: Machine, p: int)
    returns (u: Machine, v: Machine)
    requires Marked(s) && forall ir :: ir in s ==> Regular(ir) && Coded(ir)
    requires At(code, 0, BlockCode(s, ft)) && At(merged, 0, BlockCode(Merged(s), ft))
    requires m.regs[RDI] == p && Hosted(m.Set(R12, p), p) && GuestAccesses(s, m.Set(R12, p))
    ensures Run(code, 0, m) == Returned(u) && Run(merged, 0, m) == Returned(v)
    ensures EqualButWord(u.mem, v.mem, p + 256)
    ensures u.mem != v.mem <==> ExitsPart(s, ft, m.Set(R12, p))
  {
    hide Related, Hosted, Regular, Stop, Merged, OpMapped, Before, Inside, GuestAccesses, BlockMapped, Run, At,
      BlockCode, ExitsPart, ExitPc, Write64, EqualButWord, Coded, BlockOutcome, Mapped;
    var m0 := m.Set(R12, p);
    HostedFacts(m0, p);
    RegularBlock(s, m0, p);
    AllMergedMapped(s, m0, p);
    MergedCoded(s);
    BlockRuns(s, ft, code, m);
    BlockRuns(Merged(s), ft, merged, m);
    ExitsCompared(s, ft, m0, p);
    RelatedInside(s, Stop(s), m0, p);
    var last, last' := Before(s, Stop(s), m0), Before(Merged(s), Stop(s), m0);
    u, v := Exited(last, ExitPc(s, ft, last)), Exited(last', ExitPc(Merged(s), ft, last'));
    OutcomeIs(s, ft, m0);
    OutcomeIs(Merged(s), ft, m0);
    PcWord(last, p);
    PcWord(last', p);
    OneWord(last.mem, p + 256, ExitPc(s, ft, last), ExitPc(Merged(s), ft, last'));
  }

  lemma HostedFacts(m: Machine, p: int)
    requires Hosted(m, p)
    ensures Inside(m, p) && Mapped(m.mem, Pushed(m), 8)
  {}

  lemma PcWord(m: Machine, p: int)
    requires Inside(m, p)
    ensures m.Ea(R12, PC_OFFSET) == p + 256 && Mapped(m.mem, p + 256, 8)
  {}

  lemma OutcomeIs(s: seq<IR.IRInst>, ft: u64, m: Machine)
    requires BlockMapped(s, m)
    ensures var last := Before(s, Stop(s), m); BlockOutcome(s, ft, m) == Returned(Exited(last, ExitPc(s, ft, last)))
  { hide BlockMapped, Before, Stop, ExitPc, Exited; }

  lemma MergedCoded(s: seq<IR.IRInst>)
    requires forall ir :: ir in s ==> Coded(ir)
    ensures forall ir :: ir in Merged(s) ==> Coded(ir)
  { forall i | 0 <= i < |s| ensures Coded(Merged(s)[i]) { assert s[i] in s; } }

  // ----- inputs on which the exits part -----

  /** A conditional exit right behind a marked setter is decided by bit 7 of R9 and by nothing else: not
      by the operands, and not by the condition if it does not read ZF. */
  lemma SpilledExit(s: seq<IR.IRInst>, ft: u64, m: Machine, p: int)
    requires var n := Stop(s); 0 < n < |s| && s[n].op.JMP_COND? && IsSetter(s[n - 1]) && s[n - 1].flagsSet && Regular(s[n - 1])
    requires Hosted(Before(s, Stop(s) - 1, m), p)
    ensures var n := Stop(s);
            ExitPc(s, ft, Before(s, n, m)) ==
            if Holds(HostCond(s[n].cond), AfterSpill(Before(s, n - 1, m).regs[R9])) then s[n].imm else ft
  {
    hide Before, OpEffect, SetterDone, Holds, HostCond, AfterSpill, Hosted, Stop, Regular, Alike, Twins;
    var n: int := Stop(s);
    var u := Before(s, n - 1, m);
    BeforeNext(s, n - 1, m);
    SetterEffect(s[n - 1], u, p);
    AlikeSelf(u, p);
    LiveStep(s[n - 1], u, u, p);
  }

  lemma AlikeSelf(u: Machine, p: int)
    ensures Alike(u, u, p)
  { EqualSelf(u.mem, p, Pushed(u)); }

  predicate ShiftsByImm(ir: IR.IRInst) { ir.op in {IR.SHL, IR.SHR, IR.SAR} && Regular(ir) && ir.imm < 64 && !ir.flagsSet }

  function ShiftKind(op: IR.Op): ShiftOp { if op.SHL? then SHL else if op.SHR? then SHR else SAR }

  /** The host flags behind a shift. */
  function ShiftDone(ir: IR.IRInst, m: Machine, p: int): Flags
    requires ShiftsByImm(ir) && Inside(m, p)
  {
    assert Mapped(m.mem, p, CTX_SIZE) by { InsideMapped(m, p); }
    ShiftFlags(ShiftKind(ir.op), OperandA(ir, m.mem, p), ir.imm, m.flags)
  }

  /** The code of a shift: its flags are those of shifting the operand, and the store keeps them. */
  lemma ShiftFlagsLeft(ir: IR.IRInst, m: Machine, p: int)
    requires ShiftsByImm(ir) && Inside(m, p)
    ensures OpEffect(ir, m).Done? && OpEffect(ir, m).m.flags == ShiftDone(ir, m, p)
  {
    hide ShiftFlags, ShiftResult, Read64, Write64, Effect1, Meanings, LowerInstr, Inside;
    assert Mapped(m.mem, p, CTX_SIZE) by { InsideMapped(m, p); }
    OpStraight(ir);
    var op, x := ShiftKind(ir.op), OperandA(ir, m.mem, p);
    var a, b, c := LoadArm(ir.src1, RAX), ShiftImm(op, RAX, ir.imm), StoreArm(RAX, ir.dest);
    ShiftCode(ir);
    SlotLoad(ir.src1, RAX, m, p);
    var m1 := m.Set(RAX, x);
    InsideSet(m, p, RAX, x);
    assert [a, b, c][1..] == [b, c];
    ShiftEffect(op, RAX, ir.imm, m1);
    var m2 := m1.(flags := ShiftFlags(op, x, ir.imm, m.flags)).Set(RAX, ShiftResult(op, x, ir.imm));
    InsideFlags(m1, m2, p);
    StoreAt(m2, p, 8 * ir.dest, RAX);
    Chain2(b, c, m1, m2);
  }

  lemma ShiftCode(ir: IR.IRInst)
    requires ShiftsByImm(ir)
    ensures var l := [LoadArm(ir.src1, RAX), ShiftImm(ShiftKind(ir.op), RAX, ir.imm), StoreArm(RAX, ir.dest)];
            LowerInstr(ir, 0) == l && Meanings(l) == l && StoreArm(RAX, ir.dest) == Store(R12, 8 * ir.dest, RAX)
  {}

  lemma InsideFlags(m: Machine, m': Machine, p: int)
    requires Inside(m, p) && m'.mem == m.mem && m'.regs[R12] == m.regs[R12]
    ensures Inside(m', p)
  {}

  /** A conditional exit right behind a shift by an immediate is decided by the host flags of that shift. */
  lemma ShiftedExit(s: seq<IR.IRInst>, ft: u64, m: Machine, p: int)
    requires var n := Stop(s); 0 < n < |s| && s[n].op.JMP_COND? && ShiftsByImm(s[n - 1])
    requires Inside(Before(s, Stop(s) - 1, m), p)
    ensures var n := Stop(s);
            ExitPc(s, ft, Before(s, n, m)) ==
            if Holds(HostCond(s[n].cond), ShiftDone(s[n - 1], Before(s, n - 1, m), p)) then s[n].imm else ft
  {
    hide Before, OpEffect, Holds, HostCond, Inside, Stop, Regular, ShiftDone;
    var n: int := Stop(s);
    BeforeNext(s, n - 1, m);
    ShiftFlagsLeft(s[n - 1], Before(s, n - 1, m), p);
  }

  /** The host flags of a shift by one: B.VS behind it is taken where the SDM says, for LSR when the
      operand had its top bit set, for LSL when its two top bits differ, for ASR never. */
  lemma OneBitOverflow(op: ShiftOp, x: u64, f: Flags)
    ensures Holds(HostCond(6), ShiftFlags(op, x, 1, f)) <==>
            match op case SHL => (x >= TWO_63) != (x / 0x4000_0000_0000_0000 % 2 == 1) case SHR => x >= TWO_63 case SAR => false
  {
    assert Pow2(0) == 1 && Pow2(1) == 2;
    hide Pow2, EvenParity;
  }

  /** The other flags of a shift by an immediate: CF is the last digit shifted out, ZF and SF look at the result. */
  lemma ShiftFlagsMean(op: ShiftOp, x: u64, k: nat, f: Flags)
    requires 0 < k < 64
    ensures var r, s := ShiftFlags(op, x, k, f), ShiftResult(op, x, k);
            && (r.cf <==> Semantics.Digit(x, if op.SHL? then 64 - k else k - 1))
            && (r.zf <==> s == 0) && (r.sf <==> s >= TWO_63)
  {
    hide EvenParity, ShiftResult;
    match op
    case SHL => TopDigit(x, k - 1);
    case SHR => assert x / Pow2(k - 1) % 2 == 1 <==> Semantics.Digit(x, k - 1);
    case SAR => SignedDigit(x, k - 1);
  }

  lemma TopDigit(x: u64, k: nat)
    requires k < 64
    ensures U64(x * Pow2(k)) >= TWO_63 <==> Semantics.Digit(x, 63 - k)
  {
    hide U64, Semantics.Digit;
    Pow2Top();
    Semantics.ShiftDigit(x, k, 63);
    hide Pow2;
    TopOfWord(x * Pow2(k));
  }

  lemma Pow2Top()
    ensures Pow2(63) == TWO_63
  { Pow2Words(); assert Pow2(64) == 2 * Pow2(63); hide Pow2; }

  lemma TopOfWord(y: nat)
    requires Pow2(63) == TWO_63
    ensures U64(y) >= TWO_63 <==> Semantics.Digit(y, 63)
  { hide Pow2; Nest(y, TWO_63, 2); }

  /** The digits below the sign are those of the unsigned word. */
  lemma SignedDigit(x: u64, k: nat)
    requires k < 63
    ensures AsI64(x) / Pow2(k) % 2 == 1 <==> Semantics.Digit(x, k)
  {
    if x >= TWO_63 {
      PowerSplits(k, 64);
      var p, q := Pow2(k), Pow2(63 - k);
      Pow2Words();
      assert Pow2(64 - k) == 2 * q;
      hide Pow2;
      ShiftedQuotient(x, p, q);
    }
  }

  lemma {:induction false} PowerSplits(a: nat, b: nat)
    requires a <= b
    ensures Pow2(b) == Pow2(a) * Pow2(b - a)
    decreases a
  { if a > 0 { PowerSplits(a - 1, b - 1); } }

  lemma ShiftedQuotient(x: nat, p: nat, q: nat)
    requires p > 0 && p * (2 * q) == TWO_64
    ensures (x - TWO_64) / p == x / p - 2 * q && (x - TWO_64) / p % 2 == x / p % 2
  {
    var r := x % p;
    assert x == p * (x / p) + r;
    assert x - TWO_64 == p * (x / p - 2 * q) + r;
    QuotientIs(x - TWO_64, p, x / p - 2 * q, r);
  }

  lemma QuotientIs(x: int, p: nat, q: int, r: nat)
    requires p > 0 && x == p * q + r && r < p
    ensures x / p == q
  {
    assert (q + 1) * p == q * p + p;
    QuotientOf(x, p, q);
  }

  /** MOVZ X7, #0x80; SUB with an immediate, twice; B.EQ: as decoded. */
  predicate MarkedPair(ds: seq<DecodedInstr>)
  {
    && |ds| == 4
    && ds[0].opcode == 0x22 && ds[0].rd == 7 && ds[0].imm == 0x80 && ds[0].category == MOVE
    && (forall i :: 1 <= i <= 2 ==> ds[i].opcode == 0x01 && ds[i].rm == 0xFF && ds[i].setsFlags && ds[i].category == INTEGER_ARITH)
    && ds[3].opcode == 0x54 && ds[3].cond == 0 && ds[3].category == BRANCH_COND && ds[3].branchOffset != 4
  }

  lemma PairBuilt(ds: seq<DecodedInstr>, pc: u64)
    requires MarkedPair(ds)
    ensures var s := IR.BuildList(ds, pc); var pc3: u64 := U64(pc + 12);
            && |s| == 4 && s[0].op.MOV_IMM? && s[0].dest == 7 && s[0].imm == 0x80 && !s[0].flagsSet
            && s[1].op.SUB? && s[1].flagsSet && !s[1].flagsUsed && s[2].op.SUB? && s[2].flagsSet && !s[2].flagsUsed
            && s[3].op.JMP_COND? && s[3].cond == 0 && s[3].imm == U64(pc3 + ds[3].branchOffset) && !s[3].flagsSet
  {
    var a, b, c, d := ds[0], ds[1], ds[2], ds[3];
    assert ds[1..][1..][1..] == [d] && ds[1..][1..] == [c, d] && ds[1..] == [b, c, d];
    IR.PcAdvance(pc, 4, 4);
    IR.PcAdvance(pc, 8, 4);
    OneBuilt(a, pc); OneBuilt(b, U64(pc + 4)); OneBuilt(c, U64(pc + 8)); OneBuilt(d, U64(pc + 12));
    hide IR.BuildInstr;
    assert IR.BuildList([d], U64(pc + 12)) == IR.BuildInstr(d, U64(pc + 12));
    assert IR.BuildList([c, d], U64(pc + 8)) == IR.BuildInstr(c, U64(pc + 8)) + IR.BuildList([d], U64(pc + 12));
    assert IR.BuildList([b, c, d], U64(pc + 4)) == IR.BuildInstr(b, U64(pc + 4)) + IR.BuildList([c, d], U64(pc + 8));
  }

  lemma OneBuilt(d: DecodedInstr, pc: u64)
    requires d.opcode in {0x01, 0x22, 0x54}
    ensures var irs := IR.BuildInstr(d, pc);
            |irs| == 1 && var ir := irs[0];
            && (d.opcode == 0x01 ==> ir.op.SUB? && ir.flagsSet == d.setsFlags && !ir.flagsUsed)
            && (d.opcode == 0x22 ==> ir.op.MOV_IMM? && ir.dest == d.rd && ir.imm == d.imm && !ir.flagsSet)
            && (d.opcode == 0x54 ==> ir.op.JMP_COND? && ir.cond == d.cond && ir.imm == U64(pc + d.branchOffset) && !ir.flagsSet)
  {}

  lemma NinthSet(ir: IR.IRInst, m: Machine, p: int)
    requires ir.op.MOV_IMM? && ir.dest == 7 && Inside(m, p)
    ensures StepM(ir, m).regs[R9] == ir.imm
  {
    OpStraight(ir);
    var l := LowerInstr(ir, 0);
    assert HostReg(7) == R9 && Meanings(l) == l;
    StoreAt(m.Set(R9, ir.imm), p, 56, R9);
    assert l == [MovImm(R9, ir.imm), Store(R12, 56, R9)];
    hide Write64, LowerInstr;
    Chain2(MovImm(R9, ir.imm), Store(R12, 56, R9), m, m.Set(R9, ir.imm));
  }

  /** On this program the merged code leaves the block elsewhere than the unmerged code, from every
      entry state: X7 lives in R9, and the first of the two spills would have cleared its bit 7. */
  lemma MarkedPairParts(ds: seq<DecodedInstr>, pc: u64, m: Machine, p: int)
    requires MarkedPair(ds) && Hosted(m, p)
    ensures ExitsPart(IR.BuildList(ds, pc), U64(pc + 16), m)
  {
    hide Hosted, StepM, IR.BuildList, Stop, LastWriter, RunStart, Before, Cleared, WritesFlags, Bit7, Inside;
    var s := IR.BuildList(ds, pc);
    PairBuilt(ds, pc);
    PairStop(s);
    PairRun(s, m);
    HostedFacts(m, p);
    NinthSet(s[0], m, p);
    assert Bit7(0x80) by { BitSeven(); }
    IR.PcAdvance(pc, 12, 4);
    OffsetPart(U64(pc + 12), ds[3].branchOffset);
  }

  lemma BitSeven()
    ensures Bit7(0x80)
  {}

  /** Three operations that stay in the block and a conditional exit. */
  lemma PairStop(s: seq<IR.IRInst>)
    requires |s| == 4 && FallsThrough(s[0]) && FallsThrough(s[1]) && FallsThrough(s[2]) && !FallsThrough(s[3])
    ensures Stop(s) == 3
  {
    hide FallsThrough;
    var n := Stop(s);
    assert n != 0 && n != 1 && n != 2 && n != 4;
  }

  lemma PairRun(s: seq<IR.IRInst>, m: Machine)
    requires |s| == 4 && Stop(s) == 3 && !s[0].flagsSet && s[1].flagsSet && s[2].flagsSet && !s[2].flagsUsed && s[2].op.SUB?
    requires FallsThrough(s[0])
    ensures LastWriter(s, 3) == 2 && Fed(s, 3) && RunStart(s, 2) == 1 && Before(s, 1, m) == StepM(s[0], m)
  {
    hide StepM, Stop;
    assert Cleared(s, 1) && !Cleared(s, 0);
    assert RunStart(s, 1) == 1;
    assert Before(s[1..], 0, StepM(s[0], m)) == StepM(s[0], m);
  }

  lemma OffsetPart(pc: u64, offset: u32)
    requires offset != 4
    ensures U64(pc + offset) != U64(pc + 4)
  {}
}
