/** Running the emitted bytes does what the IR denotes. */
module Refine {
  import opened Words
  import opened Guest
  import opened View
  import opened X86
  import opened Emitter
  import opened Lower
  import opened Lowering
  import Denote
  import IR

  // ----- straight-line code -----

  predicate Straight(list: seq<Instr>) { forall i :: i in list ==> !i.Ret? && !i.Jcc? }

  function Effects(list: seq<Instr>, m: Machine): Effect
    requires Straight(list)
  {
    if |list| == 0 then Done(m) else
    match Effect1(list[0], m)
    case Fault => Fault
    case Done(m') => Effects(list[1..], m')
  }

  /** Code that decodes back to itself. */
  predicate Clean(list: seq<Instr>) { forall i :: i in list ==> Emittable(i) && Faithful(i) }

  /** Byte-level execution of an encoded straight-line list is execution of what its bytes mean. */
  lemma {:induction false} RunMeaning(code: seq<u8>, ip: nat, list: seq<Instr>, m: Machine)
    requires (forall i :: i in list ==> Emittable(i) && !RipSlip(i)) && Straight(list) && Straight(Meanings(list))
    requires At(code, ip, EncodeAll(list))
    ensures Run(code, ip, m) ==
            match Effects(Meanings(list), m) case Fault => MemFault case Done(m') => Run(code, ip + |EncodeAll(list)|, m')
    decreases |list|
  {
    hide Encode, Decode, Effect1, Meaning;
    if |list| > 0 {
      var e := Encode(list[0]);
      AtSplit(code, ip, e, EncodeAll(list[1..]));
      AtPrefix(code, ip, e);
      DecodeEncode(list[0], code[ip..]);
      var i := Meaning(list[0]);
      assert Meanings(list)[0] == i && Meanings(list)[1..] == Meanings(list[1..]);
      match Effect1(i, m)
      case Fault =>
      case Done(m') => RunMeaning(code, ip + |e|, list[1..], m');
    }
  }

  lemma RunStraight(code: seq<u8>, ip: nat, list: seq<Instr>, m: Machine)
    requires Clean(list) && Straight(list)
    requires At(code, ip, EncodeAll(list))
    ensures Run(code, ip, m) ==
            match Effects(list, m) case Fault => MemFault case Done(m') => Run(code, ip + |EncodeAll(list)|, m')
  {
    hide Encode, Decode, Effect1, Run, Effects;
    forall k | 0 <= k < |list| ensures Meanings(list)[k] == list[k] { assert list[k] in list; FaithfulMeaning(list[k]); }
    assert Meanings(list) == list;
    hide Meaning;
    RunMeaning(code, ip, list, m);
  }

  // ----- single instructions against the view -----

  /** Emitted code runs with the context pointer in R12. */
  predicate Inside(m: Machine, p: int)
  { m.regs[R12] == p && p + CTX_SIZE <= TWO_64 && Mapped(m.mem, p, CTX_SIZE) }

  function Seen(m: Machine, p: int, regions: seq<MemRegion>): Guest
    requires Inside(m, p)
  { ViewAt(m.mem, p, regions) }

  lemma LoadArmStep(m: Machine, p: int, arm: int, x: Reg)
    requires Inside(m, p) && 0 <= arm < 32
    ensures Effect1(LoadArm(arm, x), m) == Done(m.Set(x, ContextAt(m.mem, p).x[arm]))
  { assert m.Ea(R12, Slot(arm)) == p + 8 * arm; assert Mapped(m.mem, p + 8 * arm, 8); }

  lemma StoreCtxStep(m: Machine, p: int, i: int, x: Reg, regions: seq<MemRegion>)
    requires Inside(m, p) && 0 <= i <= 34
    ensures Effect1(Store(R12, 8 * i, x), m) == Done(m.(mem := Write64(m.mem, p + 8 * i, m.regs[x])))
    ensures var m' := m.(mem := Write64(m.mem, p + 8 * i, m.regs[x]));
            Inside(m', p) && Seen(m', p, regions) == Seen(m, p, regions).(ctx := SetSlot(ContextAt(m.mem, p), i, m.regs[x]))
  {
    assert m.Ea(R12, 8 * i) == p + 8 * i;
    assert Mapped(m.mem, p + 8 * i, 8);
    StoreSlot(m.mem, p, i, m.regs[x]);
  }

  lemma GuestLoadStep(m: Machine, p: int, r: Reg, base: Reg, disp: i32)
    requires Inside(m, p) && Mapped(Outside(m.mem, p), m.Ea(base, disp), 8)
    ensures Effect1(Load(r, base, disp), m) == Done(m.Set(r, Read64(Outside(m.mem, p), m.Ea(base, disp))))
  { LoadOutside(m.mem, p, m.Ea(base, disp)); }

  lemma GuestStoreStep(m: Machine, p: int, base: Reg, disp: i32, x: Reg, regions: seq<MemRegion>)
    requires Inside(m, p) && Mapped(Outside(m.mem, p), m.Ea(base, disp), 8)
    ensures Effect1(Store(base, disp, x), m) == Done(m.(mem := Write64(m.mem, m.Ea(base, disp), m.regs[x])))
    ensures var m' := m.(mem := Write64(m.mem, m.Ea(base, disp), m.regs[x])); var g := Seen(m, p, regions);
            Inside(m', p) && Seen(m', p, regions) == g.(mem := Write64(g.mem, m.Ea(base, disp), m.regs[x]))
  {
    LoadOutside(m.mem, p, m.Ea(base, disp));
    StoreOutside(m.mem, p, m.Ea(base, disp), m.regs[x]);
  }

  // ----- operations -----

  /** The list runs from `m` to `m'`, and its bytes decode to it. */
  predicate Reaches(list: seq<Instr>, m: Machine, m': Machine)
  { Straight(list) && Clean(list) && Effects(list, m) == Done(m') }

  lemma One(i: Instr, m: Machine, m': Machine)
    requires !i.Ret? && !i.Jcc? && Emittable(i) && Faithful(i) && Effect1(i, m) == Done(m')
    ensures Reaches([i], m, m')
  { hide Effect1, Emittable, Faithful; assert [i][1..] == []; assert Effects([], m') == Done(m'); }

  lemma {:induction false} Compose(a: seq<Instr>, b: seq<Instr>, m: Machine, m1: Machine, m2: Machine)
    requires Reaches(a, m, m1) && Reaches(b, m1, m2)
    ensures Reaches(a + b, m, m2)
    decreases |a|
  {
    hide Effect1, Emittable, Faithful;
    if |a| == 0 {
      assert a + b == b;
    } else {
      assert (a + b)[1..] == a[1..] + b;
      Compose(a[1..], b, Effect1(a[0], m).m, m1, m2);
      assert Straight(a + b) && Clean(a + b);
    }
  }

  /** What one operation must do to the machine. */
  predicate Carries(list: seq<Instr>, m: Machine, m': Machine, p: int, regions: seq<MemRegion>, g: Guest)
  { Reaches(list, m, m') && Inside(m', p) && Seen(m', p, regions) == g }

  lemma LoadArmReaches(m: Machine, p: int, arm: int, x: Reg)
    requires Inside(m, p) && 0 <= arm < 32
    ensures Reaches([LoadArm(arm, x)], m, m.Set(x, ContextAt(m.mem, p).x[arm]))
  {
    LoadArmStep(m, p, arm, x);
    One(LoadArm(arm, x), m, m.Set(x, ContextAt(m.mem, p).x[arm]));
  }

  lemma StoreArmCarries(m: Machine, p: int, arm: int, x: Reg, regions: seq<MemRegion>) returns (m': Machine)
    requires Inside(m, p) && 0 <= arm < 32
    ensures m'.regs == m.regs
    ensures var g := Seen(m, p, regions);
            Carries([StoreArm(x, arm)], m, m', p, regions, g.(ctx := g.ctx.SetReg(arm, m.regs[x])))
  {
    hide Effect1, Effects, ContextAt, Outside, Write64, Mapped;
    m' := m.(mem := Write64(m.mem, p + 8 * arm, m.regs[x]));
    StoreCtxStep(m, p, arm, x, regions);
    One(StoreArm(x, arm), m, m');
  }

  /** A value put into `x` by `i`, then stored. */
  lemma PutRefines(i: Instr, x: Reg, dest: int, m: Machine, p: int, regions: seq<MemRegion>, v: u64)
    returns (m': Machine)
    requires Inside(m, p) && Denote.ArmReg(dest) && x != R12
    requires Reaches([i], m, m.Set(x, v))
    ensures var g := Seen(m, p, regions);
            Carries([i, StoreArm(x, dest)], m, m', p, regions, g.(ctx := g.ctx.SetReg(dest, v)))
  {
    hide Reaches, ContextAt, Outside;
    m' := StoreArmCarries(m.Set(x, v), p, dest, x, regions);
    Compose([i], [StoreArm(x, dest)], m, m.Set(x, v), m');
    assert [i] + [StoreArm(x, dest)] == [i, StoreArm(x, dest)];
  }

  /** A computation in RAX between loading a register and storing one. */
  lemma ComputeRefines(src: int, work: seq<Instr>, dest: int, m: Machine, p: int, regions: seq<MemRegion>, m2: Machine)
    returns (m': Machine)
    requires Inside(m, p) && Denote.ArmReg(src) && Denote.ArmReg(dest)
    requires Reaches(work, m.Set(RAX, ContextAt(m.mem, p).x[src]), m2)
    requires m2.mem == m.mem && m2.regs[R12] == p
    ensures var g := Seen(m, p, regions);
            Carries([LoadArm(src, RAX)] + work + [StoreArm(RAX, dest)], m, m', p, regions,
                    g.(ctx := g.ctx.SetReg(dest, m2.regs[RAX])))
  {
    hide Reaches, ContextAt, Outside;
    LoadArmReaches(m, p, src, RAX);
    m' := StoreArmCarries(m2, p, dest, RAX, regions);
    Compose([LoadArm(src, RAX)], work, m, m.Set(RAX, ContextAt(m.mem, p).x[src]), m2);
    Compose([LoadArm(src, RAX)] + work, [StoreArm(RAX, dest)], m, m2, m');
  }

  lemma AluImmReaches(op: AluOp, imm: u32, m: Machine) returns (m': Machine)
    requires op != TEST && op != MOV
    ensures Reaches([AluImm(op, RAX, imm)], m, m')
    ensures m'.mem == m.mem && m'.regs == m.regs[RAX := AluResult(op, m.regs[RAX], SignedImm(imm))]
  {
    hide AluFlags, AluResult, SignedImm;
    var a, b := m.regs[RAX], SignedImm(imm);
    m' := m.(flags := AluFlags(op, a, b, m.flags)).Set(RAX, AluResult(op, a, b));
    One(AluImm(op, RAX, imm), m, m');
  }

  lemma AluReaches(op: AluOp, m: Machine) returns (m': Machine)
    ensures Reaches([Alu(op, RAX, RCX)], m, m')
    ensures m'.mem == m.mem && m'.regs == m.regs[RAX := AluResult(op, m.regs[RAX], m.regs[RCX])]
  {
    hide AluFlags, AluResult;
    var a, b := m.regs[RAX], m.regs[RCX];
    m' := m.(flags := AluFlags(op, a, b, m.flags)).Set(RAX, AluResult(op, a, b));
    One(Alu(op, RAX, RCX), m, m');
  }

  lemma ArithRefines(op: AluOp, ir: IR.IRInst, m: Machine, p: int, regions: seq<MemRegion>) returns (m': Machine)
    requires Inside(m, p) && !ir.flagsSet && op in {AluOp.ADD, AluOp.SUB}
    requires Denote.ArmReg(ir.dest) && Denote.ArmReg(ir.src1) && Denote.OperandOk(ir)
    ensures var g := Seen(m, p, regions);
            Carries(Arith(op, ir), m, m', p, regions,
                    g.(ctx := g.ctx.SetReg(ir.dest, AluResult(op, g.ctx.x[ir.src1], Denote.Operand2(ir, g.ctx)))))
  {
    hide ContextAt, Outside, Mapped, AluResult, Reaches, SignedImm;
    var c := ContextAt(m.mem, p);
    var m1 := m.Set(RAX, c.x[ir.src1]);
    if ir.src2 == IR.IR_IMM {
      var work := [AluImm(op, RAX, U32(ir.imm))];
      var m2 := AluImmReaches(op, U32(ir.imm), m1);
      m' := ComputeRefines(ir.src1, work, ir.dest, m, p, regions, m2);
      assert Arith(op, ir) == [LoadArm(ir.src1, RAX)] + work + [StoreArm(RAX, ir.dest)];
    } else {
      var mid := m1.Set(RCX, c.x[ir.src2]);
      LoadArmReaches(m1, p, ir.src2, RCX);
      var m2 := AluReaches(op, mid);
      var work := [LoadArm(ir.src2, RCX)] + [Alu(op, RAX, RCX)];
      Compose([LoadArm(ir.src2, RCX)], [Alu(op, RAX, RCX)], m1, mid, m2);
      m' := ComputeRefines(ir.src1, work, ir.dest, m, p, regions, m2);
      assert Arith(op, ir) == [LoadArm(ir.src1, RAX)] + work + [StoreArm(RAX, ir.dest)];
    }
  }

  lemma ShiftReaches(op: ShiftOp, count: u8, m: Machine) returns (m': Machine)
    ensures Reaches([ShiftImm(op, RAX, count)], m, m')
    ensures m'.mem == m.mem && m'.regs == m.regs[RAX := ShiftResult(op, m.regs[RAX], count % 64)]
  {
    hide ShiftResult, ShiftFlags;
    var n := count % 64;
    m' := m.(flags := ShiftFlags(op, m.regs[RAX], n, m.flags)).Set(RAX, ShiftResult(op, m.regs[RAX], n));
    One(ShiftImm(op, RAX, count), m, m');
  }

  lemma ShiftRefines(op: ShiftOp, ir: IR.IRInst, m: Machine, p: int, regions: seq<MemRegion>) returns (m': Machine)
    requires Inside(m, p) && Denote.ArmReg(ir.dest) && Denote.ArmReg(ir.src1)
    ensures var g := Seen(m, p, regions);
            Carries(Shift(op, ir), m, m', p, regions,
                    g.(ctx := g.ctx.SetReg(ir.dest, ShiftResult(op, g.ctx.x[ir.src1], ir.imm % 64))))
  {
    hide ContextAt, Outside, Mapped, ShiftResult, ShiftFlags, Effects, Effect1, Reaches;
    var m1 := m.Set(RAX, ContextAt(m.mem, p).x[ir.src1]);
    var n := ir.imm % 256 % 64;
    var work := [ShiftImm(op, RAX, ir.imm % 256)];
    var m2 := ShiftReaches(op, ir.imm % 256, m1);
    m' := ComputeRefines(ir.src1, work, ir.dest, m, p, regions, m2);
    assert Shift(op, ir) == [LoadArm(ir.src1, RAX)] + work + [StoreArm(RAX, ir.dest)];
    assert n == ir.imm % 64;
  }

  lemma LoadRefines(ir: IR.IRInst, m: Machine, p: int, regions: seq<MemRegion>) returns (m': Machine)
    requires Inside(m, p) && ir.op in {IR.LOAD64, IR.LOAD32} && Denote.Denotable(ir)
    requires Denote.AccessesMapped(ir, Seen(m, p, regions))
    ensures Carries(LowerInstr(ir, 0), m, m', p, regions, Denote.Body(ir, Seen(m, p, regions)))
  {
    hide ContextAt, Outside, Mapped;
    var g := Seen(m, p, regions);
    var m1 := m.Set(RAX, g.ctx.x[ir.src1]);
    var disp := AsI32(ir.imm);
    var m2 := m1.Set(RAX, Read64(g.mem, Denote.Addr1(ir, g.ctx)));
    GuestLoadStep(m1, p, RAX, RAX, disp);
    One(Load(RAX, RAX, disp), m1, m2);
    m' := ComputeRefines(ir.src1, [Load(RAX, RAX, disp)], ir.dest, m, p, regions, m2);
    assert LowerInstr(ir, 0) == [LoadArm(ir.src1, RAX)] + [Load(RAX, RAX, disp)] + [StoreArm(RAX, ir.dest)];
  }

  /** Loading two registers into RAX and RCX. */
  lemma TwoLoads(a: int, b: int, m: Machine, p: int)
    requires Inside(m, p) && 0 <= a < 32 && 0 <= b < 32
    ensures var c := ContextAt(m.mem, p);
            Reaches([LoadArm(a, RAX), LoadArm(b, RCX)], m, m.Set(RAX, c.x[a]).Set(RCX, c.x[b]))
  {
    hide ContextAt, Reaches;
    var c := ContextAt(m.mem, p);
    var m1 := m.Set(RAX, c.x[a]);
    LoadArmReaches(m, p, a, RAX);
    LoadArmReaches(m1, p, b, RCX);
    Compose([LoadArm(a, RAX)], [LoadArm(b, RCX)], m, m1, m1.Set(RCX, c.x[b]));
    assert [LoadArm(a, RAX)] + [LoadArm(b, RCX)] == [LoadArm(a, RAX), LoadArm(b, RCX)];
  }

  lemma GuestStoreCarries(m: Machine, p: int, disp: i32, x: Reg, regions: seq<MemRegion>) returns (m': Machine)
    requires Inside(m, p) && Mapped(Outside(m.mem, p), m.Ea(RAX, disp), 8)
    ensures m'.regs == m.regs
    ensures var g := Seen(m, p, regions);
            Carries([Store(RAX, disp, x)], m, m', p, regions, g.(mem := Write64(g.mem, m.Ea(RAX, disp), m.regs[x])))
  {
    hide Effect1, Effects, ContextAt, Outside, Write64, Mapped;
    m' := m.(mem := Write64(m.mem, m.Ea(RAX, disp), m.regs[x]));
    GuestStoreStep(m, p, RAX, disp, x, regions);
    One(Store(RAX, disp, x), m, m');
  }

  lemma StoreRefines(ir: IR.IRInst, m: Machine, p: int, regions: seq<MemRegion>) returns (m': Machine)
    requires Inside(m, p) && ir.op in {IR.STORE64, IR.STORE32} && Denote.Denotable(ir)
    requires Denote.AccessesMapped(ir, Seen(m, p, regions))
    ensures Carries(LowerInstr(ir, 0), m, m', p, regions, Denote.Body(ir, Seen(m, p, regions)))
  {
    hide ContextAt, Outside, Mapped, Reaches, Write64;
    var g := Seen(m, p, regions);
    var disp := AsI32(ir.imm);
    TwoLoads(ir.src1, ir.src2, m, p);
    var m2 := m.Set(RAX, g.ctx.x[ir.src1]).Set(RCX, g.ctx.x[ir.src2]);
    m' := GuestStoreCarries(m2, p, disp, RCX, regions);
    var loads := [LoadArm(ir.src1, RAX), LoadArm(ir.src2, RCX)];
    Compose(loads, [Store(RAX, disp, RCX)], m, m2, m');
    assert LowerInstr(ir, 0) == loads + [Store(RAX, disp, RCX)];
  }

  lemma LoadPairRefines(ir: IR.IRInst, m: Machine, p: int, regions: seq<MemRegion>) returns (m': Machine)
    requires Inside(m, p) && ir.op.LOAD_PAIR? && Denote.Denotable(ir)
    requires Denote.AccessesMapped(ir, Seen(m, p, regions))
    ensures Carries(LowerInstr(ir, 0), m, m', p, regions, Denote.Body(ir, Seen(m, p, regions)))
  {
    hide ContextAt, Outside, Mapped, Reaches, Write64;
    var g := Seen(m, p, regions);
    var disp := AsI32(ir.imm);
    var m1 := m.Set(RAX, g.ctx.x[ir.src1]);
    LoadArmReaches(m, p, ir.src1, RAX);
    var m2 := m1.Set(RCX, Read64(g.mem, Denote.Addr1(ir, g.ctx)));
    GuestLoadStep(m1, p, RCX, RAX, disp);
    One(Load(RCX, RAX, disp), m1, m2);
    var m3 := m2.Set(RDX, Read64(g.mem, Denote.Addr2(ir, g.ctx)));
    GuestLoadStep(m2, p, RDX, RAX, Plus8(disp));
    One(Load(RDX, RAX, Plus8(disp)), m2, m3);
    var m4 := StoreArmCarries(m3, p, ir.dest, RCX, regions);
    m' := StoreArmCarries(m4, p, ir.src2, RDX, regions);
    var a, b, c, d, e := [LoadArm(ir.src1, RAX)], [Load(RCX, RAX, disp)], [Load(RDX, RAX, Plus8(disp))],
      [StoreArm(RCX, ir.dest)], [StoreArm(RDX, ir.src2)];
    Compose(a, b, m, m1, m2);
    Compose(a + b, c, m, m2, m3);
    Compose(a + b + c, d, m, m3, m4);
    Compose(a + b + c + d, e, m, m4, m');
    assert LowerInstr(ir, 0) == a + b + c + d + e;
  }

  lemma SameKeys(m: Mem, m': Mem, a: int, n: nat)
    requires m.Keys == m'.Keys && Mapped(m, a, n)
    ensures Mapped(m', a, n)
  { assert forall k :: k in m <==> k in m'; }

  lemma StorePairRefines(ir: IR.IRInst, m: Machine, p: int, regions: seq<MemRegion>) returns (m': Machine)
    requires Inside(m, p) && ir.op.STORE_PAIR? && Denote.Denotable(ir)
    requires Denote.AccessesMapped(ir, Seen(m, p, regions))
    ensures Carries(LowerInstr(ir, 0), m, m', p, regions, Denote.Body(ir, Seen(m, p, regions)))
  {
    hide ContextAt, Outside, Mapped, Reaches, Write64;
    var g := Seen(m, p, regions);
    var disp := AsI32(ir.imm);
    var second := Denote.SecondStored(ir);
    TwoLoads(ir.src1, ir.src2, m, p);
    var m2 := m.Set(RAX, g.ctx.x[ir.src1]).Set(RCX, g.ctx.x[ir.src2]);
    LoadArmReaches(m2, p, second, RDX);
    var m3 := m2.Set(RDX, g.ctx.x[second]);
    var m4 := GuestStoreCarries(m3, p, disp, RCX, regions);
    SameKeys(g.mem, Outside(m4.mem, p), m4.Ea(RAX, Plus8(disp)), 8);
    m' := GuestStoreCarries(m4, p, Plus8(disp), RDX, regions);
    var a, b, c, d := [LoadArm(ir.src1, RAX), LoadArm(ir.src2, RCX)], [LoadArm(second, RDX)],
      [Store(RAX, disp, RCX)], [Store(RAX, Plus8(disp), RDX)];
    Compose(a, b, m, m2, m3);
    Compose(a + b, c, m, m3, m4);
    Compose(a + b + c, d, m, m4, m');
    assert LoadArm(second, RDX) == LoadArm(ir.imm / TWO_32, RDX);
    assert LowerInstr(ir, 0) == a + b + c + d;
  }

  /** Every operation that stays in the block, against its denotation. */
  lemma BodyRefines(ir: IR.IRInst, ft: u64, m: Machine, p: int, regions: seq<MemRegion>) returns (m': Machine)
    requires Inside(m, p) && Denote.Denotable(ir) && !Denote.Exits(ir)
    requires Denote.AccessesMapped(ir, Seen(m, p, regions))
    ensures Carries(LowerInstr(ir, ft), m, m', p, regions, Denote.Body(ir, Seen(m, p, regions)))
  {
    hide ContextAt, Outside, Mapped, Reaches, Write64, Arith, Shift, ShiftResult, Effect1;
    var g := Seen(m, p, regions);
    match ir.op
    case ADD => m' := ArithRefines(AluOp.ADD, ir, m, p, regions);
    case SUB => m' := ArithRefines(AluOp.SUB, ir, m, p, regions);
    case SHL => m' := ShiftRefines(ShiftOp.SHL, ir, m, p, regions);
    case SHR => m' := ShiftRefines(ShiftOp.SHR, ir, m, p, regions);
    case SAR => m' := ShiftRefines(ShiftOp.SAR, ir, m, p, regions);
    case MOV_IMM =>
      MovReaches(HostReg(ir.dest), ir.imm, m);
      m' := PutRefines(MovImm(HostReg(ir.dest), ir.imm), HostReg(ir.dest), ir.dest, m, p, regions, ir.imm);
    case SET_REG =>
      if ir.src1 == IR.IR_NONE {
        MovReaches(RAX, ir.imm, m);
        m' := PutRefines(MovImm(RAX, ir.imm), RAX, ir.dest, m, p, regions, ir.imm);
      } else {
        var h := HostReg(ir.src1);
        LoadArmReaches(m, p, ir.src1, h);
        m' := PutRefines(LoadArm(ir.src1, h), h, ir.dest, m, p, regions, g.ctx.x[ir.src1]);
      }
    case LOAD64 => m' := LoadRefines(ir, m, p, regions);
    case LOAD32 => m' := LoadRefines(ir, m, p, regions);
    case STORE64 => m' := StoreRefines(ir, m, p, regions);
    case STORE32 => m' := StoreRefines(ir, m, p, regions);
    case LOAD_PAIR => m' := LoadPairRefines(ir, m, p, regions);
    case STORE_PAIR => m' := StorePairRefines(ir, m, p, regions);
    case _ =>
      NopReaches(m);
      m' := m;
  }

  lemma MovReaches(x: Reg, v: u64, m: Machine)
    ensures Reaches([MovImm(x, v)], m, m.Set(x, v))
  { One(MovImm(x, v), m, m.Set(x, v)); }

  lemma NopReaches(m: Machine)
    ensures Reaches([Nop], m, m)
  { One(Nop, m, m); }

  // ----- exits and whole blocks -----

  /** Storing a register to the pc slot and returning. */
  lemma ReturnRefines(i: Instr, pc: u64, code: seq<u8>, ip: nat, m: Machine, p: int, regions: seq<MemRegion>)
    returns (m': Machine)
    requires Inside(m, p) && Reaches([i], m, m.Set(RAX, pc))
    requires At(code, ip, EncodeAll([i, Store(R12, PC_OFFSET, RAX), Ret]))
    ensures Run(code, ip, m) == Returned(m') && Inside(m', p)
    ensures var g := Seen(m, p, regions); Seen(m', p, regions) == g.(ctx := g.ctx.(pc := pc))
  {
    hide Encode, Decode, Effect1, Effects, ContextAt, Outside, Mapped, Run, Write64;
    var first := [i] + [Store(R12, PC_OFFSET, RAX)];
    var all := [i, Store(R12, PC_OFFSET, RAX), Ret];
    var m1 := m.Set(RAX, pc);
    m' := m1.(mem := Write64(m1.mem, p + 256, pc));
    StoreCtxStep(m1, p, 32, RAX, regions);
    One(Store(R12, PC_OFFSET, RAX), m1, m');
    Compose([i], [Store(R12, PC_OFFSET, RAX)], m, m1, m');
    EncodeAppend(first, [Ret]);
    assert first + [Ret] == all;
    AtSplit(code, ip, EncodeAll(first), EncodeAll([Ret]));
    RunStraight(code, ip, first, m);
    RetRuns(code, ip + |EncodeAll(first)|, m');
  }

  lemma RetRuns(code: seq<u8>, ip: nat, m: Machine)
    requires At(code, ip, EncodeAll([Ret]))
    ensures Run(code, ip, m) == Returned(m)
  {
    assert EncodeAll([Ret]) == [0xC3];
    AtPrefix(code, ip, [0xC3]);
  }

  lemma DenotableCoded(ir: IR.IRInst)
    requires Denote.Denotable(ir)
    ensures Coded(ir)
  {}

  /** The body of a block from any operation on. */
  lemma {:induction false} TailRefines(
    irs: seq<IR.IRInst>, ft: u64, code: seq<u8>, ip: nat, m: Machine, p: int, regions: seq<MemRegion>)
    returns (m': Machine)
    requires Inside(m, p) && forall ir :: ir in irs ==> Denote.Denotable(ir)
    requires Denote.RunsClean(irs, ft, Seen(m, p, regions))
    requires At(code, ip, TailCode(irs, ft))
    ensures Run(code, ip, m) == Returned(m') && Inside(m', p)
    ensures Seen(m', p, regions) == Denote.Block(irs, ft, Seen(m, p, regions))
    decreases |irs|
  {
    hide Encode, Decode, Effect1, Effects, ContextAt, Outside, Mapped, Denote.Denotable, Denote.Body,
      Denote.AccessesMapped, Emittable, Faithful, Run, At, LowerInstr, EncodeAll, Coded, RawCode;
    if |irs| == 0 {
      MovReaches(RAX, ft, m);
      m' := ReturnRefines(MovImm(RAX, ft), ft, code, ip, m, p, regions);
    } else {
      var h := InstrCode(irs[0], ft);
      DenotableCoded(irs[0]);
      AtSplit(code, ip, h, TailCode(irs[1..], ft));
      if Denote.Exits(irs[0]) {
        m' := ExitRefines(irs[0], ft, code, ip, m, p, regions);
      } else {
        var m1 := BodyRefines(irs[0], ft, m, p, regions);
        RunStraight(code, ip, LowerInstr(irs[0], ft), m);
        m' := TailRefines(irs[1..], ft, code, ip + |h|, m1, p, regions);
      }
    }
  }

  lemma LoadLrReaches(m: Machine, p: int)
    requires Inside(m, p)
    ensures Reaches([Load(RAX, R12, LR_OFFSET)], m, m.Set(RAX, ContextAt(m.mem, p).lr))
  {
    assert m.Ea(R12, LR_OFFSET) == p + 264 && Mapped(m.mem, p + 264, 8);
    One(Load(RAX, R12, LR_OFFSET), m, m.Set(RAX, ContextAt(m.mem, p).lr));
  }

  lemma ExitRefines(ir: IR.IRInst, ft: u64, code: seq<u8>, ip: nat, m: Machine, p: int, regions: seq<MemRegion>)
    returns (m': Machine)
    requires Inside(m, p) && Denote.Exits(ir) && At(code, ip, InstrCode(ir, ft)) && (ir.op.JMP_COND? ==> ir.imm == ft)
    ensures Run(code, ip, m) == Returned(m') && Inside(m', p)
    ensures var g := Seen(m, p, regions); Seen(m', p, regions) == g.(ctx := g.ctx.(pc := Denote.ExitPc(ir, g.ctx)))
  {
    hide Encode, EncodeAll, Run, Effect1, Effects, ContextAt, Outside, Mapped, Reaches;
    if ir.op.RET? {
      var v := ContextAt(m.mem, p).lr;
      LoadLrReaches(m, p);
      m' := ReturnRefines(Load(RAX, R12, LR_OFFSET), v, code, ip, m, p, regions);
    } else if ir.op.JMP_COND? {
      m' := ConditionalRefines(ir, ft, code, ip, m, p, regions);
    } else {
      MovReaches(RAX, ir.imm, m);
      m' := ReturnRefines(MovImm(RAX, ir.imm), ir.imm, code, ip, m, p, regions);
    }
  }

  /** A conditional exit with equal targets. */
  lemma ConditionalRefines(ir: IR.IRInst, ft: u64, code: seq<u8>, ip: nat, m: Machine, p: int, regions: seq<MemRegion>)
    returns (m': Machine)
    requires Inside(m, p) && ir.op.JMP_COND? && ir.imm == ft && At(code, ip, InstrCode(ir, ft))
    ensures Run(code, ip, m) == Returned(m') && Inside(m', p)
    ensures var g := Seen(m, p, regions); Seen(m', p, regions) == g.(ctx := g.ctx.(pc := ft))
  {
    hide Encode, EncodeAll, Run, Effect1, Effects, ContextAt, Outside, Mapped, Reaches, Holds, HostCond, Inverted;
    var cc := Inverted(HostCond(ir.cond));
    InvertedBelow(ir.cond);
    var j := [Jcc(cc, TAKEN_LEN)];
    SplitAt(j + ExitTo(ft), ExitTo(ft), code, ip);
    SplitAt(j, ExitTo(ft), code, ip);
    EncodeAppend(j, ExitTo(ft));
    ExitSize(ft);
    JccLength(cc, TAKEN_LEN);
    JccRuns(cc, TAKEN_LEN, code, ip, m);
    MovReaches(RAX, ft, m);
    m' := ReturnRefines(MovImm(RAX, ft), ft, code, if Holds(cc, m.flags) then ip + 6 + TAKEN_LEN else ip + 6, m, p, regions);
  }

  lemma InvertedBelow(cond: u8)
    ensures Inverted(HostCond(cond)) < 16
  {}

  lemma SplitAt(a: seq<Instr>, b: seq<Instr>, code: seq<u8>, ip: nat)
    requires At(code, ip, EncodeAll(a + b))
    ensures At(code, ip, EncodeAll(a)) && At(code, ip + |EncodeAll(a)|, EncodeAll(b))
  { EncodeAppend(a, b); AtSplit(code, ip, EncodeAll(a), EncodeAll(b)); }

  lemma JccLength(cc: u8, rel: i32)
    ensures |EncodeAll([Jcc(cc, rel)])| == 6
  { assert [Jcc(cc, rel)][1..] == []; }

  lemma JccStep(cc: u8, rel: nat, code: seq<u8>, ip: nat, m: Machine)
    requires rel < 128 && ip + 6 + rel <= |code| && Decode(code[ip..]) == Decoded(Jcc(cc, rel), 6)
    ensures Run(code, ip, m) == Run(code, if Holds(cc, m.flags) then ip + 6 + rel else ip + 6, m)
  { hide Decode, Effect1, Holds; }

  /** A jump forward inside the code. */
  lemma JccRuns(cc: u8, rel: nat, code: seq<u8>, ip: nat, m: Machine)
    requires cc < 16 && rel < 128 && At(code, ip, EncodeAll([Jcc(cc, rel)])) && ip + 6 + rel <= |code|
    ensures Run(code, ip, m) == Run(code, if Holds(cc, m.flags) then ip + 6 + rel else ip + 6, m)
  {
    hide Decode, Effect1, Holds, Run, Le;
    var j := Jcc(cc, rel);
    assert EncodeAll([j]) == Encode(j) + [] by { assert [j][1..] == []; }
    assert |Encode(j)| == 6;
    AtPrefix(code, ip, Encode(j));
    DecodeEncode(j, code[ip..]);
    JccStep(cc, rel, code, ip, m);
  }

  /** A whole block, entered as the C++ caller does with the context pointer in RDI. */
  lemma BlockRefines(irs: seq<IR.IRInst>, ft: u64, code: seq<u8>, m: Machine, p: int, regions: seq<MemRegion>)
    returns (m': Machine)
    requires m.regs[RDI] == p && Inside(m.Set(R12, p), p) && At(code, 0, BlockCode(irs, ft))
    requires forall ir :: ir in irs ==> Denote.Denotable(ir)
    requires Denote.RunsClean(irs, ft, ViewAt(m.mem, p, regions))
    ensures Run(code, 0, m) == Returned(m') && Inside(m', p)
    ensures ViewAt(m'.mem, p, regions) == Denote.Block(irs, ft, ViewAt(m.mem, p, regions))
  {
    hide Encode, Decode, Effects, ContextAt, Outside, Mapped, Denote.Denotable, Denote.Body,
      Denote.AccessesMapped, Denote.RunsClean, Denote.Block, Emittable, Run, At, TailCode, Effect1;
    var i := Alu(MOV, R12, RDI);
    PrologueReaches(m);
    AtSplit(code, 0, Encode(i), TailCode(irs, ft));
    assert EncodeAll([i]) == Encode(i) by { assert [i][1..] == []; assert Encode(i) + [] == Encode(i); }
    RunStraight(code, 0, [i], m);
    m' := TailRefines(irs, ft, code, |Encode(i)|, m.Set(R12, p), p, regions);
  }

  lemma PrologueReaches(m: Machine)
    ensures Reaches([Alu(MOV, R12, RDI)], m, m.Set(R12, m.regs[RDI]))
  { One(Alu(MOV, R12, RDI), m, m.Set(R12, m.regs[RDI])); }
}
