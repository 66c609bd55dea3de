/** Emitted code keeps control: where every lowered block goes, from every entry state. */
module ControlFlow {
  import opened Words
  import opened X86
  import opened Emitter
  import opened Lower
  import opened Refine
  import opened Lowering
  import opened Steps
  import Decoder
  import CodeSize
  import FlagMerging
  import IR

  // ----- the way through a block -----

  /** The index of the first control transfer, or the end. */
  function Stop(irs: seq<IR.IRInst>): (n: nat)
    ensures n <= |irs| && (n < |irs| ==> !FallsThrough(irs[n])) && forall i :: 0 <= i < n ==> FallsThrough(irs[i])
  { if |irs| == 0 || !FallsThrough(irs[0]) then 0 else 1 + Stop(irs[1..]) }

  /** The machine behind one operation; a fault leaves it where it is. */
  function StepM(ir: IR.IRInst, m: Machine): Machine
    requires FallsThrough(ir)
  { match OpEffect(ir, m) case Fault => m case Done(m') => m' }

  /** The machine in front of operation `k`. */
  function Before(irs: seq<IR.IRInst>, k: nat, m: Machine): Machine
    requires k <= Stop(irs)
    decreases k
  { if k == 0 then m else Before(irs[1..], k - 1, StepM(irs[0], m)) }

  /** Every access made on the way through the block is mapped: those of each operation in the state it
      is reached in, and at the end the pc slot and, for RET, the lr slot. */
  predicate BlockMapped(irs: seq<IR.IRInst>, m: Machine)
  {
    && (forall k :: 0 <= k < Stop(irs) ==> OpMapped(irs[k], Before(irs, k, m)))
    && ExitMapped(irs, Before(irs, Stop(irs), m))
  }

  predicate Returns(irs: seq<IR.IRInst>) { Stop(irs) < |irs| && irs[Stop(irs)].op.RET? }

  predicate ExitMapped(irs: seq<IR.IRInst>, m: Machine)
  { CtxMapped(m, PC_OFFSET) && (Returns(irs) ==> CtxMapped(m, LR_OFFSET)) }

  /** The lr slot of the context. */
  function LrWord(m: Machine): u64 { if CtxMapped(m, LR_OFFSET) then Read64(m.mem, m.Ea(R12, LR_OFFSET)) else 0 }

  /** Where the block leaves to, in the machine at its exit. */
  function ExitPc(irs: seq<IR.IRInst>, ft: u64, m: Machine): u64
  {
    if Stop(irs) == |irs| then ft else
    var ir := irs[Stop(irs)];
    if ir.op.RET? then LrWord(m)
    else if ir.op.JMP_COND? then (if Holds(HostCond(ir.cond), m.flags) then ir.imm else ft)
    else ir.imm
  }

  /** The machine an exit returns in. */
  function Exited(m: Machine, pc: u64): Machine
  { m.Set(RAX, pc).(mem := Write64(m.mem, m.Ea(R12, PC_OFFSET), pc)) }

  // ----- exits -----

  /** `i` puts `pc` into RAX, or faults, as `ok` says. */
  predicate Puts(i: Instr, m: Machine, pc: u64, ok: bool)
  {
    !i.Ret? && !i.Jcc? && Emittable(i) && Faithful(i) && Effect1(i, m) == if ok then Done(m.Set(RAX, pc)) else Fault
  }

  lemma PcStore(m: Machine)
    ensures Effect1(Store(R12, PC_OFFSET, RAX), m) ==
            if CtxMapped(m, PC_OFFSET) then Done(m.(mem := Write64(m.mem, m.Ea(R12, PC_OFFSET), m.regs[RAX]))) else Fault
  {}

  lemma ExitEffects(i: Instr, m: Machine, pc: u64, ok: bool)
    requires Puts(i, m, pc, ok)
    ensures var list := [i] + [Store(R12, PC_OFFSET, RAX)];
            Straight(list) && Clean(list) &&
            Effects(list, m) == if ok && CtxMapped(m, PC_OFFSET) then Done(Exited(m, pc)) else Fault
  {
    hide Effects, Effect1, Mapped, Write64;
    var store := Store(R12, PC_OFFSET, RAX);
    OneEffect(i, m);
    EffectsSplit([i], [store], m);
    if ok {
      var m1 := m.Set(RAX, pc);
      OneEffect(store, m1);
      PcStore(m1);
      assert m1.Ea(R12, PC_OFFSET) == m.Ea(R12, PC_OFFSET);
    }
  }

  /** `i` puts `pc` into RAX; then the pc slot is written and the code returns. */
  lemma ExitRuns(i: Instr, code: seq<u8>, ip: nat, m: Machine, pc: u64, ok: bool)
    requires Puts(i, m, pc, ok)
    requires At(code, ip, EncodeAll([i, Store(R12, PC_OFFSET, RAX), Ret]))
    ensures Run(code, ip, m) == if ok && CtxMapped(m, PC_OFFSET) then Returned(Exited(m, pc)) else MemFault
  {
    hide Encode, EncodeAll, Effects, Effect1, Run, At, Puts, Exited, CtxMapped;
    var store := Store(R12, PC_OFFSET, RAX);
    var list := [i] + [store];
    assert [i, store, Ret] == list + [Ret];
    SplitAt(list, [Ret], code, ip);
    ExitEffects(i, m, pc, ok);
    RunStraight(code, ip, list, m);
    if Effects(list, m).Done? { RetRuns(code, ip + |EncodeAll(list)|, Effects(list, m).m); }
  }

  lemma MovPuts(pc: u64, m: Machine)
    ensures Puts(MovImm(RAX, pc), m, pc, true)
  {}

  lemma RetPuts(m: Machine)
    ensures Puts(Load(RAX, R12, LR_OFFSET), m, LrWord(m), CtxMapped(m, LR_OFFSET))
  {}

  /** The jump of a conditional exit lands on the first byte of the fall-through exit, and the pc slot is
      the only access: mapped, the code returns with the right pc in it. */
  lemma ConditionalRuns(cc: u8, taken: u64, ft: u64, code: seq<u8>, ip: nat, m: Machine)
    requires cc < 16 && At(code, ip, EncodeAll([Jcc(cc, TAKEN_LEN)] + ExitTo(taken) + ExitTo(ft)))
    ensures Run(code, ip, m) ==
            if CtxMapped(m, PC_OFFSET) then Returned(Exited(m, if Holds(cc, m.flags) then ft else taken)) else MemFault
  {
    hide Holds, Encode, EncodeAll, Run, Puts, Exited, CtxMapped;
    var j := [Jcc(cc, TAKEN_LEN)];
    SplitAt(j + ExitTo(taken), ExitTo(ft), code, ip);
    SplitAt(j, ExitTo(taken), code, ip);
    EncodeAppend(j, ExitTo(taken));
    ExitSize(taken);
    JccLength(cc, TAKEN_LEN);
    JccRuns(cc, TAKEN_LEN, code, ip, m);
    MovPuts(taken, m);
    MovPuts(ft, m);
    hide At;
    ExitRuns(MovImm(RAX, taken), code, ip + 6, m, taken, true);
    ExitRuns(MovImm(RAX, ft), code, ip + 6 + TAKEN_LEN, m, ft, true);
  }

  /** `cc ^ 1` decides the jump over the taken exit. */
  lemma Decides(cond: u8, f: Flags)
    ensures Holds(Inverted(HostCond(cond)), f) == !Holds(HostCond(cond), f) && Inverted(HostCond(cond)) < 16
  {}

  lemma StopHere(irs: seq<IR.IRInst>)
    requires |irs| > 0 && !FallsThrough(irs[0])
    ensures Stop(irs) == 0
  {}

  /** A control transfer, from the first byte of its code. */
  lemma TransferRuns(irs: seq<IR.IRInst>, ft: u64, code: seq<u8>, ip: nat, m: Machine)
    requires |irs| > 0 && !FallsThrough(irs[0]) && At(code, ip, InstrCode(irs[0], ft))
    ensures Run(code, ip, m) == if ExitMapped(irs, m) then Returned(Exited(m, ExitPc(irs, ft, m))) else MemFault
  {
    hide Encode, EncodeAll, Run, At, Puts, Exited, CtxMapped, LrWord, Holds, HostCond, Inverted, Stop;
    StopHere(irs);
    var ir := irs[0];
    if ir.op.RET? {
      RetPuts(m);
      ExitRuns(Load(RAX, R12, LR_OFFSET), code, ip, m, LrWord(m), CtxMapped(m, LR_OFFSET));
    } else if ir.op.JMP_COND? {
      Decides(ir.cond, m.flags);
      ConditionalRuns(Inverted(HostCond(ir.cond)), ir.imm, ft, code, ip, m);
    } else {
      MovPuts(ir.imm, m);
      ExitRuns(MovImm(RAX, ir.imm), code, ip, m, ir.imm, true);
    }
  }

  // ----- whole blocks -----

  /** The code of an operation behaves as `OpEffect` says. */
  lemma OpCode(ir: IR.IRInst, ft: u64, code: seq<u8>, ip: nat, m: Machine)
    requires FallsThrough(ir) && Coded(ir) && At(code, ip, InstrCode(ir, ft))
    ensures Run(code, ip, m) == match OpEffect(ir, m)
                                case Fault => MemFault
                                case Done(m') => Run(code, ip + |InstrCode(ir, ft)|, m')
  {
    hide Encode, EncodeAll, Run, At, Effects, Meanings, Coded, RawCode;
    assert LowerInstr(ir, ft) == LowerInstr(ir, 0);
    hide LowerInstr;
    OpStraight(ir);
    RunMeaning(code, ip, LowerInstr(ir, 0), m);
  }

  /** The outcome of running a block. */
  function BlockOutcome(irs: seq<IR.IRInst>, ft: u64, m: Machine): Outcome
  {
    if BlockMapped(irs, m) then
      var last := Before(irs, Stop(irs), m);
      Returned(Exited(last, ExitPc(irs, ft, last)))
    else MemFault
  }

  lemma OutcomeStep(irs: seq<IR.IRInst>, ft: u64, m: Machine)
    requires |irs| > 0 && FallsThrough(irs[0])
    ensures BlockOutcome(irs, ft, m) ==
            match OpEffect(irs[0], m) case Fault => MemFault case Done(m') => BlockOutcome(irs[1..], ft, m')
  {
    hide OpEffect, OpMapped, Exited, CtxMapped, Holds, HostCond, Read64, FallsThrough, Held;
    var rest, n := irs[1..], Stop(irs);
    OpRuns(irs[0], m);
    assert n == 1 + Stop(rest);
    assert Before(irs, 0, m) == m;
    if OpEffect(irs[0], m).Done? {
      var m1 := OpEffect(irs[0], m).m;
      assert StepM(irs[0], m) == m1;
      forall k | 0 <= k <= Stop(rest) ensures Before(irs, k + 1, m) == Before(rest, k, m1) {}
      assert ExitMapped(irs, Before(irs, n, m)) == ExitMapped(rest, Before(rest, n - 1, m1));
      if BlockMapped(irs, m) {
        forall k | 0 <= k < Stop(rest) ensures OpMapped(rest[k], Before(rest, k, m1)) {
          assert OpMapped(irs[k + 1], Before(irs, k + 1, m)) && irs[k + 1] == rest[k];
        }
      }
      if BlockMapped(rest, m1) {
        forall k | 0 <= k < n ensures OpMapped(irs[k], Before(irs, k, m)) {
          if k > 0 { assert OpMapped(rest[k - 1], Before(rest, k - 1, m1)) && irs[k] == rest[k - 1]; }
        }
      }
    } else {
      assert !OpMapped(irs[0], Before(irs, 0, m));
    }
  }

  lemma {:induction false} TailRuns(irs: seq<IR.IRInst>, ft: u64, code: seq<u8>, ip: nat, m: Machine)
    requires At(code, ip, TailCode(irs, ft)) && forall ir :: ir in irs ==> Coded(ir)
    ensures Run(code, ip, m) == BlockOutcome(irs, ft, m)
    decreases |irs|
  {
    hide Encode, EncodeAll, Run, At, OpEffect, Coded, InstrCode, ExitMapped, Exited;
    if |irs| == 0 {
      NilRuns(ft, code, ip, m);
    } else {
      AtSplit(code, ip, InstrCode(irs[0], ft), TailCode(irs[1..], ft));
      if FallsThrough(irs[0]) {
        OpCode(irs[0], ft, code, ip, m);
        OutcomeStep(irs, ft, m);
        if OpEffect(irs[0], m).Done? {
          TailRuns(irs[1..], ft, code, ip + |InstrCode(irs[0], ft)|, OpEffect(irs[0], m).m);
        }
      } else {
        StopHere(irs);
        TransferRuns(irs, ft, code, ip, m);
      }
    }
  }

  lemma NilRuns(ft: u64, code: seq<u8>, ip: nat, m: Machine)
    requires At(code, ip, EncodeAll(ExitTo(ft)))
    ensures Run(code, ip, m) == BlockOutcome([], ft, m)
  {
    hide Run, At, EncodeAll, Puts, CtxMapped, Exited;
    MovPuts(ft, m);
    ExitRuns(MovImm(RAX, ft), code, ip, m, ft, true);
  }

  lemma PrologueFacts(m: Machine)
    ensures var list := [Alu(MOV, R12, RDI)]; Straight(list) && Clean(list) && Effects(list, m) == Done(m.Set(R12, m.regs[RDI]))
  { PrologueReaches(m); }

  /** Where a block goes, for every IR block, every fall-through pc and every entry state with the context
      pointer in RDI: if every access on the way is mapped, the bytes run to a `ret`, with the pc of the
      first transfer in the pc slot; otherwise they fault on the first access that is not. They never
      meet undefined bytes, leave the buffer or jump backwards. */
  lemma BlockRuns(irs: seq<IR.IRInst>, ft: u64, code: seq<u8>, m: Machine)
    requires At(code, 0, BlockCode(irs, ft)) && forall ir :: ir in irs ==> Coded(ir)
    ensures Run(code, 0, m) == BlockOutcome(irs, ft, m.Set(R12, m.regs[RDI]))
  {
    hide Encode, Decode, Effects, Run, At, TailCode, Effect1, BlockOutcome, Coded;
    var i := Alu(MOV, R12, RDI);
    PrologueFacts(m);
    AtSplit(code, 0, Encode(i), TailCode(irs, ft));
    assert EncodeAll([i]) == Encode(i) by { assert [i][1..] == []; assert Encode(i) + [] == Encode(i); }
    RunStraight(code, 0, [i], m);
    TailRuns(irs, ft, code, |Encode(i)|, m.Set(R12, m.regs[RDI]));
  }

  // ----- what a caller gets -----

  /** The pcs a block may leave to: its first control transfer decides. */
  predicate LegalExit(irs: seq<IR.IRInst>, ft: u64, pc: u64)
  {
    var n := Stop(irs);
    if n == |irs| then pc == ft
    else if irs[n].op.RET? then true
    else pc == irs[n].imm || (irs[n].op.JMP_COND? && pc == ft)
  }

  /** `o` is a `ret` with RSP as in `m`, the context pointer in R12 and `pc` in the pc slot. */
  predicate ReturnsTo(o: Outcome, m: Machine, pc: u64)
  {
    && o.Returned? && o.m.regs[RSP] == m.regs[RSP] && o.m.regs[R12] == m.regs[R12] && o.m.mem.Keys == m.mem.Keys
    && CtxMapped(o.m, PC_OFFSET) && Read64(o.m.mem, o.m.Ea(R12, PC_OFFSET)) == pc
  }

  lemma {:induction false} BeforeHeld(irs: seq<IR.IRInst>, k: nat, m: Machine)
    requires k <= Stop(irs) && forall i :: 0 <= i < k ==> OpMapped(irs[i], Before(irs, i, m))
    ensures Held(CONTEXT, m, Before(irs, k, m))
    decreases k
  {
    hide OpEffect, OpMapped, Held, FallsThrough;
    if k == 0 {
      HeldSelf(CONTEXT, m);
    } else {
      var m1 := StepM(irs[0], m);
      assert Before(irs, 0, m) == m;
      OpRuns(irs[0], m);
      assert Stop(irs) == 1 + Stop(irs[1..]);
      forall i | 0 <= i < k - 1 ensures OpMapped(irs[1..][i], Before(irs[1..], i, m1)) {
        assert Before(irs, i + 1, m) == Before(irs[1..], i, m1) && irs[i + 1] == irs[1..][i];
      }
      BeforeHeld(irs[1..], k - 1, m1);
      HeldTwice(CONTEXT, m, m1, Before(irs, k, m));
    }
  }

  lemma ExitedReturns(m: Machine, pc: u64)
    requires CtxMapped(m, PC_OFFSET)
    ensures ReturnsTo(Returned(Exited(m, pc)), m, pc)
  {
    hide UnLe, Le;
    ReadBack(m.mem, m.Ea(R12, PC_OFFSET), pc);
    SameKeys(m.mem, Exited(m, pc).mem, m.Ea(R12, PC_OFFSET), 8);
  }

  /** Control-flow safety: running the bytes of any block returns if and only if every access on the way
      is mapped, and faults on a data access otherwise; when it returns, RSP is as on entry, R12 holds
      the context pointer, and the pc slot the pc of the first transfer, a legal one. */
  lemma BlockSafe(irs: seq<IR.IRInst>, ft: u64, code: seq<u8>, m: Machine)
    requires At(code, 0, BlockCode(irs, ft)) && forall ir :: ir in irs ==> Coded(ir)
    ensures var m0 := m.Set(R12, m.regs[RDI]); var o := Run(code, 0, m);
            if BlockMapped(irs, m0) then
              var pc := ExitPc(irs, ft, Before(irs, Stop(irs), m0));
              ReturnsTo(o, m0, pc) && LegalExit(irs, ft, pc)
            else o.MemFault?
  {
    hide Run, At, BlockCode, Coded, OpMapped, OpEffect, Exited, Before, Stop, ReturnsTo, CtxMapped;
    BlockRuns(irs, ft, code, m);
    var m0 := m.Set(R12, m.regs[RDI]);
    if BlockMapped(irs, m0) {
      var last := Before(irs, Stop(irs), m0);
      BeforeHeld(irs, Stop(irs), m0);
      ExitedReturns(last, ExitPc(irs, ft, last));
      ReturnsHeld(Returned(Exited(last, ExitPc(irs, ft, last))), m0, last, ExitPc(irs, ft, last));
      ExitLegal(irs, ft, last);
    }
  }

  lemma ReturnsHeld(o: Outcome, m: Machine, last: Machine, pc: u64)
    requires Held(CONTEXT, m, last) && ReturnsTo(o, last, pc)
    ensures ReturnsTo(o, m, pc)
  {}

  lemma ExitLegal(irs: seq<IR.IRInst>, ft: u64, m: Machine)
    ensures LegalExit(irs, ft, ExitPc(irs, ft, m))
  { hide Holds, HostCond, LrWord; }

  // ----- blocks of decoded instructions -----

  /** Register numbers as the builder makes them. */
  predicate Regular(ir: IR.IRInst)
  {
    && ir.dest < 32 && ir.src1 < 32
    && (ir.src2 < 32 || (ir.src2 == IR.IR_IMM && ir.op in {IR.ADD, IR.SUB, IR.SHL, IR.SHR, IR.SAR}))
  }

  /** The accesses outside the context: the guest addresses of a memory operation and, for STP with a
      negative offset, the eight bytes 2040 behind the context pointer, which stand for "register 255". */
  predicate GuestMapped(ir: IR.IRInst, m: Machine)
  {
    IsMemory(ir) && SlotMapped(m, ir.src1) ==>
      && Mapped(m.mem, GuestAddr(ir, m, AsI32(ir.imm)), 8)
      && (ir.op in {IR.LOAD_PAIR, IR.STORE_PAIR} ==> Mapped(m.mem, GuestAddr(ir, m, Plus8(AsI32(ir.imm))), 8))
      && (ir.op.STORE_PAIR? ==> SlotMapped(m, ir.imm / TWO_32))
  }

  /** The guest accesses along the run are mapped. */
  predicate GuestAccesses(irs: seq<IR.IRInst>, m: Machine)
  { forall k :: 0 <= k < Stop(irs) ==> GuestMapped(irs[k], Before(irs, k, m)) }

  lemma ContextSlots(m: Machine, p: int)
    requires Inside(m, p)
    ensures forall disp: i32 :: 0 <= disp <= 824 ==> CtxMapped(m, disp)
  {}

  lemma RegularSlots(m: Machine, p: int)
    requires Inside(m, p)
    ensures forall r: int :: 0 <= r < 32 ==> SlotMapped(m, r)
  { ContextSlots(m, p); hide CtxMapped; }

  lemma RegularMapped(ir: IR.IRInst, m: Machine, p: int)
    requires FallsThrough(ir) && Regular(ir) && Inside(m, p) && Mapped(m.mem, Pushed(m), 8) && GuestMapped(ir, m)
    ensures OpMapped(ir, m)
  {
    RegularSlots(m, p);
    ContextSlots(m, p);
    hide CtxMapped, Mapped, Slot, SlotMapped, Read64;
  }

  lemma HeldInside(m: Machine, m': Machine, p: int)
    requires Inside(m, p) && Held(CONTEXT, m, m')
    ensures Inside(m', p)
  { SameKeys(m.mem, m'.mem, p, 832); }

  lemma {:induction false} RegularBlockMapped(irs: seq<IR.IRInst>, k: nat, m: Machine, p: int)
    requires (forall ir :: ir in irs ==> Regular(ir)) && GuestAccesses(irs, m) && k <= Stop(irs)
    requires Inside(m, p) && Mapped(m.mem, Pushed(m), 8)
    ensures forall i :: 0 <= i < k ==> OpMapped(irs[i], Before(irs, i, m))
    decreases k
  {
    hide OpMapped, Held, FallsThrough, Before, Inside, Mapped, Pushed, GuestMapped, Regular;
    if k > 0 {
      RegularBlockMapped(irs, k - 1, m, p);
      BeforeHeld(irs, k - 1, m);
      var mk := Before(irs, k - 1, m);
      HeldInside(m, mk, p);
      HeldPush(CONTEXT, m, mk);
      assert irs[k - 1] in irs;
      RegularMapped(irs[k - 1], mk, p);
    }
  }

  lemma RegularExit(irs: seq<IR.IRInst>, m: Machine, p: int)
    requires Inside(m, p)
    ensures ExitMapped(irs, m)
  { ContextSlots(m, p); hide CtxMapped; }

  /** With the context and the stack word below RSP mapped, the guest accesses are all that is left. */
  lemma RegularBlock(irs: seq<IR.IRInst>, m: Machine, p: int)
    requires (forall ir :: ir in irs ==> Regular(ir)) && GuestAccesses(irs, m)
    requires Inside(m, p) && Mapped(m.mem, Pushed(m), 8)
    ensures BlockMapped(irs, m)
  {
    hide OpMapped, Held, Before, Inside, Mapped, Pushed, GuestAccesses, ExitMapped, Regular;
    RegularBlockMapped(irs, Stop(irs), m, p);
    BeforeHeld(irs, Stop(irs), m);
    HeldInside(m, Before(irs, Stop(irs), m), p);
    RegularExit(irs, Before(irs, Stop(irs), m), p);
  }

  lemma BuiltRegular(d: Decoder.DecodedInstr, pc: u64)
    requires Decoder.DecoderShaped(d)
    ensures forall ir :: ir in IR.BuildInstr(d, pc) ==> Regular(ir)
  {}

  lemma {:induction false} BuiltListRegular(ds: seq<Decoder.DecodedInstr>, pc: u64)
    requires forall d :: d in ds ==> Decoder.DecoderShaped(d)
    ensures forall ir :: ir in IR.BuildList(ds, pc) ==> Regular(ir)
    decreases |ds|
  {
    hide IR.BuildInstr, Regular, Decoder.DecoderShaped;
    if |ds| > 0 {
      BuiltRegular(ds[0], pc);
      BuiltListRegular(ds[1..], U64(pc + 4));
    }
  }

  lemma MergedRegular(irs: seq<IR.IRInst>)
    requires forall ir :: ir in irs ==> Regular(ir)
    ensures forall ir :: ir in FlagMerging.Merged(irs) ==> Regular(ir)
  {
    var r := FlagMerging.Merged(irs);
    forall i | 0 <= i < |irs| ensures Regular(r[i]) { assert irs[i] in irs; }
  }

  /** Every block `translate_block` can make of decoded instructions: with the context, the stack word
      and the guest accesses along the run mapped, its bytes reach a `ret` with RSP and R12 right and
      the pc slot written. */
  lemma TranslationReturns(ds: seq<Decoder.DecodedInstr>, pc: u64, ft: u64, code: seq<u8>, m: Machine, p: int)
    requires CodeSize.StraightRun(ds) && At(code, 0, BlockCode(FlagMerging.Merged(IR.BuildList(ds, pc)), ft))
    requires m.regs[RDI] == p && Inside(m.Set(R12, p), p) && Mapped(m.mem, Pushed(m), 8)
    requires GuestAccesses(FlagMerging.Merged(IR.BuildList(ds, pc)), m.Set(R12, p))
    ensures var irs := FlagMerging.Merged(IR.BuildList(ds, pc));
            var exit := ExitPc(irs, ft, Before(irs, Stop(irs), m.Set(R12, p)));
            ReturnsTo(Run(code, 0, m), m.Set(R12, p), exit) && LegalExit(irs, ft, exit)
  {
    hide OpMapped, Before, Inside, Mapped, GuestAccesses, BlockMapped, Regular, Coded, FlagMerging.Merged,
      IR.BuildList, Run, At, BlockCode, ReturnsTo, LegalExit, ExitPc, Stop;
    var built := IR.BuildList(ds, pc);
    BuiltListRegular(ds, pc);
    MergedRegular(built);
    CodeSize.BuiltBodies(ds, pc);
    FlagMerging.BuiltListMarks(ds, pc);
    CodeSize.MergedKeeps(built);
    RegularBlock(FlagMerging.Merged(built), m.Set(R12, p), p);
    BlockSafe(FlagMerging.Merged(built), ft, code, m);
  }
}
