/** Blocks whose code is larger than their slot: `lower_block` drops what does not fit, and the block is
    cached and called all the same (src/backend/x86_64_emitter.cpp:14-16, src/core/exec_engine.cpp:319-326). */
module Clipped {
  import opened Words
  import opened X86
  import opened Emitter
  import opened Lower
  import opened Lowering
  import opened Refine
  import opened Steps
  import opened ControlFlow
  import opened CodeSize
  import Decoder
  import FlagMerging
  import IR

  // ----- cut off in the middle -----

  /** Bytes cut off inside an instruction are no instruction. */
  lemma Truncated(i: Instr, k: nat)
    requires Emittable(i) && k < |Encode(i)|
    ensures Decode(Encode(i)[..k]).Undefined?
  {
    var s := Encode(i)[..k];
    if i.Load? || i.Store? { TruncatedMem(i, k); }
    else if k > 0 && (i.MovImm? || i.Alu? || i.AluImm? || i.ShiftImm?) {
      assert s[0] == Encode(i)[0];
      if k > 1 { assert s[1] == Encode(i)[1]; }
      if k > 2 { assert s[2] == Encode(i)[2]; }
    }
  }

  lemma TruncatedMem(i: Instr, k: nat)
    requires (i.Load? || i.Store?) && k < |Encode(i)|
    ensures Decode(Encode(i)[..k]).Undefined?
  {
    var s := Encode(i)[..k];
    var reg, base, disp := i.reg, i.base, i.disp;
    if k > 0 {
      RexFields(reg / 8, base / 8);
      assert s[0] == Rex(reg / 8, base / 8);
      if k > 1 {
        assert s[1..][0] == Encode(i)[1] && s[1..][1..] == ModMem(reg, base, disp)[..k - 2];
        TruncatedOperand(reg, base, disp, k - 2, base / 8);
        hide ModMem, DecodeOperand, Rex;
      }
    }
  }

  lemma TruncatedOperand(reg: Reg, base: Reg, disp: i32, k: nat, b: int)
    requires k < |ModMem(reg, base, disp)| && 0 <= b <= 1
    ensures DecodeOperand(ModMem(reg, base, disp)[..k], b).NoOperand?
  {
    var mod := if disp == 0 then 0 else if -128 <= disp <= 127 then 1 else 2;
    var s := ModMem(reg, base, disp);
    assert ModHead(mod, reg, base) <= s;
    ModRmFields(mod, reg % 8, base % 8);
    hide ModMem, ModRm, Le;
    if k > 0 {
      assert s[..k][0] == ModRm(mod, reg % 8, base % 8);
      if base % 8 == 4 && k > 1 { assert s[..k][1] == 0x24; }
    }
  }

  /** `code` ends after the first `k` bytes of `e`, which start at `ip`. */
  predicate CutAt(code: seq<u8>, ip: nat, e: seq<u8>, k: nat)
  { k <= |e| && ip + k == |code| && code[ip..] == e[..k] }

  lemma CutSplit(code: seq<u8>, ip: nat, a: seq<u8>, b: seq<u8>, k: nat)
    requires CutAt(code, ip, a + b, k)
    ensures k >= |a| ==> At(code, ip, a) && CutAt(code, ip + |a|, b, k - |a|)
    ensures k <= |a| ==> CutAt(code, ip, a, k)
  {
    var e := a + b;
    if k >= |a| {
      assert code[ip..ip + |a|] == code[ip..][..|a|] == e[..k][..|a|] == a;
      assert code[ip + |a|..] == code[ip..][|a|..] == e[..k][|a|..] == b[..k - |a|];
    }
    if k <= |a| { assert e[..k] == a[..k]; }
  }

  /** The run ended outside the code, or faulted on the way if `ok` does not hold. */
  predicate RunsOut(o: Outcome, ok: bool) { !o.Returned? && (ok ==> o.Wild?) }

  lemma EndRuns(code: seq<u8>, m: Machine)
    ensures Run(code, |code|, m) == Wild
  { assert code[|code|..] == []; }

  lemma CutInside(i: Instr, code: seq<u8>, ip: nat, k: nat, m: Machine)
    requires Emittable(i) && CutAt(code, ip, Encode(i), k) && k < |Encode(i)|
    ensures Run(code, ip, m) == Wild
  {
    hide Encode, Decode, Effect1, Holds;
    Truncated(i, k);
  }

  /** Straight-line code that is cut off runs out of the window. */
  lemma {:induction false} CutRuns(list: seq<Instr>, code: seq<u8>, ip: nat, k: nat, m: Machine)
    requires (forall i :: i in list ==> Emittable(i) && !RipSlip(i)) && Straight(list) && Straight(Meanings(list))
    requires CutAt(code, ip, EncodeAll(list), k)
    ensures RunsOut(Run(code, ip, m), Effects(Meanings(list), m).Done?)
    decreases |list|
  {
    hide Encode, Decode, Effect1, Meaning, Run, CutAt, At;
    if |list| == 0 {
      assert ip == |code| by { CutEnd(code, ip, k); }
      EndRuns(code, m);
    } else {
      var i, rest, e := list[0], list[1..], Encode(list[0]);
      CutSplit(code, ip, e, EncodeAll(rest), k);
      assert Meanings(list)[0] == Meaning(i) && Meanings(list)[1..] == Meanings(rest);
      if k < |e| {
        CutInside(i, code, ip, k, m);
      } else {
        OneRuns(i, code, ip, m);
        if Effect1(Meaning(i), m).Done? { CutRuns(rest, code, ip + |e|, k - |e|, Effect1(Meaning(i), m).m); }
      }
    }
  }

  lemma CutEnd(code: seq<u8>, ip: nat, k: nat)
    requires CutAt(code, ip, [], k)
    ensures ip == |code|
  {}

  lemma OneRuns(i: Instr, code: seq<u8>, ip: nat, m: Machine)
    requires Emittable(i) && !RipSlip(i) && Straight([i]) && Straight([Meaning(i)]) && At(code, ip, Encode(i))
    ensures !Meaning(i).Ret? && !Meaning(i).Jcc?
    ensures Run(code, ip, m) ==
            match Effect1(Meaning(i), m) case Fault => MemFault case Done(m') => Run(code, ip + |Encode(i)|, m')
  {
    hide Encode, Effect1, Run, Meaning;
    assert EncodeAll([i]) == Encode(i) by { assert [i][1..] == []; assert Encode(i) + [] == Encode(i); }
    assert Meanings([i]) == [Meaning(i)];
    RunMeaning(code, ip, [i], m);
    OneEffect(Meaning(i), m);
  }

  // ----- exits -----

  /** An exit that is cut off anywhere in front of its end. */
  lemma CutExit(i: Instr, code: seq<u8>, ip: nat, k: nat, m: Machine, pc: u64, ok: bool)
    requires Puts(i, m, pc, ok) && !RipSlip(i)
    requires CutAt(code, ip, EncodeAll([i, Store(R12, PC_OFFSET, RAX), Ret]), k)
    requires k < |EncodeAll([i, Store(R12, PC_OFFSET, RAX), Ret])|
    ensures RunsOut(Run(code, ip, m), ok && CtxMapped(m, PC_OFFSET))
  {
    hide Encode, Effects, Effect1, Run, CutAt, At, Exited, CtxMapped, Meaning;
    var store := Store(R12, PC_OFFSET, RAX);
    var list := [i] + [store];
    assert [i, store, Ret] == list + [Ret];
    EncodeAppend(list, [Ret]);
    OneByte();
    Single(Ret);
    hide EncodeAll;
    CutSplit(code, ip, EncodeAll(list), EncodeAll([Ret]), k);
    ExitEffects(i, m, pc, ok);
    ExitMeaning(i, m, pc, ok);
    hide Puts;
    CutRuns(list, code, ip, k, m);
  }

  lemma ExitMeaning(i: Instr, m: Machine, pc: u64, ok: bool)
    requires Puts(i, m, pc, ok) && !RipSlip(i)
    ensures var list := [i] + [Store(R12, PC_OFFSET, RAX)]; Meanings(list) == list && forall j :: j in list ==> Emittable(j) && !RipSlip(j)
  {
    hide Effect1;
    FaithfulMeaning(i);
    FaithfulMeaning(Store(R12, PC_OFFSET, RAX));
    hide Meaning;
  }

  /** The bytes of an exit to `pc` from `ip` on, in a window that ends `k` bytes behind `ip`. */
  lemma WindowExit(pc: u64, code: seq<u8>, ip: nat, k: nat, m: Machine)
    requires if TAKEN_LEN <= k then At(code, ip, EncodeAll(ExitTo(pc))) else CutAt(code, ip, EncodeAll(ExitTo(pc)), k)
    ensures if TAKEN_LEN <= k then Run(code, ip, m) == (if CtxMapped(m, PC_OFFSET) then Returned(Exited(m, pc)) else MemFault)
            else RunsOut(Run(code, ip, m), CtxMapped(m, PC_OFFSET))
  {
    hide Encode, EncodeAll, Run, Puts, Exited, CtxMapped;
    ExitSize(pc);
    MovPuts(pc, m);
    if k < TAKEN_LEN {
      CutExit(MovImm(RAX, pc), code, ip, k, m, pc, true);
    } else {
      ExitRuns(MovImm(RAX, pc), code, ip, m, pc, true);
    }
  }

  lemma WholeCut(code: seq<u8>, ip: nat, e: seq<u8>)
    requires CutAt(code, ip, e, |e|)
    ensures At(code, ip, e)
  { assert e[..|e|] == e; }

  // ----- blocks -----

  /** The number of bytes from the first operation to the end of the exit the block leaves by: the taken exit
      of a conditional one lies in front of the other. */
  function PathLength(irs: seq<IR.IRInst>, ft: u64, m: Machine): nat
    decreases |irs|
  {
    if |irs| == 0 then TAKEN_LEN
    else if FallsThrough(irs[0]) then |InstrCode(irs[0], ft)| + PathLength(irs[1..], ft, StepM(irs[0], m))
    else if irs[0].op.JMP_COND? then 6 + (if Holds(HostCond(irs[0].cond), m.flags) then TAKEN_LEN else 2 * TAKEN_LEN)
    else |InstrCode(irs[0], ft)|
  }

  /** The outcome of a block whose path is `length` bytes long, `room` bytes in front of the end of the window. */
  predicate Ends(o: Outcome, irs: seq<IR.IRInst>, ft: u64, m: Machine, room: nat)
  { if PathLength(irs, ft, m) <= room then o == BlockOutcome(irs, ft, m) else RunsOut(o, BlockMapped(irs, m)) }

  /** What is left of the window: its end, or the end of the code. */
  function Left(irs: seq<IR.IRInst>, ft: u64, n: nat, ip: nat): nat
    requires ip <= n
  { var c := |WindowTail(irs, ft, n, ip)|; if n - ip <= c then n - ip else c }

  lemma WindowConditionalCode(ir: IR.IRInst, ft: u64, n: nat, at: nat)
    requires ir.op.JMP_COND?
    ensures WindowInstr(ir, ft, n, at) ==
            Encode(Jcc(Inverted(HostCond(ir.cond)), WindowRel(n, at))) + (EncodeAll(ExitTo(ir.imm)) + EncodeAll(ExitTo(ft)))
    ensures |Encode(Jcc(Inverted(HostCond(ir.cond)), WindowRel(n, at)))| == 6
  { hide EncodeAll, ExitTo, HostCond, Inverted, WindowRel; }

  /** What a conditional exit does when its code is whole. */
  lemma ConditionalOutcome(irs: seq<IR.IRInst>, ft: u64, m: Machine)
    requires |irs| > 0 && irs[0].op.JMP_COND?
    ensures var taken := Holds(HostCond(irs[0].cond), m.flags);
            && (BlockMapped(irs, m) <==> CtxMapped(m, PC_OFFSET))
            && BlockOutcome(irs, ft, m) ==
               (if CtxMapped(m, PC_OFFSET) then Returned(Exited(m, if taken then irs[0].imm else ft)) else MemFault)
            && PathLength(irs, ft, m) == 6 + (if taken then TAKEN_LEN else 2 * TAKEN_LEN)
  {
    hide Holds, HostCond, CtxMapped, Exited, BlockMapped, BlockOutcome, Stop;
    StopHere(irs);
    OutcomeHere(irs, ft, m);
  }

  /** A conditional exit in what is left of the window. */
  lemma ConditionalEnds(irs: seq<IR.IRInst>, ft: u64, n: nat, code: seq<u8>, ip: nat, k: nat, m: Machine)
    requires |irs| > 0 && irs[0].op.JMP_COND? && ip <= n && |code| == n && k < 6 + 2 * TAKEN_LEN
    requires CutAt(code, ip, WindowInstr(irs[0], ft, n, ip), k)
    ensures Ends(Run(code, ip, m), irs, ft, m, k)
  {
    hide PathLength, BlockOutcome, BlockMapped, Holds, HostCond, Inverted, Encode, EncodeAll, ExitTo, InstrCode, Run,
      Exited, CtxMapped, At, CutAt, WindowInstr;
    var ir := irs[0];
    ConditionalOutcome(irs, ft, m);
    Decides(ir.cond, m.flags);
    WindowConditionalCode(ir, ft, n, ip);
    ExitSize(ir.imm);
    var cc, rel := Inverted(HostCond(ir.cond)), WindowRel(n, ip);
    var j, e1, e2 := Jcc(cc, rel), EncodeAll(ExitTo(ir.imm)), EncodeAll(ExitTo(ft));
    CutSplit(code, ip, Encode(j), e1 + e2, k);
    CutLength(code, ip, WindowInstr(ir, ft, n, ip), k);
    if k < 6 {
      CutInside(j, code, ip, k, m);
    } else {
      assert EncodeAll([j]) == Encode(j) by { Single(j); }
      JccRuns(cc, rel, code, ip, m);
      CutSplit(code, ip + 6, e1, e2, k - 6);
      if Holds(HostCond(ir.cond), m.flags) {
        WindowExit(ir.imm, code, ip + 6, k - 6, m);
      } else if k - 6 >= TAKEN_LEN {
        WindowExit(ft, code, ip + 6 + TAKEN_LEN, k - 6 - TAKEN_LEN, m);
      } else {
        EndRuns(code, m);
      }
    }
  }

  lemma CutLength(code: seq<u8>, ip: nat, e: seq<u8>, k: nat)
    requires CutAt(code, ip, e, k)
    ensures ip + k == |code| && k <= |e|
  {}

  lemma OutcomeHere(irs: seq<IR.IRInst>, ft: u64, m: Machine)
    requires Stop(irs) == 0
    ensures BlockMapped(irs, m) <==> ExitMapped(irs, m)
    ensures BlockOutcome(irs, ft, m) == if ExitMapped(irs, m) then Returned(Exited(m, ExitPc(irs, ft, m))) else MemFault
  { hide ExitMapped, Exited, ExitPc, OpMapped; assert Before(irs, 0, m) == m; }

  lemma ReturnEnds(irs: seq<IR.IRInst>, ft: u64, code: seq<u8>, ip: nat, k: nat, m: Machine)
    requires |irs| > 0 && !FallsThrough(irs[0]) && !irs[0].op.JMP_COND? && CutAt(code, ip, InstrCode(irs[0], ft), k)
    requires k < |InstrCode(irs[0], ft)|
    ensures Ends(Run(code, ip, m), irs, ft, m, k)
  {
    hide Encode, EncodeAll, Run, Exited, CtxMapped, Stop, At, CutAt, BlockOutcome, BlockMapped, Puts, LrWord;
    StopHere(irs);
    OutcomeHere(irs, ft, m);
    var ir := irs[0];
    if ir.op.RET? {
      RetPuts(m);
      CutExit(Load(RAX, R12, LR_OFFSET), code, ip, k, m, LrWord(m), CtxMapped(m, LR_OFFSET));
    } else {
      MovPuts(ir.imm, m);
      CutExit(MovImm(RAX, ir.imm), code, ip, k, m, ir.imm, true);
    }
  }

  /** A control transfer all of whose code lies in the window. */
  lemma TransferEnds(irs: seq<IR.IRInst>, ft: u64, n: nat, code: seq<u8>, ip: nat, k: nat, m: Machine)
    requires |irs| > 0 && !FallsThrough(irs[0]) && At(code, ip, WindowInstr(irs[0], ft, n, ip))
    requires |code| <= n && |WindowInstr(irs[0], ft, n, ip)| <= k
    ensures Ends(Run(code, ip, m), irs, ft, m, k)
  {
    WindowSame(irs[0], ft, n, ip);
    if irs[0].op.JMP_COND? { WindowConditional(irs[0], ft, n, ip); }
    hide Encode, EncodeAll, Run, Exited, ExitMapped, Stop, BlockOutcome, BlockMapped, WindowInstr, InstrCode, Holds, ExitPc;
    StopHere(irs);
    OutcomeHere(irs, ft, m);
    TransferRuns(irs, ft, code, ip, m);
  }

  lemma FinalEnds(ft: u64, code: seq<u8>, ip: nat, k: nat, m: Machine)
    requires CutAt(code, ip, EncodeAll(ExitTo(ft)), k)
    ensures Ends(Run(code, ip, m), [], ft, m, k)
  {
    hide Encode, EncodeAll, Run, Exited, CtxMapped, At, CutAt, BlockOutcome, BlockMapped, ExitTo;
    OutcomeHere([], ft, m);
    ExitSize(ft);
    CutLength(code, ip, EncodeAll(ExitTo(ft)), k);
    if k == TAKEN_LEN { WholeCut(code, ip, EncodeAll(ExitTo(ft))); }
    WindowExit(ft, code, ip, k, m);
  }

  /** An operation that stays in the block, cut off. */
  lemma OpCut(ir: IR.IRInst, ft: u64, code: seq<u8>, ip: nat, k: nat, m: Machine)
    requires FallsThrough(ir) && Coded(ir) && CutAt(code, ip, InstrCode(ir, ft), k)
    ensures RunsOut(Run(code, ip, m), OpEffect(ir, m).Done?)
  {
    hide Encode, EncodeAll, Run, At, CutAt, Effects, Meanings, Coded, RawCode;
    assert LowerInstr(ir, ft) == LowerInstr(ir, 0);
    hide LowerInstr;
    OpStraight(ir);
    CutRuns(LowerInstr(ir, 0), code, ip, k, m);
  }

  /** What the first operation says about the whole block. */
  lemma FirstMapped(irs: seq<IR.IRInst>, m: Machine)
    requires |irs| > 0 && FallsThrough(irs[0]) && BlockMapped(irs, m)
    ensures OpEffect(irs[0], m).Done?
  {
    hide OpEffect, OpMapped, FallsThrough, ExitMapped;
    assert Stop(irs) > 0 && Before(irs, 0, m) == m;
    OpRuns(irs[0], m);
  }

  lemma EndsStep(o: Outcome, irs: seq<IR.IRInst>, ft: u64, m: Machine, k: nat)
    requires |irs| > 0 && FallsThrough(irs[0]) && |InstrCode(irs[0], ft)| <= k
    requires match OpEffect(irs[0], m)
             case Fault => o.MemFault?
             case Done(m') => Ends(o, irs[1..], ft, m', k - |InstrCode(irs[0], ft)|)
    ensures Ends(o, irs, ft, m, k)
  {
    hide OpEffect, OpMapped, FallsThrough, ExitMapped, BlockMapped, InstrCode, Exited, ExitPc, BlockOutcome, Before;
    OutcomeStep(irs, ft, m);
    OutcomeMapped(irs, ft, m);
    if OpEffect(irs[0], m).Done? { OutcomeMapped(irs[1..], ft, OpEffect(irs[0], m).m); }
  }

  lemma OutcomeMapped(irs: seq<IR.IRInst>, ft: u64, m: Machine)
    ensures BlockOutcome(irs, ft, m).Returned? <==> BlockMapped(irs, m)
  { hide BlockMapped, Exited, Before, ExitPc; }

  /** A control transfer in what is left of the window. */
  lemma ExitEnds(irs: seq<IR.IRInst>, ft: u64, n: nat, code: seq<u8>, ip: nat, k: nat, m: Machine)
    requires |irs| > 0 && !FallsThrough(irs[0]) && ip <= n && |code| <= n
    requires var c := WindowInstr(irs[0], ft, n, ip);
             if k < |c| then CutAt(code, ip, c, k) && |code| == n else At(code, ip, c)
    ensures Ends(Run(code, ip, m), irs, ft, m, k)
  {
    hide Encode, EncodeAll, Run, At, CutAt, InstrCode, ExitTo, Ends, HostCond, Inverted, WindowRel;
    if k >= |WindowInstr(irs[0], ft, n, ip)| { TransferEnds(irs, ft, n, code, ip, k, m); }
    else if irs[0].op.JMP_COND? { WindowConditional(irs[0], ft, n, ip); ConditionalEnds(irs, ft, n, code, ip, k, m); }
    else { ReturnEnds(irs, ft, code, ip, k, m); }
  }

  /** An operation that stays in the block, cut off: the block does not get to its exit. */
  lemma CutEnds(irs: seq<IR.IRInst>, ft: u64, code: seq<u8>, ip: nat, k: nat, m: Machine)
    requires |irs| > 0 && FallsThrough(irs[0]) && Coded(irs[0]) && CutAt(code, ip, InstrCode(irs[0], ft), k)
    requires k < |InstrCode(irs[0], ft)|
    ensures Ends(Run(code, ip, m), irs, ft, m, k)
  {
    hide Run, CutAt, OpEffect, Coded, InstrCode, FallsThrough, BlockMapped, BlockOutcome;
    OpCut(irs[0], ft, code, ip, k, m);
    if BlockMapped(irs, m) { FirstMapped(irs, m); }
  }

  lemma {:induction false} TailEnds(irs: seq<IR.IRInst>, ft: u64, n: nat, code: seq<u8>, ip: nat, k: nat, m: Machine)
    requires (forall ir :: ir in irs ==> Coded(ir)) && ip <= n && |code| <= n
    requires CutAt(code, ip, WindowTail(irs, ft, n, ip), k) && (k < |WindowTail(irs, ft, n, ip)| ==> |code| == n)
    ensures Ends(Run(code, ip, m), irs, ft, m, k)
    decreases |irs|
  {
    hide Encode, EncodeAll, Run, At, CutAt, OpEffect, Coded, InstrCode, WindowInstr, ExitTo, Ends, FallsThrough;
    if |irs| == 0 {
      FinalEnds(ft, code, ip, k, m);
    } else {
      var ir := irs[0];
      var c := WindowInstr(ir, ft, n, ip);
      var rest := WindowTail(irs[1..], ft, n, ip + |c|);
      CutSplit(code, ip, c, rest, k);
      CutLength(code, ip, c + rest, k);
      if !FallsThrough(ir) {
        ExitEnds(irs, ft, n, code, ip, k, m);
      } else {
        StraightSame(ir, ft, n, ip);
        if k < |c| {
          CutEnds(irs, ft, code, ip, k, m);
        } else {
          OpCode(ir, ft, code, ip, m);
          if OpEffect(ir, m).Done? { TailEnds(irs[1..], ft, n, code, ip + |c|, k - |c|, OpEffect(ir, m).m); }
          EndsStep(Run(code, ip, m), irs, ft, m, k);
        }
      }
    }
  }

  lemma StraightSame(ir: IR.IRInst, ft: u64, n: nat, at: nat)
    requires FallsThrough(ir)
    ensures WindowInstr(ir, ft, n, at) == InstrCode(ir, ft)
  { hide InstrCode; }

  lemma {:induction false} PathInside(irs: seq<IR.IRInst>, ft: u64, m: Machine)
    ensures PathLength(irs, ft, m) <= |TailCode(irs, ft)|
    decreases |irs|
  {
    hide InstrCode, EncodeAll, ExitTo, FallsThrough, Holds, HostCond;
    if |irs| == 0 { ExitSize(ft); }
    else if FallsThrough(irs[0]) { PathInside(irs[1..], ft, StepM(irs[0], m)); }
    else if irs[0].op.JMP_COND? { WindowConditional(irs[0], ft, 0, 0); }
  }

  /** The number of bytes up to the end of the exit the block leaves by. */
  function PathEnd(irs: seq<IR.IRInst>, ft: u64, m: Machine): nat
  { |PROLOGUE| + PathLength(irs, ft, m.Set(R12, m.regs[RDI])) }

  /** What running the bytes in a window of any size does, for every block and every entry state: if the path
      of the block up to its exit lies inside the window, exactly what the whole block does; otherwise it never
      returns, and runs over the end of the window if its accesses are mapped. */
  lemma ClippedRuns(irs: seq<IR.IRInst>, ft: u64, n: nat, m: Machine)
    requires (forall ir :: ir in irs ==> Coded(ir)) && n >= |PROLOGUE|
    ensures var m0 := m.Set(R12, m.regs[RDI]); var o := Run(Emitted(irs, ft, n), 0, m);
            && (if PathEnd(irs, ft, m) <= n then o == BlockOutcome(irs, ft, m0) else RunsOut(o, BlockMapped(irs, m0)))
            && (o.Returned? <==> PathEnd(irs, ft, m) <= n && BlockMapped(irs, m0))
  {
    hide Encode, EncodeAll, Run, At, WindowTail, Coded, BlockOutcome, BlockMapped, PathLength;
    var code, tail := Emitted(irs, ft, n), WindowTail(irs, ft, n, |PROLOGUE|);
    var k := if |PROLOGUE + tail| <= n then |tail| else n - |PROLOGUE|;
    ClipCut(PROLOGUE, tail, n);
    assert code == Clip(PROLOGUE + tail, n);
    hide CutAt, Emitted;
    var m0 := m.Set(R12, m.regs[RDI]);
    PrologueRuns(code, m);
    TailEnds(irs, ft, n, code, |PROLOGUE|, k, m0);
    PathInside(irs, ft, m0);
    WindowTailFits(irs, ft, n, |PROLOGUE|);
    OutcomeMapped(irs, ft, m0);
  }

  lemma ClipCut(a: seq<u8>, b: seq<u8>, n: nat)
    requires |a| <= n
    ensures var k := if |a + b| <= n then |b| else n - |a|;
            At(Clip(a + b, n), 0, a) && CutAt(Clip(a + b, n), |a|, b, k) && (k < |b| ==> |Clip(a + b, n)| == n)
  {
    var k := if |a + b| <= n then |b| else n - |a|;
    assert Clip(a + b, n)[|a|..] == b[..k];
  }

  lemma PrologueRuns(code: seq<u8>, m: Machine)
    requires At(code, 0, PROLOGUE)
    ensures Run(code, 0, m) == Run(code, |PROLOGUE|, m.Set(R12, m.regs[RDI]))
  {
    hide Encode, Effects, Run, At;
    var i := Alu(MOV, R12, RDI);
    PrologueFacts(m);
    assert EncodeAll([i]) == Encode(i) by { Single(i); }
    RunStraight(code, 0, [i], m);
  }

  // ----- too many spills -----

  /** Control transfers at most at the end. */
  predicate StraightToEnd(irs: seq<IR.IRInst>) { forall i :: 0 <= i < |irs| - 1 ==> FallsThrough(irs[i]) }

  lemma {:induction false} SpillsOnPath(irs: seq<IR.IRInst>, ft: u64, m: Machine)
    requires FlagMerging.Marked(irs) && StraightToEnd(irs) && forall ir :: ir in irs ==> Coded(ir)
    ensures PathLength(irs, ft, m) >= SPILL_SIZE * Setters(irs)
    decreases |irs|
  {
    hide InstrCode, Coded, Holds, HostCond, StepM, OpEffect;
    if |irs| > 0 {
      if irs[0].flagsSet { SpilledSize(irs[0], ft); }
      if FallsThrough(irs[0]) { SpillsOnPath(irs[1..], ft, StepM(irs[0], m)); }
    }
  }

  lemma BuiltStraight(d: Decoder.DecodedInstr, pc: u64)
    requires Decoder.DecoderShaped(d)
    ensures StraightToEnd(IR.BuildInstr(d, pc))
    ensures !IR.EndsBlock(d) ==> forall ir :: ir in IR.BuildInstr(d, pc) ==> FallsThrough(ir)
  {}

  lemma {:induction false} BuiltListStraight(ds: seq<Decoder.DecodedInstr>, pc: u64)
    requires StraightRun(ds)
    ensures StraightToEnd(IR.BuildList(ds, pc))
    decreases |ds|
  {
    hide IR.BuildInstr, FallsThrough, Decoder.DecoderShaped, IR.EndsBlock;
    if |ds| > 0 {
      assert ds[0] in ds;
      BuiltStraight(ds[0], pc);
      if !IR.EndsBlock(ds[0]) {
        assert forall i :: 0 <= i < |ds[1..]| - 1 ==> ds[1..][i] == ds[i + 1];
        BuiltListStraight(ds[1..], U64(pc + 4));
        var a, b := IR.BuildInstr(ds[0], pc), IR.BuildList(ds[1..], U64(pc + 4));
        forall i | 0 <= i < |a + b| - 1 ensures FallsThrough((a + b)[i]) {
          if i < |a| { assert a[i] in a; } else { assert (a + b)[i] == b[i - |a|]; }
        }
      }
    }
  }

  lemma MergedStraight(irs: seq<IR.IRInst>)
    requires StraightToEnd(irs)
    ensures StraightToEnd(FlagMerging.Merged(irs))
  {
    var r := FlagMerging.Merged(irs);
    forall i | 0 <= i < |r| - 1 ensures FallsThrough(r[i]) { assert FallsThrough(irs[i]); }
  }

  /** A block with 31 or more spills left never returns, from no entry state: with its accesses mapped it runs
      over the end of its slot, into whatever follows. */
  lemma OverflowRunsOut(ds: seq<Decoder.DecodedInstr>, pc: u64, ft: u64, m: Machine)
    requires StraightRun(ds) && Setters(FlagMerging.Merged(IR.BuildList(ds, pc))) >= 31
    ensures var irs := FlagMerging.Merged(IR.BuildList(ds, pc));
            RunsOut(Run(Emitted(irs, ft, SLOT_SIZE), 0, m), BlockMapped(irs, m.Set(R12, m.regs[RDI])))
  {
    hide IR.BuildList, FlagMerging.Merged, FlagMerging.Marked, Run, BlockMapped, BlockOutcome, PathLength,
      StraightToEnd, Coded, Encode, Emitted;
    var built := IR.BuildList(ds, pc);
    BuiltBodies(ds, pc);
    FlagMerging.BuiltListMarks(ds, pc);
    MergedKeeps(built);
    BuiltListStraight(ds, pc);
    MergedStraight(built);
    var irs := FlagMerging.Merged(built);
    SpillsOnPath(irs, ft, m.Set(R12, m.regs[RDI]));
    assert |PROLOGUE| == 3 by { EncodeLen(Alu(MOV, R12, RDI)); }
    ClippedRuns(irs, ft, SLOT_SIZE, m);
  }
}
