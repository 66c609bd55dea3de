/** What single iterations of the run loop do (src/core/exec_engine.cpp:239-332): the system call, the end of a
    run, the extent of a block, a block that faults. */
module LoopSteps {
  import opened Words
  import opened Guest
  import opened View
  import opened HostImage
  import opened Decoder
  import opened Cache
  import opened Pipeline
  import opened RunLoop
  import opened Semantics
  import X86
  import Emitter
  import Lower
  import ControlFlow
  import WholeRun
  import IR

  // ----- system calls -----

  const SVC_MASK: u32 := 0xFFE0_001F
  const SVC_WORD: u32 := 0xD400_0001

  lemma LowFive(m: nat, w: nat)
    ensures BitAnd(32, 31 + 32 * m, w) == w % 32 + 32 * BitAnd(27, m, w / 32)
  {
    hide BitAnd;
    BitAndKeep(31, 15 + 16 * m, w);
    BitAndKeep(30, 7 + 8 * m, w / 2);
    BitAndKeep(29, 3 + 4 * m, w / 4);
    BitAndKeep(28, 1 + 2 * m, w / 8);
    BitAndKeep(27, m, w / 16);
    LowDigits(w);
  }

  lemma LowDigits(w: nat)
    ensures w / 2 / 2 == w / 4 && w / 4 / 2 == w / 8 && w / 8 / 2 == w / 16 && w / 16 / 2 == w / 32
    ensures w % 32 == w % 2 + 2 * (w / 2 % 2) + 4 * (w / 4 % 2) + 8 * (w / 8 % 2) + 16 * (w / 16 % 2)
  {}

  lemma MiddleSixteen(m: nat, x: nat)
    ensures BitAnd(27, 0x1_0000 * m, x) == 0x1_0000 * BitAnd(11, m, x / 0x1_0000)
  {
    hide BitAnd;
    BitAndSkip(23, 0x1000 * m, x);
    BitAndSkip(19, 0x100 * m, x / 16);
    BitAndSkip(15, 0x10 * m, x / 0x100);
    BitAndSkip(11, m, x / 0x1000);
    Nest(x, 16, 16);
    Nest(x, 0x100, 16);
    Nest(x, 0x1000, 16);
  }

  lemma TopEleven(z: nat)
    requires z < 2048
    ensures BitAnd(11, 2047, z) == z
  {
    assert Pow2(11) == 2048;
    BitAndOnes(11, z);
    hide BitAnd, Pow2;
  }

  /** The mask keeps the eleven high and the five low bits. */
  lemma MaskKeeps(w: u32)
    ensures BitAnd(32, SVC_MASK, w) == w % 32 + 0x20_0000 * (w / 0x20_0000)
  {
    hide BitAnd;
    var x := w / 32;
    LowFive(0x1_0000 * 2047, w);
    MiddleSixteen(2047, x);
    TopEleven(x / 0x1_0000);
    assert w / 0x20_0000 == x / 0x1_0000 by { Nest(w, 32, 0x1_0000); }
  }

  /** The SVC test of the loop is the masked comparison of the source. */
  lemma SvcMask(w: u32)
    ensures IsSvc(w) <==> BitAnd(32, SVC_MASK, w) == SVC_WORD
  { MaskKeeps(w); hide BitAnd; }

  /** The guest the kernel is called with: the pc behind the SVC. */
  function Called(g: Guest): Guest { g.(ctx := g.ctx.(pc := U64(g.ctx.pc + 4))) }

  /** The result in X0: a negative one wraps around. */
  function Answer(r: i32): u64 { if r >= 0 then r else TWO_64 + r }

  /** What the kernel leaves, with its result in X0. */
  function Answered(k: SysResult): Guest { k.guest.(ctx := k.guest.ctx.(x := k.guest.ctx.x[0 := Answer(k.result)])) }

  /** An SVC that is no cached block: the kernel is called once, with the pc behind the SVC and everything else
      as it was; its guest, with the result in X0, goes on; cache and pool are left alone. */
  lemma SyscallStep(env: Env, e: Engine, e': Engine)
    requires Iterates(env, e, e') && !Hit(e.cache, e.g.ctx.pc)
    requires Mapped(e.g.mem, e.g.ctx.pc, 4) && BitAnd(32, SVC_MASK, Read32(e.g.mem, e.g.ctx.pc)) == SVC_WORD
    ensures e' == Engine(Answered(env.sys(Called(e.g))), e.cache, e.pool, e.iter + 1)
  {
    SvcMask(Read32(e.g.mem, e.g.ctx.pc));
    hide BitAnd, Execute, Translatable, SlotCode, PoolWritten, Decode, Collect, IsSvc, Read32, Mapped;
  }

  /** Plain interpretation makes the same call. */
  lemma SyscallInterpreted(env: Env, g: Guest)
    requires Running(g) && Mapped(g.mem, g.ctx.pc, 4) && BitAnd(32, SVC_MASK, Read32(g.mem, g.ctx.pc)) == SVC_WORD
    ensures WholeRun.Interpret(env, g) == Answered(env.sys(Called(g)))
  {
    SvcMask(Read32(g.mem, g.ctx.pc));
    hide BitAnd, Decode, IsSvc, Read32, Mapped, Running;
  }

  /** A kernel that leaves the pc alone: the loop goes on behind the SVC. */
  lemma SyscallGoesOn(env: Env, e: Engine, e': Engine)
    requires Iterates(env, e, e') && !Hit(e.cache, e.g.ctx.pc)
    requires Mapped(e.g.mem, e.g.ctx.pc, 4) && BitAnd(32, SVC_MASK, Read32(e.g.mem, e.g.ctx.pc)) == SVC_WORD
    requires forall g: Guest :: env.sys(g).guest.ctx.pc == g.ctx.pc
    ensures e'.g.ctx.pc == U64(e.g.ctx.pc + 4) && e'.iter == e.iter + 1
  {
    hide Iterates, BitAnd, Read32, Mapped;
    SyscallStep(env, e, e');
  }

  // ----- the end of a run -----

  /** The loop goes on while bits 2 (crashed) and 3 (exited) of the state flags are clear. */
  lemma RunningFlags(g: Guest)
    ensures Running(g) <==> !Digit(g.ctx.stateFlags, 2) && !Digit(g.ctx.stateFlags, 3)
  { assert Pow2(2) == 4 && Pow2(3) == 8; }

  /** What ends a run: the crash or exit flag, or ten million iterations. */
  lemma LoopStops(e: Engine)
    ensures !Continues(e) <==> Digit(e.g.ctx.stateFlags, 2) || Digit(e.g.ctx.stateFlags, 3) || e.iter >= 10_000_000
  {
    RunningFlags(e.g);
    hide Running, Digit;
  }

  // ----- the extent of a block -----

  /** The word at `pc` can be taken into a block: it is mapped, no SVC, and decodes. */
  predicate Takes(mem: Mem, pc: u64)
  { Mapped(mem, pc, 4) && BitAnd(32, SVC_MASK, Read32(mem, pc)) != SVC_WORD && Decode(Read32(mem, pc)).ok }

  /** Branches of both kinds end a block. */
  predicate Ends(d: DecodedInstr) { d.category in {BRANCH, BRANCH_COND} }

  lemma TakesCandidate(mem: Mem, pc: u64)
    ensures Takes(mem, pc) <==> Candidate(mem, pc).ok
  {
    if Mapped(mem, pc, 4) { SvcMask(Read32(mem, pc)); }
    hide BitAnd, IsSvc, Decode, Read32, Mapped;
  }

  /** What stops a block of at most `n` instructions. */
  predicate Stopped(mem: Mem, pc: u64, n: nat, ds: seq<DecodedInstr>)
  { |ds| == n || (|ds| > 0 && Ends(ds[|ds| - 1])) || !Takes(mem, U64(pc + 4 * |ds|)) }

  lemma StoppedLater(mem: Mem, pc: u64, n: nat, d: DecodedInstr, ds: seq<DecodedInstr>)
    requires Stopped(mem, U64(pc + 4), n, ds)
    ensures Stopped(mem, pc, n + 1, [d] + ds)
  {
    hide Takes, U64;
    IR.PcAdvance(pc, 4, 4 * |ds|);
    if |ds| > 0 { assert ([d] + ds)[|ds|] == ds[|ds| - 1]; }
  }

  lemma {:induction false} CollectMaximal(mem: Mem, pc: u64, n: nat)
    ensures Stopped(mem, pc, n, Collect(mem, pc, n))
    decreases n
  {
    hide Candidate, Takes;
    TakesCandidate(mem, pc);
    if n > 0 && Candidate(mem, pc).ok && !EndsCollect(Candidate(mem, pc).out) {
      CollectMaximal(mem, U64(pc + 4), n - 1);
      hide Stopped;
      StoppedLater(mem, pc, n - 1, Candidate(mem, pc).out, Collect(mem, U64(pc + 4), n - 1));
    }
  }

  /** A block goes on as far as it can: it has 64 instructions, or ends with a branch, or the next word is not
      mapped, an SVC, or does not decode. */
  lemma BlockMaximal(mem: Mem, pc: u64)
    ensures var ds := BlockAt(mem, pc);
            |ds| == 64 || (|ds| > 0 && Ends(ds[|ds| - 1])) || !Takes(mem, U64(pc + 4 * |ds|))
  {
    hide Collect, Takes, Ends;
    CollectMaximal(mem, pc, MAX_BLOCK);
  }

  /** A miss is translated as long as there is an instruction to take and 4096 of the 64 MiB of the pool are left. */
  lemma TranslatesWhile(e: Engine)
    ensures Translatable(e) <==> Takes(e.g.mem, e.g.ctx.pc) && e.cache.used + 4096 <= 64 * 1024 * 1024
  {
    TakesCandidate(e.g.mem, e.g.ctx.pc);
    CollectStep(e.g.mem, e.g.ctx.pc, MAX_BLOCK);
    hide Candidate, Takes, Collect;
  }

  // ----- a block that faults -----

  /** A block with an access on its way that is not mapped: the call ends in the signal handler, and the guest
      is as before, with the crash flag set. */
  lemma FaultCrashes(env: Env, n: nat, irs: seq<IR.IRInst>, ft: u64, g: Guest)
    requires forall ir :: ir in irs ==> Lower.Coded(ir)
    requires var m := Entry(g, env.ctxp, env.calls(n)); !ControlFlow.BlockMapped(irs, m.Set(X86.R12, m.regs[X86.RDI]))
    ensures var g' := Execute(env, n, Lower.BlockCode(irs, ft), g);
            g' == g.(ctx := g.ctx.(stateFlags := g'.ctx.stateFlags)) && !Running(g')
  {
    hide X86.Run, Lower.BlockCode, ControlFlow.BlockMapped, Lower.Coded, Entry, ViewAt;
    var code := Lower.BlockCode(irs, ft);
    assert Emitter.At(code, 0, code);
    ControlFlow.BlockSafe(irs, ft, code, Entry(g, env.ctxp, env.calls(n)));
    CrashStops(g.ctx);
  }
}
