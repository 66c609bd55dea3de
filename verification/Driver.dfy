/** `ExecEngine` (src/core/exec_engine.cpp:239-355): the loop that drives cache, translator and
    interpreter, proved to make exactly the iterations of the state machine. */
module Driver {
  import opened Words
  import opened Guest
  import opened Decoder
  import opened Interp
  import opened Cache
  import opened Pipeline
  import opened RunLoop
  import opened FlagMerging
  import opened CodeBuffer
  import opened Lowering
  import IR
  import Lower
  import WholeRun

  /** The collecting loop of `translate_block`. */
  method CollectBlock(mem: Mem, armPc: u64) returns (ds: seq<DecodedInstr>)
    ensures ds == BlockAt(mem, armPc)
  {
    hide Decoder.Decode, Read32, Mapped, Collect;
    ds := [];
    var pc: int, i := armPc, 0;
    while i < MAX_BLOCK
      invariant i <= MAX_BLOCK && 0 <= pc < TWO_64
      invariant ds + Collect(mem, pc, MAX_BLOCK - i) == BlockAt(mem, armPc)
    {
      CollectStep(mem, pc, MAX_BLOCK - i);
      if !Mapped(mem, pc, 4) { return; }
      var raw := Read32(mem, pc);
      if IsSvc(raw) { return; }
      var instr := Decoder.Decode(raw);
      assert Candidate(mem, pc) == instr;
      if !instr.ok { return; }
      hide Candidate;
      ds := ds + [instr.out];
      if instr.out.category == BRANCH || instr.out.category == BRANCH_COND { return; }
      pc := U64(pc + 4);
      i := i + 1;
    }
    CollectStep(mem, pc, 0);
  }

  /** Builder and optimizer. */
  method BuildMerged(ds: seq<DecodedInstr>, armPc: u64) returns (irs: seq<IR.IRInst>, count: nat)
    ensures irs == Merged(IR.BuildList(ds, armPc)) && count == IR.Consumed(ds)
  {
    hide IR.BuildList, IR.Consumed;
    var block := IR.Build(ds, armPc);
    var n := |block.instructions|;
    var a := new IR.IRInst[n](i requires 0 <= i < n => block.instructions[i]);
    assert a[..] == block.instructions;
    MergeFlags(a);
    return a[..], block.instrCount;
  }

  /** Emitter and lowering: the code of a block into its slot of the pool. */
  method EmitBlock(pool: array<u8>, at: nat, irs: seq<IR.IRInst>, fallthrough: u64) returns (size: nat)
    requires at + SLOT <= pool.Length
    modifies pool
    ensures PoolWritten(old(pool[..]), pool[..], at, Lower.Emitted(irs, fallthrough, SLOT))
    ensures size == |Lower.Emitted(irs, fallthrough, SLOT)|
  {
    hide Lower.WindowCode;
    var emitter := new X86Emitter();
    emitter.SetBuffer(pool, at, SLOT);
    var lowering := new IRLowering(emitter);
    ghost var was := pool[..];
    lowering.LowerBlock(irs, fallthrough);
    emitter.OffsetIs();
    size := emitter.offset;
    assert pool[..][..at] == pool[..at] == was[..at];
    assert pool[..][at + SLOT..] == pool[at + SLOT..] == was[at + SLOT..];
    assert pool[..][at..at + size] == pool[at..at + size];
  }

  /** Stamps are distinct, blocks lie in their slots, and the access counter is far from wrapping. */
  ghost predicate ReadyState(e: Engine)
  {
    && Stamped(e.cache) && SlotsOk(e)
    && e.iter <= MAX_ITER && e.cache.counter + MAX_ITER - e.iter + 1 < UINT64_MAX
  }

  lemma CountersStep(env: Env, e: Engine, e': Engine)
    requires Iterates(env, e, e') && Stamped(e.cache)
    ensures Stamped(e'.cache) && e'.cache.counter <= e.cache.counter + e'.iter - e.iter
  {
    hide Execute, Exec, Syscall, Decoder.Decode, Read32, Mapped, Collect, SlotCode, Evict, Stamped, AfterAlloc,
      AfterInsert, AfterLookup, PoolWritten;
    var pc := e.g.ctx.pc;
    StampedLookup(e.cache, pc);
    StampedAlloc(e.cache, SLOT);
    var ds := BlockAt(e.g.mem, pc);
    StampedInsert(AfterAlloc(e.cache, SLOT), pc, e.cache.used, |SlotCode(ds, pc)|, |ds|);
  }

  lemma ReadyAnyGuest(e: Engine, g: Guest)
    requires ReadyState(e)
    ensures ReadyState(e.(g := g))
  {}

  lemma TraceOne(env: Env, e: Engine)
    ensures Trace(env, [e])
  {}

  /** Every iteration the loop makes leaves the engine ready for the next. */
  lemma ReadyNext(env: Env, e: Engine, e': Engine)
    requires ReadyState(e) && Continues(e) && Iterates(env, e, e')
    ensures ReadyState(e')
  {
    hide Iterates, Stamped, SlotsOk;
    CountersStep(env, e, e');
    SlotStep(env, e, e');
    IterationProgress(env, e, e');
  }

  lemma HitIterates(env: Env, e: Engine, b: BlockInfo, g: Guest)
    requires Hit(e.cache, e.g.ctx.pc) && b == AfterLookup(e.cache, e.g.ctx.pc).blocks[e.g.ctx.pc]
    requires g == Execute(env, e.iter, CodeAt(e.pool, b.hostCode, b.hostCodeSize), e.g)
    ensures Iterates(env, e, Engine(g, AfterLookup(e.cache, e.g.ctx.pc), e.pool, e.iter + 1))
  { hide Execute, Read32, Mapped, Collect, SlotCode, Decoder.Decode, Exec; }

  /** The block a lookup returns is valid and lies in the pool. */
  lemma HitInPool(e: Engine, pc: u64)
    requires ReadyState(e) && Hit(e.cache, pc)
    ensures var b := AfterLookup(e.cache, pc).blocks[pc]; b.isValid && InPool(e.pool, b.hostCode, b.hostCodeSize)
  {}

  lemma MissKeeps(c: CacheState, pc: u64)
    ensures !Hit(c, pc) ==> AfterLookup(c, pc) == c
  {}

  lemma WindowInPool(pool: seq<u8>, pool': seq<u8>, at: nat, code: seq<u8>)
    requires PoolWritten(pool, pool', at, code)
    ensures InPool(pool', at, |code|)
  {}

  lemma TraceMore(env: Env, t: seq<Engine>, e: Engine)
    requires Trace(env, t) && Continues(t[|t| - 1]) && Iterates(env, t[|t| - 1], e)
    ensures Trace(env, t + [e])
  {
    hide Iterates, Continues;
    var t' := t + [e];
    forall i | 0 <= i < |t'| - 1 ensures Continues(t'[i]) && Iterates(env, t'[i], t'[i + 1]) {
      assert t'[i] == t[i] && t'[i + 1] == if i + 1 < |t| then t[i + 1] else e;
    }
  }

  class ExecEngine {
    const env: Env
    const cache: TranslationCache
    var g: Guest

    ghost function State(iter: nat): Engine
      reads this, cache, cache.codePool
    { Engine(g, cache.State(), cache.codePool[..], iter) }

    ghost predicate Ready(iter: nat)
      reads this, cache, cache.codePool
    { ReadyState(State(iter)) }

    constructor (env: Env, cache: TranslationCache, g: Guest)
      ensures this.env == env && this.cache == cache && this.g == g
    { this.env, this.cache, this.g := env, cache, g; }

    /** `translate_block` */
    method TranslateBlock(iter: nat) returns (r: Option<BlockInfo>)
      requires Ready(iter) && iter < MAX_ITER
      modifies cache, cache.codePool
      ensures cache.State() == CacheAfterTranslate(old(State(iter)))
      ensures r.Some? <==> Translatable(old(State(iter)))
      ensures r.None? ==> cache.codePool[..] == old(cache.codePool[..])
      ensures r.Some? ==>
                var code := SlotCode(BlockAt(g.mem, g.ctx.pc), g.ctx.pc);
                && PoolWritten(old(cache.codePool[..]), cache.codePool[..], old(cache.codePoolUsed), code)
                && r.value == BlockInfo(g.ctx.pc, old(cache.codePoolUsed), |code|, |BlockAt(g.mem, g.ctx.pc)|, 0, 0, true, false)
    {
      hide Lower.Emitted, IR.BuildList, Merged, Collect, PoolWritten, Evict, AfterInsert, AfterAlloc, Stamped,
        Candidate, Shaped, DecoderShaped;
      var armPc := g.ctx.pc;
      var ds := CollectBlock(g.mem, armPc);
      if |ds| == 0 { return None; }
      BlockShape(g.mem, armPc);
      var irs, count := BuildMerged(ds, armPc);
      StampedAlloc(cache.State(), SLOT);
      var host := cache.AllocHostCode(SLOT);
      if host.None? { return None; }
      var size := EmitBlock(cache.codePool, host.value, irs, U64(armPc + 4 * |ds|));
      cache.InsertBlock(armPc, host.value, size, count);
      return Some(BlockInfo(armPc, host.value, size, count, 0, 0, true, false));
    }

    /** `execute_block` */
    method ExecuteBlock(block: BlockInfo, n: nat)
      requires InPool(cache.codePool[..], block.hostCode, block.hostCodeSize)
      modifies this`g
      ensures g == if block.isValid
                   then Execute(env, n, CodeAt(cache.codePool[..], block.hostCode, block.hostCodeSize), old(g)) else old(g)
    {
      hide Execute;
      if !block.isValid { return; }
      var at, end := block.hostCode, block.hostCode + block.hostCodeSize;
      assert cache.codePool[..][at..end] == cache.codePool[at..end];
      g := Execute(env, n, cache.codePool[at..end], g);
    }

    /** The body of the loop behind a cache miss: a syscall, a fresh block, or one interpreted
        instruction. */
    method Miss(iter: nat) returns (next: nat)
      requires Ready(iter) && Continues(State(iter)) && !Hit(cache.State(), g.ctx.pc) && Mapped(g.mem, g.ctx.pc, 4)
      modifies this`g, cache, cache.codePool
      ensures Iterates(env, old(State(iter)), State(next))
    {
      hide Execute, Exec, Syscall, Decoder.Decode, Read32, Mapped, Collect, SlotCode, AfterInsert, AfterAlloc, Evict,
        Stamped, PoolWritten, Candidate, SlotsOk;
      ghost var e := State(iter);
      var instr := Read32(g.mem, g.ctx.pc);
      if IsSvc(instr) {
        g := Syscall(env, g);
        return iter + 1;
      }
      var block := TranslateBlock(iter);
      if block.Some? {
        WindowInPool(e.pool, cache.codePool[..], e.cache.used, SlotCode(BlockAt(g.mem, g.ctx.pc), g.ctx.pc));
        ExecuteBlock(block.value, iter);
        return iter + 1;
      }
      var decoded := Decoder.Decode(instr);
      if !decoded.ok {
        g := g.(ctx := g.ctx.Crash());
        return iter;
      }
      g := Exec(decoded.out, g);
      return iter + 1;
    }

    /** `run`: the trace it leaves is a run of the state machine, and it stops where the loop must. */
    method Run(armPc: u64) returns (iter: nat, ghost trace: seq<Engine>)
      requires Ready(0)
      modifies this`g, cache, cache.codePool
      ensures |trace| > 0 && Trace(env, trace) && trace[0] == old(State(0)).(g := old(g).(ctx := old(g.ctx).(pc := armPc)))
      ensures trace[|trace| - 1] == State(iter)
      ensures Continues(State(iter)) ==> !Hit(cache.State(), g.ctx.pc) && !Mapped(g.mem, g.ctx.pc, 4)
      ensures forall text: Mem :: ValidEnv(env) && WholeRun.GoodRun(env, text, trace[0].g) && WholeRun.CacheOk(text, trace[0]) ==>
                g == WholeRun.InterpretN(env, trace[0].g, WholeRun.Steps(trace))
    {
      hide Iterates, Execute, Mapped, Hit, AfterLookup, ReadyState, Trace, WholeRun.GoodRun, WholeRun.CacheOk,
        WholeRun.InterpretN, WholeRun.Steps;
      ReadyAnyGuest(State(0), g.(ctx := g.ctx.(pc := armPc)));
      g := g.(ctx := g.ctx.(pc := armPc));
      iter := 0;
      trace := [State(0)];
      TraceOne(env, State(0));
      while Running(g) && iter < MAX_ITER
        invariant Ready(iter) && |trace| > 0 && Trace(env, trace) && trace[|trace| - 1] == State(iter)
        invariant trace[0] == old(State(0)).(g := old(g).(ctx := old(g.ctx).(pc := armPc)))
        decreases MAX_ITER - iter, Running(g)
      {
        ghost var e := State(iter);
        var next := iter;
        MissKeeps(cache.State(), g.ctx.pc);
        var block := cache.LookupBlock(g.ctx.pc);
        if block.Some? {
          HitInPool(e, g.ctx.pc);
          ExecuteBlock(block.value, iter);
          next := iter + 1;
          HitIterates(env, e, block.value, g);
        } else {
          if !Mapped(g.mem, g.ctx.pc, 4) { break; }
          next := Miss(iter);
        }
        ReadyNext(env, e, State(next));
        IterationProgress(env, e, State(next));
        TraceMore(env, trace, State(next));
        trace := trace + [State(next)];
        iter := next;
      }
      forall text: Mem | ValidEnv(env) && WholeRun.GoodRun(env, text, trace[0].g) && WholeRun.CacheOk(text, trace[0])
        ensures g == WholeRun.InterpretN(env, trace[0].g, WholeRun.Steps(trace))
      { WholeRun.WholeRunExact(env, text, trace); }
    }
  }
}
