/** The run loop (src/core/exec_engine.cpp:239-332) as a state machine: lookup, translate, execute,
    or fall back to the interpreter. */
module RunLoop {
  import opened Words
  import opened Guest
  import opened View
  import opened HostImage
  import opened Decoder
  import opened Interp
  import opened X86
  import opened Cache
  import opened Pipeline
  import CodeSize
  import IR

  const MAX_BLOCK: nat := 64
  const MAX_ITER: nat := 10_000_000
  const SLOT: nat := CodeSize.SLOT_SIZE

  // ----- collecting a block -----

  /** `(w & 0xFFE0001F) == 0xD4000001` */
  predicate IsSvc(w: u32) { w / 0x20_0000 == 0x6A0 && w % 32 == 1 }

  predicate EndsCollect(d: DecodedInstr) { d.category == BRANCH || d.category == BRANCH_COND }

  /** The word at `pc` decoded, unless it is an SVC. */
  function Candidate(mem: Mem, pc: u64): Attempt
  {
    if Mapped(mem, pc, 4) && !IsSvc(Read32(mem, pc)) then Decoder.Decode(Read32(mem, pc))
    else Attempt(false, ZeroedInstr)
  }

  /** The instructions of the block at `pc`, at most `n`: up to an SVC, a word that does not decode, or
      a branch, which is still taken in. */
  function Collect(mem: Mem, pc: u64, n: nat): (ds: seq<DecodedInstr>)
    ensures |ds| <= n
    decreases n
  {
    if n == 0 || !Candidate(mem, pc).ok then []
    else
      var d := Candidate(mem, pc).out;
      [d] + (if EndsCollect(d) then [] else Collect(mem, U64(pc + 4), n - 1))
  }

  lemma CollectStep(mem: Mem, pc: u64, n: nat)
    ensures var a := Candidate(mem, pc);
            Collect(mem, pc, n) ==
              if n == 0 || !a.ok then []
              else [a.out] + if EndsCollect(a.out) then [] else Collect(mem, U64(pc + 4), n - 1)
  { hide Candidate; }

  function BlockAt(mem: Mem, pc: u64): seq<DecodedInstr> { Collect(mem, pc, MAX_BLOCK) }

  // ----- executing -----

  datatype SysResult = SysResult(guest: Guest, result: i32)

  /** Where the context lies, the host registers and flags of the block call made in iteration n, and the
      kernel: an arbitrary update of the guest with a result. */
  datatype Env = Env(ctxp: u64, calls: nat -> Call, sys: Guest -> SysResult)

  predicate ValidEnv(env: Env) { env.ctxp + CTX_SIZE <= TWO_64 }

  /** `execute_block`: call the code with the context pointer in RDI. A fault ends in the signal
      handler, which sets the crash flag; running over the end of the code counts as one. */
  function Execute(env: Env, n: nat, code: seq<u8>, g: Guest): Guest
  {
    var o := Run(code, 0, Entry(g, env.ctxp, env.calls(n)));
    if o.Returned? && Mapped(o.m.mem, env.ctxp, CTX_SIZE) then ViewAt(o.m.mem, env.ctxp, g.regions)
    else g.(ctx := g.ctx.Crash())
  }

  function Syscall(env: Env, g: Guest): Guest
  {
    var r := env.sys(g.(ctx := g.ctx.Next()));
    r.guest.(ctx := r.guest.ctx.SetReg(0, U64(r.result)))
  }

  predicate Running(g: Guest) { !g.ctx.Crashed() && !g.ctx.Exited() }

  // ----- one iteration -----

  datatype Engine = Engine(g: Guest, cache: CacheState, pool: seq<u8>, iter: nat)

  /** `translate_block` gets as far as emitting code. */
  predicate Translatable(e: Engine)
  { |BlockAt(e.g.mem, e.g.ctx.pc)| > 0 && PoolFits(e.cache, SLOT) }

  ghost function CacheAfterTranslate(e: Engine): CacheState
  {
    var pc := e.g.ctx.pc;
    var ds := BlockAt(e.g.mem, pc);
    if |ds| == 0 then e.cache
    else if !PoolFits(e.cache, SLOT) then AfterAlloc(e.cache, SLOT)
    else AfterInsert(AfterAlloc(e.cache, SLOT), pc, e.cache.used, |SlotCode(ds, pc)|, |ds|)
  }

  /** The pool changes in the slot at `at` only, which receives `code`. */
  predicate PoolWritten(pool: seq<u8>, pool': seq<u8>, at: nat, code: seq<u8>)
  {
    && |pool'| == |pool| && at + SLOT <= |pool|
    && pool'[..at] == pool[..at] && pool'[at + SLOT..] == pool[at + SLOT..]
    && |code| <= SLOT && pool'[at..at + |code|] == code
  }

  predicate InPool(pool: seq<u8>, at: nat, size: nat) { at + size <= |pool| }

  function CodeAt(pool: seq<u8>, at: nat, size: nat): seq<u8>
  { if InPool(pool, at, size) then pool[at..at + size] else [] }

  /** One iteration of the loop takes `e` to `e'`. */
  ghost predicate Iterates(env: Env, e: Engine, e': Engine)
  {
    var pc := e.g.ctx.pc;
    if Hit(e.cache, pc) then
      var b := e.cache.blocks[pc];
      e' == Engine(Execute(env, e.iter, CodeAt(e.pool, b.hostCode, b.hostCodeSize), e.g),
                   AfterLookup(e.cache, pc), e.pool, e.iter + 1)
    else if !Mapped(e.g.mem, pc, 4) then false
    else if IsSvc(Read32(e.g.mem, pc)) then e' == e.(g := Syscall(env, e.g), iter := e.iter + 1)
    else if Translatable(e) then
      var code := SlotCode(BlockAt(e.g.mem, pc), pc);
      && PoolWritten(e.pool, e'.pool, e.cache.used, code)
      && e' == Engine(Execute(env, e.iter, CodeAt(e'.pool, e.cache.used, |code|), e.g),
                      CacheAfterTranslate(e), e'.pool, e.iter + 1)
    else
      var a := Decoder.Decode(Read32(e.g.mem, pc));
      if a.ok then e' == e.(g := Exec(a.out, e.g), cache := CacheAfterTranslate(e), iter := e.iter + 1)
      else e' == e.(g := e.g.(ctx := e.g.ctx.Crash()), cache := CacheAfterTranslate(e))
  }

  predicate Continues(e: Engine) { Running(e.g) && e.iter < MAX_ITER }

  /** The states at the head of the loop, in order. */
  ghost predicate Trace(env: Env, t: seq<Engine>)
  { |t| > 0 && forall i :: 0 <= i < |t| - 1 ==> Continues(t[i]) && Iterates(env, t[i], t[i + 1]) }

  lemma TraceFront(env: Env, t: seq<Engine>)
    requires Trace(env, t) && |t| > 1
    ensures Trace(env, t[..|t| - 1])
  {
    hide Iterates, Continues;
    var f := t[..|t| - 1];
    forall i | 0 <= i < |f| - 1 ensures Continues(f[i]) && Iterates(env, f[i], f[i + 1]) {
      assert f[i] == t[i] && f[i + 1] == t[i + 1];
    }
  }

  lemma TraceLast(env: Env, t: seq<Engine>)
    requires Trace(env, t) && |t| > 1
    ensures Continues(t[|t| - 2]) && Iterates(env, t[|t| - 2], t[|t| - 1])
  {}

  // ----- block shape -----

  /** What `translate_block` collected at `pc`: consecutive words that decode and are no SVC, a
      branch only at the end. */
  predicate Shaped(mem: Mem, pc: u64, ds: seq<DecodedInstr>)
  {
    && (forall i :: 0 <= i < |ds| ==> CollectedAt(mem, U64(pc + 4 * i), ds[i]))
    && (forall i :: 0 <= i < |ds| - 1 ==> !EndsCollect(ds[i]))
  }

  predicate CollectedAt(mem: Mem, pc: u64, d: DecodedInstr)
  { Mapped(mem, pc, 4) && !IsSvc(Read32(mem, pc)) && Decoder.Decode(Read32(mem, pc)) == Attempt(true, d) }

  lemma CandidateTaken(mem: Mem, pc: u64)
    ensures Candidate(mem, pc).ok ==> CollectedAt(mem, pc, Candidate(mem, pc).out)
  { hide Decoder.Decode, Read32; }

  lemma ShapedMore(mem: Mem, pc: u64, d: DecodedInstr, rest: seq<DecodedInstr>)
    requires CollectedAt(mem, pc, d) && Shaped(mem, U64(pc + 4), rest) && (|rest| > 0 ==> !EndsCollect(d))
    ensures Shaped(mem, pc, [d] + rest)
  {
    hide CollectedAt, EndsCollect;
    var ds := [d] + rest;
    forall i | 0 <= i < |ds| ensures CollectedAt(mem, U64(pc + 4 * i), ds[i]) {
      if i > 0 {
        assert CollectedAt(mem, U64(U64(pc + 4) + 4 * (i - 1)), rest[i - 1]);
        IR.PcAdvance(pc, 4, 4 * (i - 1));
      }
    }
    assert forall i :: 0 < i < |ds| ==> ds[i] == rest[i - 1];
  }

  lemma {:induction false} CollectShape(mem: Mem, pc: u64, n: nat)
    ensures Shaped(mem, pc, Collect(mem, pc, n))
    decreases n
  {
    hide Candidate, CollectedAt, Collect;
    CollectStep(mem, pc, n);
    CandidateTaken(mem, pc);
    var a := Candidate(mem, pc);
    if n > 0 && a.ok {
      assert Shaped(mem, U64(pc + 4), []);
      if !EndsCollect(a.out) { CollectShape(mem, U64(pc + 4), n - 1); }
      hide Shaped, EndsCollect;
      ShapedMore(mem, pc, a.out, if EndsCollect(a.out) then [] else Collect(mem, U64(pc + 4), n - 1));
    }
  }

  /** Every block covers 1 to 64 consecutive words, has no SVC, a branch only as its last instruction,
      and the builder consumes all of it, so its `arm_pc_end` is the engine's fall-through pc. */
  lemma BlockShape(mem: Mem, pc: u64)
    ensures var ds := BlockAt(mem, pc);
            |ds| <= 64 && Shaped(mem, pc, ds) && IR.Consumed(ds) == |ds| &&
            forall d :: d in ds ==> DecoderShaped(d)
  {
    hide Decoder.Decode, Read32, Mapped, DecoderShaped;
    var ds := BlockAt(mem, pc);
    CollectShape(mem, pc, MAX_BLOCK);
    forall d | d in ds ensures DecoderShaped(d) && (IR.EndsBlock(d) <==> EndsCollect(d)) {
      var i :| 0 <= i < |ds| && ds[i] == d;
      assert CollectedAt(mem, U64(pc + 4 * i), ds[i]);
      DecodeShape(Read32(mem, U64(pc + 4 * i)));
      ShapedEnds(d);
    }
    AllConsumed(ds);
  }

  lemma ShapedEnds(d: DecodedInstr)
    requires DecoderShaped(d)
    ensures IR.EndsBlock(d) <==> EndsCollect(d)
  {}

  lemma {:induction false} AllConsumed(ds: seq<DecodedInstr>)
    requires forall i :: 0 <= i < |ds| - 1 ==> !IR.EndsBlock(ds[i])
    ensures IR.Consumed(ds) == |ds|
    decreases |ds|
  { if |ds| > 0 { AllConsumed(ds[1..]); } }

  // ----- termination -----

  /** Every iteration raises the counter or leaves a state the loop stops in, so no run has more than
      `MAX_ITER` + 1 iterations. */
  lemma IterationProgress(env: Env, e: Engine, e': Engine)
    requires Iterates(env, e, e')
    ensures e'.iter == e.iter + 1 || (e'.iter == e.iter && !Continues(e'))
  {
    CrashStops(e.g.ctx);
    hide Execute, Exec, Syscall, Decoder.Decode, SlotCode, Collect, Read32, Mapped, AfterInsert, AfterAlloc,
      AfterLookup, PoolWritten, CodeAt, PoolFits, CacheAfterTranslate, IsSvc, CPUContext.Crash,
      CPUContext.Crashed, CPUContext.Exited;
  }

  lemma CrashStops(c: CPUContext)
    ensures c.Crash().Crashed()
  {}

  lemma {:induction false} RunsEnd(env: Env, t: seq<Engine>)
    requires Trace(env, t) && t[0].iter <= MAX_ITER
    ensures |t| <= 10_000_002 - t[0].iter
    ensures t[|t| - 1].iter <= 10_000_000
    ensures Continues(t[|t| - 1]) ==> t[|t| - 1].iter == t[0].iter + |t| - 1
    ensures t[|t| - 1].iter >= t[0].iter + |t| - 2
    decreases |t|
  {
    hide Iterates;
    if |t| > 1 {
      TraceFront(env, t);
      TraceLast(env, t);
      RunsEnd(env, t[..|t| - 1]);
      IterationProgress(env, t[|t| - 2], t[|t| - 1]);
    }
  }

  // ----- slots -----

  /** Every cached block has its own 4096-byte slot below the allocation mark. */
  predicate SlotsOk(e: Engine)
  {
    && e.cache.used % SLOT == 0 && e.cache.used <= POOL_SIZE == |e.pool|
    && (forall k :: k in e.cache.blocks ==> InSlot(e.cache.blocks[k], e.cache.used))
    && (forall j, k :: j in e.cache.blocks && k in e.cache.blocks && j != k ==>
          e.cache.blocks[j].hostCode != e.cache.blocks[k].hostCode)
  }

  predicate InSlot(b: BlockInfo, used: nat)
  { b.hostCode % SLOT == 0 && b.hostCode + SLOT <= used && b.hostCodeSize <= SLOT }

  /** Distinct slots do not overlap. */
  lemma SlotsDisjoint(a: BlockInfo, b: BlockInfo, used: nat)
    requires InSlot(a, used) && InSlot(b, used) && a.hostCode != b.hostCode
    ensures a.hostCode + a.hostCodeSize <= b.hostCode || b.hostCode + b.hostCodeSize <= a.hostCode
  {}

  lemma SlotsKept(e: Engine, e': Engine)
    requires SlotsOk(e) && |e'.pool| == |e.pool| && e'.cache.used == e.cache.used
    requires forall k :: k in e'.cache.blocks ==>
               && k in e.cache.blocks
               && e'.cache.blocks[k].hostCode == e.cache.blocks[k].hostCode
               && e'.cache.blocks[k].hostCodeSize == e.cache.blocks[k].hostCodeSize
    ensures SlotsOk(e')
  {}

  lemma SlotsGrow(e: Engine, pc: u64, size: nat, count: nat, pool: seq<u8>, g: Guest, iter: nat)
    requires SlotsOk(e) && PoolFits(e.cache, SLOT) && size <= SLOT && |pool| == |e.pool|
    ensures SlotsOk(Engine(g, AfterInsert(AfterAlloc(e.cache, SLOT), pc, e.cache.used, size, count), pool, iter))
    ensures AfterInsert(AfterAlloc(e.cache, SLOT), pc, e.cache.used, size, count).used == e.cache.used + SLOT
  {
    var c1 := AfterAlloc(e.cache, SLOT);
    EvictKeeps(c1);
    hide Evict, InSlot;
    var used := e.cache.used;
    var c2 := AfterInsert(c1, pc, used, size, count);
    forall k | k in c2.blocks && k != pc ensures k in e.cache.blocks && c2.blocks[k] == e.cache.blocks[k] {}
    forall k | k in c2.blocks ensures InSlot(c2.blocks[k], used + SLOT) && (k != pc ==> c2.blocks[k].hostCode != used) {
      if k == pc { NewSlot(c2.blocks[k], used); } else { OldSlot(c2.blocks[k], used); }
    }
    SlotAligned(used);
  }

  lemma OldSlot(b: BlockInfo, used: nat)
    requires InSlot(b, used)
    ensures InSlot(b, used + SLOT) && b.hostCode != used
  {}

  lemma NewSlot(b: BlockInfo, used: nat)
    requires used % SLOT == 0 && b.hostCode == used && b.hostCodeSize <= SLOT
    ensures InSlot(b, used + SLOT)
  {}

  lemma SlotAligned(used: nat)
    requires used % SLOT == 0
    ensures (used + SLOT) % SLOT == 0
  {}

  /** The iteration translates a block. */
  predicate Translating(e: Engine)
  { !Hit(e.cache, e.g.ctx.pc) && Mapped(e.g.mem, e.g.ctx.pc, 4) && !IsSvc(Read32(e.g.mem, e.g.ctx.pc)) && Translatable(e) }

  lemma SlotStep(env: Env, e: Engine, e': Engine)
    requires SlotsOk(e) && Iterates(env, e, e')
    ensures SlotsOk(e') && e'.cache.used == e.cache.used + (if Translating(e) then SLOT else 0)
    ensures e'.pool[..e.cache.used] == e.pool[..e.cache.used]
  {
    hide Execute, Exec, Syscall, Decoder.Decode, SlotCode, Collect, Read32, Mapped, SlotsOk, AfterInsert, Evict, PoolFits;
    var pc := e.g.ctx.pc;
    if Translating(e) {
      var ds := BlockAt(e.g.mem, pc);
      SlotsGrow(e, pc, |SlotCode(ds, pc)|, |ds|, e'.pool, e'.g, e'.iter);
    } else {
      EvictKeeps(e.cache);
      SlotsKept(e, e');
    }
  }

  /** The number of translations in a run. */
  function Translations(t: seq<Engine>): nat
  { if |t| <= 1 then 0 else Translations(t[..|t| - 1]) + if Translating(t[|t| - 2]) then 1 else 0 }

  /** Code slots never interfere, in any run: cached blocks stay in the pool in pairwise disjoint slots,
      the bytes below an allocation mark never change again, and at most 16384 translations succeed. */
  lemma {:induction false} SlotsNeverInterfere(env: Env, t: seq<Engine>)
    requires Trace(env, t) && SlotsOk(t[0])
    ensures var last := t[|t| - 1];
            && SlotsOk(last)
            && last.cache.used == t[0].cache.used + SLOT * Translations(t)
            && Translations(t) <= 16384
    ensures forall i :: 0 <= i < |t| ==>
              t[i].cache.used <= t[|t| - 1].cache.used && |t[i].pool| == |t[|t| - 1].pool| == POOL_SIZE
              && t[|t| - 1].pool[..t[i].cache.used] == t[i].pool[..t[i].cache.used]
    decreases |t|
  {
    hide Iterates, Translating, Continues;
    if |t| > 1 {
      var f := t[..|t| - 1];
      TraceFront(env, t);
      TraceLast(env, t);
      SlotsNeverInterfere(env, f);
      var e, e' := t[|t| - 2], t[|t| - 1];
      assert f[|f| - 1] == e && f[0] == t[0];
      SlotStep(env, e, e');
      forall i | 0 <= i < |t| - 1
        ensures t[i].cache.used <= e'.cache.used && |t[i].pool| == |e'.pool| == POOL_SIZE
                && e'.pool[..t[i].cache.used] == t[i].pool[..t[i].cache.used]
      {
        assert f[i] == t[i];
        var u := t[i].cache.used;
        assert e'.pool[..u] == e'.pool[..e.cache.used][..u];
        assert e.pool[..u] == e.pool[..e.cache.used][..u];
      }
    }
  }
}
