/** The run loop is invisible: whatever the cache does, every state at the head of the loop is one that
    plain one-at-a-time interpretation reaches. */
module WholeRun {
  import opened Words
  import opened Guest
  import opened View
  import opened HostImage
  import opened Decoder
  import opened Interp
  import opened Exact
  import opened Cache
  import opened Pipeline
  import opened RunLoop
  import X86
  import IR
  import Emitter
  import Targets

  // ----- plain interpretation -----

  /** One instruction of plain interpretation; a stopped guest stays as it is. */
  function Interpret(env: Env, g: Guest): Guest
  {
    if !Running(g) || !Mapped(g.mem, g.ctx.pc, 4) then g
    else if IsSvc(Read32(g.mem, g.ctx.pc)) then Syscall(env, g)
    else Decoded(Decoder.Decode(Read32(g.mem, g.ctx.pc)), g)
  }

  function Decoded(a: Attempt, g: Guest): Guest
  { if a.ok then Exec(a.out, g) else g.(ctx := g.ctx.Crash()) }

  function InterpretN(env: Env, g: Guest, n: nat): Guest
    decreases n
  { if n == 0 then g else InterpretN(env, Interpret(env, g), n - 1) }

  lemma {:induction false} InterpretMore(env: Env, g: Guest, a: nat, b: nat)
    ensures InterpretN(env, g, a + b) == InterpretN(env, InterpretN(env, g, a), b)
    decreases a
  {
    hide Interpret;
    if a > 0 { InterpretMore(env, Interpret(env, g), a - 1, b); }
  }

  // ----- the programs the theorem is about -----

  /** Memory holds the program text unchanged. */
  predicate HoldsText(mem: Mem, text: Mem) { forall a :: a in text ==> a in mem && mem[a] == text[a] }

  /** The next instruction of a running guest lies in the text and is an SVC, a word that does not
      decode, or a `JitExact` instruction whose accesses are allowed. No guest memory lies in the
      context. */
  predicate Good(env: Env, text: Mem, g: Guest)
  {
    && HoldsText(g.mem, text) && ContextFree(g, env.ctxp)
    && (Running(g) ==> Mapped(text, g.ctx.pc, 4) && GoodNext(Candidate(text, g.ctx.pc), g))
  }

  predicate GoodNext(a: Attempt, g: Guest) { a.ok ==> JitExact(a.out) && AccessOk(a.out, g) }

  /** Every state plain interpretation reaches from `g` is good. */
  ghost predicate GoodRun(env: Env, text: Mem, g: Guest)
  { forall n: nat :: Good(env, text, InterpretN(env, g, n)) }

  lemma GoodLater(env: Env, text: Mem, g: Guest, n: nat)
    requires GoodRun(env, text, g)
    ensures GoodRun(env, text, InterpretN(env, g, n)) && Good(env, text, g)
  {
    hide Good, InterpretN;
    assert InterpretN(env, g, 0) == g by { Zero(env, g); }
    assert Good(env, text, InterpretN(env, g, 0));
    forall k: nat ensures Good(env, text, InterpretN(env, InterpretN(env, g, n), k)) {
      InterpretMore(env, g, n, k);
    }
  }

  lemma Zero(env: Env, g: Guest)
    ensures InterpretN(env, g, 0) == g && InterpretN(env, g, 1) == Interpret(env, g)
  {
    hide Interpret;
    assert InterpretN(env, Interpret(env, g), 0) == Interpret(env, g);
  }

  // ----- text words -----

  lemma TextWord(mem: Mem, text: Mem, pc: u64)
    requires HoldsText(mem, text) && Mapped(text, pc, 4)
    ensures Mapped(mem, pc, 4) && Read32(mem, pc) == Read32(text, pc)
  {
    assert forall k :: pc <= k < pc + 4 ==> k in text;
    assert ReadBytes(mem, pc, 4) == ReadBytes(text, pc, 4);
  }

  lemma SameCandidate(mem: Mem, text: Mem, pc: u64)
    requires HoldsText(mem, text) && Mapped(text, pc, 4)
    ensures Candidate(mem, pc) == Candidate(text, pc)
  {
    TextWord(mem, text, pc);
    hide Decoder.Decode, Read32, Mapped;
  }

  /** The words looked at while collecting all lie in the text. */
  predicate InText(text: Mem, pc: u64, n: nat)
    decreases n
  {
    n == 0 ||
    (Mapped(text, pc, 4) &&
     var a := Candidate(text, pc); (!a.ok || EndsCollect(a.out) || InText(text, U64(pc + 4), n - 1)))
  }

  lemma {:induction false} CollectFromText(mem: Mem, text: Mem, pc: u64, n: nat)
    requires HoldsText(mem, text) && InText(text, pc, n)
    ensures Collect(mem, pc, n) == Collect(text, pc, n)
    decreases n
  {
    hide Candidate, HoldsText, Mapped;
    if n > 0 {
      SameCandidate(mem, text, pc);
      var a := Candidate(text, pc);
      if a.ok && !EndsCollect(a.out) { CollectFromText(mem, text, U64(pc + 4), n - 1); }
    }
  }

  // ----- a block, reached by a good run -----

  lemma CandidateShape(mem: Mem, pc: u64)
    ensures var a := Candidate(mem, pc); a.ok ==> DecoderShaped(a.out) && (IR.EndsBlock(a.out) <==> EndsCollect(a.out))
  {
    hide Decoder.Decode, Read32, DecoderShaped;
    if Candidate(mem, pc).ok {
      DecodeShape(Read32(mem, pc));
      ShapedEnds(Candidate(mem, pc).out);
    }
  }

  /** Exact instructions never stop the guest, and only branches leave the straight line. */
  lemma ExactGoesOn(d: DecodedInstr, g: Guest)
    requires DecoderShaped(d) && JitExact(d) && AccessOk(d, g)
    ensures Exec(d, g).ctx.stateFlags == g.ctx.stateFlags
    ensures !EndsCollect(d) ==> Exec(d, g).ctx.pc == U64(g.ctx.pc + 4)
  { hide Pow2, CheckPerms, ReadBytes, UnLe, WriteBytes, And64, Or64, Mapped, AccessAddr; }

  /** Interpreting a candidate is executing it. */
  lemma InterpretCandidate(env: Env, text: Mem, g: Guest)
    requires Good(env, text, g) && Running(g) && Candidate(text, g.ctx.pc).ok
    ensures Interpret(env, g) == Exec(Candidate(text, g.ctx.pc).out, g)
  {
    TextWord(g.mem, text, g.ctx.pc);
    hide Decoder.Decode, Read32, Mapped, Exec, HoldsText, ContextFree;
  }

  predicate Reached(env: Env, g: Guest, ds: seq<DecodedInstr>)
  { ExactBlock(ds) && AllAccessOk(ds, g) && ExecAll(ds, g) == InterpretN(env, g, |ds|) }

  lemma ReachedMore(env: Env, g: Guest, d: DecodedInstr, rest: seq<DecodedInstr>)
    requires DecoderShaped(d) && JitExact(d) && AccessOk(d, g) && Interpret(env, g) == Exec(d, g)
    requires Reached(env, Exec(d, g), rest) && (|rest| > 0 ==> !IR.EndsBlock(d))
    ensures Reached(env, g, [d] + rest)
  {
    hide Exec, AccessOk, JitExact, DecoderShaped, Interpret, IR.EndsBlock;
    var ds := [d] + rest;
    assert ds[1..] == rest && ds[0] == d;
  }

  lemma ReachedNone(env: Env, g: Guest)
    ensures Reached(env, g, [])
  {}

  /** A good run reaches the instructions of the block at its pc one after the other. */
  lemma {:induction false} BlockReached(env: Env, text: Mem, g: Guest, n: nat)
    requires GoodRun(env, text, g) && Running(g)
    ensures InText(text, g.ctx.pc, n) && Reached(env, g, Collect(text, g.ctx.pc, n))
    decreases n
  {
    hide Candidate, Mapped, Reached, Exec, Interpret, GoodRun, InterpretN, JitExact, AccessOk, DecoderShaped,
      HoldsText, ContextFree;
    GoodLater(env, text, g, 1);
    ReachedNone(env, g);
    var pc := g.ctx.pc;
    var a := Candidate(text, pc);
    if n > 0 && a.ok {
      InterpretCandidate(env, text, g);
      CandidateShape(text, pc);
      ExactGoesOn(a.out, g);
      var g1 := Exec(a.out, g);
      Zero(env, g);
      ReachedNone(env, g1);
      if EndsCollect(a.out) {
        ReachedMore(env, g, a.out, []);
      } else {
        BlockReached(env, text, g1, n - 1);
        ReachedMore(env, g, a.out, Collect(text, g1.ctx.pc, n - 1));
      }
    }
  }

  // ----- executing the code of a block -----

  lemma ExecuteExact(env: Env, n: nat, g: Guest, ds: seq<DecodedInstr>)
    requires ValidEnv(env) && ContextFree(g, env.ctxp) && ExactBlock(ds) && AllAccessOk(ds, g)
    ensures Execute(env, n, Translation(ds, g.ctx.pc), g) == ExecAll(ds, g)
  {
    hide X86.Run, ExactBlock, AllAccessOk, ExecAll, Translation, Image, ViewAt, ContextFree;
    var p := env.ctxp;
    var code := Translation(ds, g.ctx.pc);
    var m := Entry(g, p, env.calls(n));
    ImageView(g, p);
    assert Emitter.At(code, 0, code);
    var m' := TranslationExact(ds, g.ctx.pc, code, m, p, g.regions);
  }

  // ----- the invariant -----

  /** A cached block is the translation of the text at its pc. */
  predicate CodeOk(text: Mem, pool: seq<u8>, k: u64, b: BlockInfo)
  {
    var ds := BlockAt(text, k);
    && b.armInstrCount == |ds| && |SlotCode(ds, k)| <= SLOT
    && b.hostCodeSize == |SlotCode(ds, k)| && CodeAt(pool, b.hostCode, b.hostCodeSize) == SlotCode(ds, k)
  }

  predicate CacheOk(text: Mem, e: Engine)
  { SlotsOk(e) && forall k :: k in e.cache.blocks ==> CodeOk(text, e.pool, k, e.cache.blocks[k]) }

  /** The interpreter steps one iteration makes. */
  function Advance(e: Engine): nat
  {
    var pc := e.g.ctx.pc;
    if Hit(e.cache, pc) then e.cache.blocks[pc].armInstrCount
    else if Translating(e) then |BlockAt(e.g.mem, pc)|
    else 1
  }

  lemma RunBlock(env: Env, n: nat, text: Mem, g: Guest)
    requires ValidEnv(env) && GoodRun(env, text, g) && Running(g)
    ensures var ds := BlockAt(text, g.ctx.pc);
            && BlockAt(g.mem, g.ctx.pc) == ds && |SlotCode(ds, g.ctx.pc)| <= SLOT
            && Execute(env, n, SlotCode(ds, g.ctx.pc), g) == InterpretN(env, g, |ds|)
  {
    hide GoodRun, Execute, InterpretN, Translation, SlotCode, Collect, InText, ExactBlock, AllAccessOk, ExecAll, HoldsText,
      ContextFree;
    var pc := g.ctx.pc;
    GoodLater(env, text, g, 0);
    BlockReached(env, text, g, MAX_BLOCK);
    CollectFromText(g.mem, text, pc, MAX_BLOCK);
    ExactFits(BlockAt(text, pc), pc);
    SlotCodeFits(BlockAt(text, pc), pc);
    ExecuteExact(env, n, g, BlockAt(text, pc));
  }

  lemma HitStep(env: Env, text: Mem, e: Engine, e': Engine)
    requires ValidEnv(env) && GoodRun(env, text, e.g) && CacheOk(text, e) && Continues(e) && Iterates(env, e, e')
    requires Hit(e.cache, e.g.ctx.pc)
    ensures e'.g == InterpretN(env, e.g, Advance(e))
  {
    hide GoodRun, Execute, InterpretN, SlotCode, Collect, SlotsOk, CodeAt;
    RunBlock(env, e.iter, text, e.g);
  }

  lemma FreshStep(env: Env, text: Mem, e: Engine, e': Engine)
    requires ValidEnv(env) && GoodRun(env, text, e.g) && CacheOk(text, e) && Continues(e) && Iterates(env, e, e')
    requires Translating(e)
    ensures e'.g == InterpretN(env, e.g, Advance(e))
    ensures var code := SlotCode(BlockAt(text, e.g.ctx.pc), e.g.ctx.pc); CodeAt(e'.pool, e.cache.used, |code|) == code
  {
    hide GoodRun, Execute, InterpretN, SlotCode, Collect, SlotsOk, AfterInsert, AfterAlloc, Read32, Mapped;
    RunBlock(env, e.iter, text, e.g);
  }

  /** An SVC, a word that does not decode, or the fallback once the pool is exhausted. */
  lemma SingleStep(env: Env, text: Mem, e: Engine, e': Engine)
    requires GoodRun(env, text, e.g) && Continues(e) && Iterates(env, e, e')
    requires !Hit(e.cache, e.g.ctx.pc) && !Translating(e)
    ensures e'.g == InterpretN(env, e.g, 1)
  {
    hide GoodRun, Execute, InterpretN, SlotCode, Collect, AfterInsert, AfterAlloc, Read32, Mapped, Exec,
      Decoder.Decode, Syscall, Good;
    Zero(env, e.g);
  }

  // ----- the cache stays a cache of translations -----

  lemma CodeKept(text: Mem, e: Engine, e': Engine, k: u64)
    requires SlotsOk(e) && k in e.cache.blocks && CodeOk(text, e.pool, k, e.cache.blocks[k])
    requires |e'.pool| == |e.pool| && e'.pool[..e.cache.used] == e.pool[..e.cache.used]
    requires k in e'.cache.blocks
    requires e'.cache.blocks[k].hostCode == e.cache.blocks[k].hostCode
    requires e'.cache.blocks[k].hostCodeSize == e.cache.blocks[k].hostCodeSize
    requires e'.cache.blocks[k].armInstrCount == e.cache.blocks[k].armInstrCount
    ensures CodeOk(text, e'.pool, k, e'.cache.blocks[k])
  {
    hide SlotCode, Collect;
    var b, u := e.cache.blocks[k], e.cache.used;
    assert InSlot(b, u);
    assert e'.pool[b.hostCode..b.hostCode + b.hostCodeSize] == e'.pool[..u][b.hostCode..b.hostCode + b.hostCodeSize];
    assert e.pool[b.hostCode..b.hostCode + b.hostCodeSize] == e.pool[..u][b.hostCode..b.hostCode + b.hostCodeSize];
  }

  /** What an iteration does to an entry it keeps. */
  predicate SameCode(a: BlockInfo, b: BlockInfo)
  { a.hostCode == b.hostCode && a.hostCodeSize == b.hostCodeSize && a.armInstrCount == b.armInstrCount }

  lemma EntriesKept(env: Env, e: Engine, e': Engine)
    requires Iterates(env, e, e')
    ensures forall k :: k in e'.cache.blocks && !(Translating(e) && k == e.g.ctx.pc) ==>
              k in e.cache.blocks && SameCode(e'.cache.blocks[k], e.cache.blocks[k])
    ensures Translating(e) ==>
              var pc := e.g.ctx.pc; var ds := BlockAt(e.g.mem, pc);
              pc in e'.cache.blocks && var b := e'.cache.blocks[pc];
              b.hostCode == e.cache.used && b.hostCodeSize == |SlotCode(ds, pc)| && b.armInstrCount == |ds|
  {
    hide Execute, SlotCode, Collect, Read32, Mapped, Exec, Decoder.Decode, Syscall, Evict, PoolWritten;
    EvictKeeps(e.cache);
    EvictKeeps(AfterAlloc(e.cache, SLOT));
  }

  lemma CacheStep(env: Env, text: Mem, e: Engine, e': Engine)
    requires ValidEnv(env) && GoodRun(env, text, e.g) && CacheOk(text, e) && Continues(e) && Iterates(env, e, e')
    ensures CacheOk(text, e')
  {
    hide GoodRun, Execute, InterpretN, SlotCode, Collect, Iterates, Translating, SlotsOk, CodeAt;
    SlotStep(env, e, e');
    EntriesKept(env, e, e');
    PoolLength(env, e, e');
    if Translating(e) {
      RunBlock(env, e.iter, text, e.g);
      FreshStep(env, text, e, e');
    }
    forall k | k in e'.cache.blocks ensures CodeOk(text, e'.pool, k, e'.cache.blocks[k]) {
      if !(Translating(e) && k == e.g.ctx.pc) { CodeKept(text, e, e', k); }
    }
  }

  lemma PoolLength(env: Env, e: Engine, e': Engine)
    requires Iterates(env, e, e')
    ensures |e'.pool| == |e.pool|
  { hide Execute, SlotCode, Collect, Read32, Mapped, Exec, Decoder.Decode, Syscall, AfterInsert, AfterAlloc; }

  /** One iteration, whatever branch it takes, is exactly `Advance` steps of plain interpretation. */
  lemma IterationExact(env: Env, text: Mem, e: Engine, e': Engine)
    requires ValidEnv(env) && GoodRun(env, text, e.g) && CacheOk(text, e) && Continues(e) && Iterates(env, e, e')
    ensures e'.g == InterpretN(env, e.g, Advance(e))
    ensures CacheOk(text, e') && GoodRun(env, text, e'.g)
  {
    hide GoodRun, InterpretN, Iterates, CacheOk, Translating;
    if Hit(e.cache, e.g.ctx.pc) { HitStep(env, text, e, e'); HitNot(e); }
    else if Translating(e) { FreshStep(env, text, e, e'); }
    else { SingleStep(env, text, e, e'); }
    CacheStep(env, text, e, e');
    GoodLater(env, text, e.g, Advance(e));
  }

  lemma HitNot(e: Engine)
    ensures Hit(e.cache, e.g.ctx.pc) ==> !Translating(e)
  { hide Read32, Mapped, Collect; }

  // ----- whole runs -----

  /** The interpreter steps of a run. */
  function Steps(t: seq<Engine>): nat
  { if |t| <= 1 then 0 else Steps(t[..|t| - 1]) + Advance(t[|t| - 2]) }

  /** Whole-run refinement: for every program all of whose reached instructions are exact, every state
      at the head of the loop, after hits, fresh translations, retranslations of evicted blocks and
      interpreter fallbacks, is the state plain interpretation is in after as many steps as the executed
      blocks count instructions. */
  lemma {:induction false} WholeRunExact(env: Env, text: Mem, t: seq<Engine>)
    requires ValidEnv(env) && Trace(env, t) && GoodRun(env, text, t[0].g) && CacheOk(text, t[0])
    ensures t[|t| - 1].g == InterpretN(env, t[0].g, Steps(t))
    ensures CacheOk(text, t[|t| - 1]) && GoodRun(env, text, t[|t| - 1].g)
    decreases |t|
  {
    hide GoodRun, InterpretN, Iterates, CacheOk, Advance, Continues;
    if |t| == 1 {
      Zero(env, t[0].g);
    } else {
      var f := t[..|t| - 1];
      TraceFront(env, t);
      TraceLast(env, t);
      WholeRunExact(env, text, f);
      var e, e' := t[|t| - 2], t[|t| - 1];
      assert f[|f| - 1] == e && f[0] == t[0];
      IterationExact(env, text, e, e');
      InterpretMore(env, t[0].g, Steps(f), Advance(e));
    }
  }

  /** A fresh cache satisfies the invariant. */
  lemma FreshCacheOk(text: Mem, g: Guest, capacity: nat, pool: seq<u8>)
    requires |pool| == POOL_SIZE
    ensures CacheOk(text, Engine(g, Fresh(capacity), pool, 0))
  {}

  // ----- the hypothesis is met: a program that branches to itself -----

  /** The four bytes of `b .` */
  function SpinText(pc: u64): Mem { map[pc as int := 0, pc + 1 := 0, pc + 2 := 0, pc + 3 := 0x14] }

  lemma SpinWord(pc: u64)
    ensures Mapped(SpinText(pc), pc, 4) && Read32(SpinText(pc), pc) == 0x1400_0000
  {
    var s := ReadBytes(SpinText(pc), pc, 4);
    assert s == [0, 0, 0, 0x14];
    var last := s[1..][1..][1..];
    assert last[1..] == [] && last[0] == 0x14;
    assert UnLe(last) == 0x14;
    assert UnLe(s[1..][1..]) == 0x1400;
    assert UnLe(s[1..]) == 0x14_0000;
  }

  lemma SpinDecodes()
    ensures var a := Decoder.Decode(0x1400_0000); a.ok && a.out.opcode == 0x50 && a.out.branchOffset == 0
  {
    hide Decoder.Decode;
    Targets.BranchRouted(0x1400_0000);
    Targets.BranchFields(0x1400_0000, ZeroedInstr.(raw := 0x1400_0000));
  }

  lemma {:induction false} SpinStays(env: Env, g: Guest, n: nat)
    requires Interpret(env, g) == g
    ensures InterpretN(env, g, n) == g
    decreases n
  { hide Interpret; if n > 0 { SpinStays(env, g, n - 1); } }

  lemma SpinIsGood(env: Env, g: Guest)
    requires g.mem == SpinText(g.ctx.pc) && Running(g) && ContextFree(g, env.ctxp)
    ensures GoodRun(env, SpinText(g.ctx.pc), g)
  {
    var text := SpinText(g.ctx.pc);
    SpinWord(g.ctx.pc);
    SpinDecodes();
    hide Decoder.Decode, Read32, Mapped, SpinText;
    var d := Decoder.Decode(0x1400_0000).out;
    assert Candidate(text, g.ctx.pc) == Attempt(true, d);
    assert Exec(d, g) == g;
    assert Interpret(env, g) == g;
    assert Good(env, text, g);
    hide Good;
    forall n: nat ensures Good(env, text, InterpretN(env, g, n)) { SpinStays(env, g, n); }
  }
}
