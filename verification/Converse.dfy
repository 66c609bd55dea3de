/** The converse: outside `JitExact` there is, for every decoded instruction and every pc, a state in which
    running its translation and interpreting it leave different results. The states are ones a host can
    hold: guest memory is the few words the two engines touch and one stack word, the context lies apart
    from it. */
module Converse {
  import opened Words
  import opened Guest
  import opened View
  import opened HostImage
  import opened Decoder
  import opened Interp
  import opened IR
  import opened Denote
  import opened Exact
  import opened Pipeline
  import X86
  import Emitter
  import Lower
  import Refine
  import Steps
  import Spill
  import ControlFlow
  import FlagMerging
  import MergedCode

  // ----- running a translation -----

  /** The stack word below RSP. */
  function StackWord(call: Call): u64 { var top: int := call.regs[X86.RSP]; U64(top - 8) }

  /** A state a block can be called in: the context lies at `p`, apart from all guest memory, and the
      stack word is mapped. */
  predicate Runnable(g: Guest, p: u64, call: Call)
  { p + CTX_SIZE <= TWO_64 && ContextFree(g, p) && Mapped(g.mem, StackWord(call), 8) }

  /** Running the bytes of the translation of `d` returns with the context and memory the interpreter
      leaves, the stack word aside. */
  predicate AgreesOn(d: DecodedInstr, g: Guest, p: u64, call: Call)
  {
    var o := X86.Run(Translation([d], g.ctx.pc), 0, Entry(g, p, call));
    o.Returned? && Mapped(o.m.mem, p, CTX_SIZE) &&
    SameGuest(ViewAt(o.m.mem, p, g.regions), Exec(d, g), StackWord(call))
  }

  predicate SameGuest(x: Guest, y: Guest, stack: int)
  { x.ctx == y.ctx && x.regions == y.regions && MergedCode.EqualButWord(x.mem, y.mem, stack) }

  /** `d` is translated right at `pc`: in every state with allowed accesses. */
  ghost predicate AgreesEverywhere(d: DecodedInstr, pc: u64)
  {
    forall g: Guest, p: u64, call: Call :: g.ctx.pc == pc && Runnable(g, p, call) && AccessOk(d, g) ==> AgreesOn(d, g, p, call)
  }

  lemma OneTranslated(d: DecodedInstr, pc: u64)
    ensures BuildList([d], pc) == BuildInstr(d, pc)
    ensures Translation([d], pc) == Lower.BlockCode(FlagMerging.Merged(BuildInstr(d, pc)), U64(pc + 4))
  { hide BuildInstr, Lower.BlockCode; assert BuildList([], U64(pc + 4)) == []; }

  lemma EntryInside(g: Guest, p: u64, call: Call)
    requires Runnable(g, p, call)
    ensures var m := Entry(g, p, call);
            m.regs[X86.RDI] == p && Refine.Inside(m.Set(X86.R12, p), p) && ViewAt(m.mem, p, g.regions) == g
  { ImageView(g, p); }

  /** Exact instructions agree everywhere. */
  lemma ExactAgrees(d: DecodedInstr, g: Guest, p: u64, call: Call)
    requires DecoderShaped(d) && JitExact(d) && Runnable(g, p, call) && AccessOk(d, g)
    ensures AgreesOn(d, g, p, call)
  {
    hide X86.Run, Exec, AccessOk, JitExact, DecoderShaped, Translation, ViewAt, Entry, Runnable, Refine.Inside, EndsBlock;
    var code := Translation([d], g.ctx.pc);
    EntryInside(g, p, call);
    assert Emitter.At(code, 0, code);
    assert [d][1..] == [];
    assert ExecAll([], Exec(d, g)) == Exec(d, g) && AllAccessOk([], Exec(d, g));
    assert ExecAll([d], g) == Exec(d, g) && AllAccessOk([d], g);
    var m' := TranslationExact([d], g.ctx.pc, code, Entry(g, p, call), p, g.regions);
    InsideContext(m', p);
    SameMem(ViewAt(m'.mem, p, g.regions).mem, StackWord(call));
    assert Exec(d, g).regions == ViewAt(m'.mem, p, g.regions).regions;
  }

  lemma InsideContext(m: X86.Machine, p: int)
    requires Refine.Inside(m, p)
    ensures Mapped(m.mem, p, CTX_SIZE)
  {}

  lemma SameMem(x: Mem, a: int)
    ensures MergedCode.EqualButWord(x, x, a)
  {}

  // ----- states to part in -----

  predicate InSpan(a: int, n: int, k: int) { a <= k < a + n }

  function Span(a: int, n: nat, fill: u8): Mem { map k | a <= k < a + n && InSpan(a, n, k) :: fill }

  /** A page for the context, one for the stack, away from the words at `a` and `b`. */
  function Place(a: u64, b: u64): (p: u64)
    ensures Away(p, a) && Away(p, b) && p <= 0x3000
  { if Away(0x1000, a) && Away(0x1000, b) then 0x1000 else if Away(0x2000, a) && Away(0x2000, b) then 0x2000 else 0x3000 }

  function Stack(a: u64, b: u64): (s: u64)
    ensures Away(s, a) && Away(s, b) && 0x8000 <= s <= 0xA000
  { if Away(0x8000, a) && Away(0x8000, b) then 0x8000 else if Away(0x9000, a) && Away(0x9000, b) then 0x9000 else 0xA000 }

  predicate Away(p: int, a: int) { a + 16 <= p || p + CTX_SIZE <= a }

  /** Guest memory: 16 bytes at `a`, 16 at `b`, the stack word. */
  function Words2(a: u64, b: u64, fill: u8): Mem { Span(a, 16, fill) + Span(b, 16, fill) + Span(Stack(a, b), 8, fill) }

  function Blank(x: Regs, pc: u64): CPUContext { CPUContext(x, pc, 0, 0, seq(544, i => 0), 0, 0) }

  /** Everything is allowed, no flag is set. */
  function Sparse(c: CPUContext, a: u64, b: u64, fill: u8): Guest
  { Guest(c, Words2(a, b, fill), [MemRegion(0, TWO_64 - 1, Prot(true, true, true))]) }

  function AllRegs(v: u64): Regs { seq(32, i => v) }

  /** The guest memory of `g` is just these words. */
  predicate Fits(g: Guest, a: u64, b: u64)
  { g.mem.Keys == Words2(a, b, 0).Keys && g.regions == [MemRegion(0, TWO_64 - 1, Prot(true, true, true))] }

  function CallAt(stack: u64): Call
    requires stack <= 0xA000
  {
    Call(seq(16, i => if i == X86.RSP then stack + 8 else 0), X86.Flags(false, false, false, false, false, false))
  }

  lemma WordsMapped(a: u64, b: u64, fill: u8)
    ensures Mapped(Words2(a, b, fill), a, 16) && Mapped(Words2(a, b, fill), b, 16) && Mapped(Words2(a, b, fill), Stack(a, b), 8)
    ensures forall k :: k in Words2(a, b, fill) ==> InSpan(a, 16, k) || InSpan(b, 16, k) || InSpan(Stack(a, b), 8, k)
  {
    var m, st := Words2(a, b, fill), Stack(a, b);
    forall k | a <= k < a + 16 ensures k in m { assert InSpan(a, 16, k); }
    forall k | b <= k < b + 16 ensures k in m { assert InSpan(b, 16, k); }
    forall k | st <= k < st + 8 ensures k in m { assert InSpan(st, 8, k); }
  }

  lemma FitsMapped(g: Guest, a: u64, b: u64)
    requires Fits(g, a, b)
    ensures Mapped(g.mem, a, 16) && Mapped(g.mem, b, 16) && Mapped(g.mem, Stack(a, b), 8)
    ensures forall k :: k in g.mem ==> InSpan(a, 16, k) || InSpan(b, 16, k) || InSpan(Stack(a, b), 8, k)
  {
    hide Words2;
    WordsMapped(a, b, 0);
    assert forall k :: k in g.mem <==> k in g.mem.Keys;
    assert forall k :: k in Words2(a, b, 0) <==> k in Words2(a, b, 0).Keys;
  }

  lemma SparseFits(c: CPUContext, a: u64, b: u64, fill: u8)
    ensures Fits(Sparse(c, a, b, fill), a, b)
    ensures forall k :: k in Words2(a, b, fill) ==> Words2(a, b, fill)[k] == fill
  { assert Words2(a, b, fill).Keys == Words2(a, b, 0).Keys; }

  /** Any access inside the words is allowed. */
  lemma FitsAllowed(g: Guest, a: u64, b: u64, x: u64, n: nat)
    requires Fits(g, a, b) && Mapped(g.mem, x, n)
    ensures g.CanRead(x, n) && g.CanWrite(x, n)
  {}

  lemma FitsRunnable(g: Guest, a: u64, b: u64)
    requires Fits(g, a, b)
    ensures Runnable(g, Place(a, b), CallAt(Stack(a, b)))
  {
    FitsMapped(g, a, b);
    var p, st := Place(a, b), Stack(a, b);
    forall k | k in g.mem ensures !InContext(p, k) {}
    assert StackWord(CallAt(st)) == st;
  }

  // ----- parting on IR with a denotation -----

  /** The results differ in the context or in a byte that is not on the stack. */
  predicate Differs(x: Guest, y: Guest, stack: int, k: int)
  { x.ctx != y.ctx || (k in x.mem && k in y.mem && x.mem[k] != y.mem[k] && !(stack <= k < stack + 8)) }

  /** The denotation of the translation of `d` is not what the interpreter does. */
  predicate Parts(d: DecodedInstr, g: Guest, a: u64, b: u64, k: int)
  {
    var irs := BuildInstr(d, g.ctx.pc);
    && Fits(g, a, b) && AccessOk(d, g)
    && (forall ir :: ir in irs ==> Denotable(ir)) && RunsClean(irs, U64(g.ctx.pc + 4), g)
    && Differs(Block(irs, U64(g.ctx.pc + 4), g), Exec(d, g), Stack(a, b), k)
  }

  /** What is wanted of a witness. */
  predicate Disagrees(d: DecodedInstr, g: Guest, p: u64, call: Call)
  { Runnable(g, p, call) && AccessOk(d, g) && !AgreesOn(d, g, p, call) }

  lemma PartsDisagree(d: DecodedInstr, g: Guest, a: u64, b: u64, k: int)
    requires Parts(d, g, a, b, k)
    ensures Disagrees(d, g, Place(a, b), CallAt(Stack(a, b)))
  {
    hide X86.Run, Exec, AccessOk, Translation, ViewAt, Entry, Refine.Inside, BuildInstr, Denotable, Block, RunsClean, Fits,
      Lower.BlockCode, Runnable, Place, Stack, CallAt;
    var p, call := Place(a, b), CallAt(Stack(a, b));
    FitsRunnable(g, a, b);
    EntryInside(g, p, call);
    OneTranslated(d, g.ctx.pc);
    DenotableUnmarked(BuildInstr(d, g.ctx.pc));
    var code := Translation([d], g.ctx.pc);
    assert Emitter.At(code, 0, code);
    var m' := Refine.BlockRefines(BuildInstr(d, g.ctx.pc), U64(g.ctx.pc + 4), code, Entry(g, p, call), p, g.regions);
    InsideContext(m', p);
    StackIs(a, b);
  }

  lemma StackIs(a: u64, b: u64)
    ensures StackWord(CallAt(Stack(a, b))) == Stack(a, b)
  {}

  /** One operation that stays in the block. */
  lemma OneRuns(d: DecodedInstr, g: Guest, ir: IRInst, a: u64, b: u64, k: int)
    requires BuildInstr(d, g.ctx.pc) == [ir] && Denotable(ir) && !Exits(ir) && AccessesMapped(ir, g) && AccessOk(d, g)
    requires Fits(g, a, b) && Differs(AtPc(Body(ir, g), U64(g.ctx.pc + 4)), Exec(d, g), Stack(a, b), k)
    ensures Parts(d, g, a, b, k)
  {
    hide BuildInstr, Exec, Body, AccessesMapped, AccessOk, Denotable, Fits, Stack;
    var irs, ft := BuildInstr(d, g.ctx.pc), U64(g.ctx.pc + 4);
    assert irs[1..] == [];
    assert RunsClean(irs[1..], ft, Body(ir, g));
    assert RunsClean(irs, ft, g);
    assert Block(irs, ft, g) == Block(irs[1..], ft, Body(ir, g)) == AtPc(Body(ir, g), ft);
  }

  /** The opcodes `execute_decoded` has a case for. On any other it sets the crash flag; the
      translation never does. */
  predicate Known(d: DecodedInstr)
  {
    d.opcode in {0x00, 0x01, 0x10, 0x12, 0x14, 0x30, 0x31, 0x40, 0x80, 0x81, 0x90} ||
    0x20 <= d.opcode <= 0x25 || 0x50 <= d.opcode <= 0x58 || 0x60 <= d.opcode <= 0x63 || 0x70 <= d.opcode <= 0x73
  }

  /** A state for instructions that touch no memory. */
  function Still(x: Regs, pc: u64): Guest { Sparse(Blank(x, pc), 0x10_0000, 0x10_0000, 0) }

  lemma StillFits(x: Regs, pc: u64)
    ensures Fits(Still(x, pc), 0x10_0000, 0x10_0000)
  { SparseFits(Blank(x, pc), 0x10_0000, 0x10_0000, 0); }

  /** Parting in a state without guest accesses. */
  predicate StillParts(d: DecodedInstr, g: Guest, pc: u64) { g.ctx.pc == pc && Parts(d, g, 0x10_0000, 0x10_0000, 0) }

  lemma UnknownParts(d: DecodedInstr, pc: u64) returns (g: Guest)
    requires DecoderShaped(d) && !Known(d)
    ensures StillParts(d, g, pc)
  {
    hide Pow2, Fits, Parts, Words2, Stack;
    g := Still(AllRegs(0), pc);
    StillFits(AllRegs(0), pc);
    var ir := BuildInstr(d, pc)[0];
    assert BuildInstr(d, pc) == [ir];
    assert Body(ir, g).ctx.stateFlags == 0;
    assert Exec(d, g).ctx.stateFlags == 4;
    OneRuns(d, g, ir, 0x10_0000, 0x10_0000, 0);
  }

  /** ADD and SUB with a register operand: the interpreter adds the immediate field instead. */
  lemma RegisterOperandParts(d: DecodedInstr, pc: u64) returns (g: Guest)
    requires DecoderShaped(d) && d.opcode in {0x00, 0x01} && !d.setsFlags && d.rm < 32
    ensures StillParts(d, g, pc)
  {
    hide Pow2, Fits, Parts, Words2, Stack;
    var v := if d.imm == 0 then 1 else 0;
    g := Still(AllRegs(v), pc);
    StillFits(AllRegs(v), pc);
    var ir := BuildInstr(d, pc)[0];
    assert BuildInstr(d, pc) == [ir];
    assert Body(ir, g).ctx.x[d.rd] != Exec(d, g).ctx.x[d.rd];
    OneRuns(d, g, ir, 0x10_0000, 0x10_0000, 0);
  }

  /** MOV from X0: register 0 is taken for "no register". */
  lemma MoveFromX0Parts(d: DecodedInstr, pc: u64) returns (g: Guest)
    requires DecoderShaped(d) && d.opcode == 0x20 && d.rm == 0
    ensures StillParts(d, g, pc)
  {
    hide Pow2, Fits, Parts, Words2, Stack;
    g := Still(AllRegs(1), pc);
    StillFits(AllRegs(1), pc);
    var ir := BuildInstr(d, pc)[0];
    assert BuildInstr(d, pc) == [ir];
    assert Body(ir, g).ctx.x[d.rd] == 0 && Exec(d, g).ctx.x[d.rd] == 1;
    OneRuns(d, g, ir, 0x10_0000, 0x10_0000, 0);
  }

  lemma HalfwordPowers(k: nat)
    requires k in {0, 16, 32, 48}
    ensures Pow2(k) == if k == 0 then 1 else if k == 16 then 0x1_0000 else if k == 32 then TWO_32 else 0x1_0000_0000_0000
  {
    Pow2Byte(0); Pow2Byte(8); Pow2Byte(16); Pow2Byte(24); Pow2Byte(32); Pow2Byte(40);
  }

  /** MOVN and MOVK: lowered as a plain move of the 16-bit field. */
  lemma WideMoveParts(d: DecodedInstr, pc: u64) returns (g: Guest)
    requires DecoderShaped(d) && d.opcode in {0x21, 0x23}
    ensures StillParts(d, g, pc)
  {
    hide Pow2, Fits, Parts, Words2, Stack, Exec;
    g := Still(AllRegs(TWO_64 - 1), pc);
    StillFits(AllRegs(TWO_64 - 1), pc);
    var ir := BuildInstr(d, pc)[0];
    assert BuildInstr(d, pc) == [ir];
    WideMoveExec(d, g);
    OneRuns(d, g, ir, 0x10_0000, 0x10_0000, 0);
  }

  lemma WideMoveExec(d: DecodedInstr, g: Guest)
    requires DecoderShaped(d) && d.opcode in {0x21, 0x23} && g.ctx.x[d.rd] == TWO_64 - 1
    ensures Exec(d, g).ctx.x[d.rd] != d.imm
  {
    hide Pow2, BitAnd, BitOr, Bits;
    assert Bits(d.raw, 22, 21) < 4;
    var k := HalfwordShift(d);
    HalfwordPowers(k);
    Pow2Words();
    var hole: u64 := Not64(U64(0xFFFF * Pow2(k)));
    assert hole > 0xFFFF;
    if d.opcode == 0x23 {
      BitAndOnes(64, hole);
      BitOrBelow(64, hole, U64(d.imm * Pow2(k)));
      assert Exec(d, g).ctx.x[d.rd] >= hole;
    } else {
      assert Exec(d, g).ctx.x[d.rd] == Not64(U64(d.imm * Pow2(k)));
    }
  }

  /** An instruction without guest accesses that became a NOP. */
  lemma IdleParts(d: DecodedInstr, g: Guest)
    requires DecoderShaped(d) && d.opcode in {0x10, 0x12, 0x14, 0x52, 0x57, 0x58}
    requires Fits(g, 0x10_0000, 0x10_0000) && AtPc(g, U64(g.ctx.pc + 4)).ctx != Exec(d, g).ctx
    ensures StillParts(d, g, g.ctx.pc)
  {
    hide Exec, Parts, Fits, Stack;
    var ir := BuildInstr(d, g.ctx.pc)[0];
    assert BuildInstr(d, g.ctx.pc) == [ir] && ir.op.NOP? && Denotable(ir) && Body(ir, g) == g;
    OneRuns(d, g, ir, 0x10_0000, 0x10_0000, 0);
  }

  /** AND, ORR and EOR become a NOP. */
  lemma LogicalParts(d: DecodedInstr, pc: u64) returns (g: Guest)
    requires DecoderShaped(d) && d.opcode in {0x10, 0x12, 0x14}
    requires d.opcode != 0x14 ==> !(d.rd == d.rn == d.rm)
    ensures StillParts(d, g, pc)
  {
    hide Parts, Fits, Stack, Exec, Words2;
    var x: Regs := if d.opcode == 0x10 then AllRegs(0)[d.rd := 1]
                   else if d.opcode == 0x12 then AllRegs(1)[d.rd := 0] else AllRegs(1);
    g := Still(x, pc);
    StillFits(x, pc);
    LogicalExec(d, g);
    IdleParts(d, g);
  }

  lemma LogicalExec(d: DecodedInstr, g: Guest)
    requires DecoderShaped(d) && d.opcode in {0x10, 0x12, 0x14}
    requires d.opcode != 0x14 ==> !(d.rd == d.rn == d.rm)
    requires g.ctx.x == if d.opcode == 0x10 then AllRegs(0)[d.rd := 1]
                        else if d.opcode == 0x12 then AllRegs(1)[d.rd := 0] else AllRegs(1)
    ensures Exec(d, g).ctx.x[d.rd] != g.ctx.x[d.rd]
  {
    hide Pow2, BitAnd, BitOr, BitXor;
    Pow2Words();
    var x := g.ctx.x;
    BitZero(64, x[d.rn]);
    BitZero(64, x[d.rm]);
    BitOrBelow(64, x[d.rn], x[d.rm]);
    BitXorSelf(64, 1);
  }

  /** B and BL backwards: the interpreter zero-extends the 32-bit offset. */
  lemma BackwardParts(d: DecodedInstr, pc: u64) returns (g: Guest)
    requires DecoderShaped(d) && d.opcode in {0x50, 0x51} && d.branchOffset >= TWO_31
    ensures StillParts(d, g, pc)
  {
    hide Body, AccessesMapped, ExecBody, Fits, Stack, Words2;
    g := Still(AllRegs(0), pc);
    StillFits(AllRegs(0), pc);
    var irs := BuildInstr(d, pc);
    assert SignedTarget(pc, d.branchOffset) != U64(pc + d.branchOffset);
    if d.opcode == 0x51 {
      LinkRuns(irs, U64(pc + 4), g);
    } else {
      assert irs == [irs[0]] && irs[0].op.JMP? && Denotable(irs[0]);
    }
  }

  /** RET takes the `lr` slot, which BL never writes. */
  lemma ReturnParts(d: DecodedInstr, pc: u64) returns (g: Guest)
    requires DecoderShaped(d) && d.opcode == 0x53
    ensures StillParts(d, g, pc)
  {
    hide Body, AccessesMapped, ExecBody, Fits, Stack, Words2;
    g := Still(AllRegs(1), pc);
    StillFits(AllRegs(1), pc);
    var irs := BuildInstr(d, pc);
    assert irs == [irs[0]] && irs[0].op.RET? && Denotable(irs[0]);
  }

  lemma Leaves(d: DecodedInstr, g: Guest)
    requires DecoderShaped(d) && d.opcode in {0x52, 0x57, 0x58} && (d.opcode != 0x52 ==> d.branchOffset != 4)
    requires d.opcode == 0x52 || (d.imm <= 32 && (d.opcode == 0x57 <==> !Bit(g.ctx.x[d.rn], d.imm)))
    requires d.opcode == 0x52 ==> g.ctx.x[d.rn] == U64(g.ctx.pc + 5)
    ensures Exec(d, g).ctx.pc != U64(g.ctx.pc + 4)
  { hide Pow2, Bit; }

  /** BR, TBZ and TBNZ become a NOP, so control falls through. */
  lemma LostBranchParts(d: DecodedInstr, pc: u64) returns (g: Guest)
    requires DecoderShaped(d) && d.opcode in {0x52, 0x57, 0x58} && (d.opcode != 0x52 ==> d.branchOffset != 4)
    ensures StillParts(d, g, pc)
  {
    hide Pow2, Exec, Parts, Fits, Stack, Words2;
    var k := if d.opcode == 0x52 then 0 else d.imm;
    OwnBit(k);
    assert !Bit(0, k);
    hide Bit;
    var x := AllRegs(if d.opcode == 0x52 then U64(pc + 5) else if d.opcode == 0x57 then 0 else Pow2(k));
    g := Still(x, pc);
    StillFits(x, pc);
    Leaves(d, g);
    IdleParts(d, g);
  }

  lemma {:induction false} SmallPower(k: nat)
    requires k <= 32
    ensures Pow2(k) <= Pow2(32)
    decreases 32 - k
  { if k < 32 { SmallPower(k + 1); } }

  lemma OwnBit(k: nat)
    requires k <= 32
    ensures Pow2(k) < TWO_64 && Bit(Pow2(k), k)
  { Pow2Words(); SmallPower(k); }

  // ----- loads and stores through wrong addresses or of wrong widths -----

  /** A word read from memory filled with one byte. */
  function Repeated(fill: u8, n: nat): nat { if n == 0 then 0 else fill + 256 * Repeated(fill, n - 1) }

  lemma {:induction false} Filled(m: Mem, a: int, n: nat, fill: u8)
    requires Mapped(m, a, n) && forall k :: k in m ==> m[k] == fill
    ensures UnLe(ReadBytes(m, a, n)) == Repeated(fill, n)
    decreases n
  {
    if n > 0 {
      assert ReadBytes(m, a, n)[1..] == ReadBytes(m, a + 1, n - 1);
      Filled(m, a + 1, n - 1, fill);
    }
  }

  /** Byte and halfword loads become a NOP. */
  lemma NarrowLoadParts(d: DecodedInstr, pc: u64) returns (g: Guest, a: u64)
    requires DecoderShaped(d) && d.opcode in {0x60, 0x61}
    ensures g.ctx.pc == pc && Parts(d, g, a, a, 0)
  {
    hide Pow2, CheckPerms, Mapped, Fits, Stack, Words2, Parts, Exec;
    var c := Blank(AllRegs(0), pc);
    a := AccessAddr(d, c);
    g := Sparse(c, a, a, 1);
    SparseFits(c, a, a, 1);
    var n := if d.opcode == 0x60 then 1 else 2;
    FitsMapped(g, a, a);
    Shorter(g.mem, a, 16, n);
    FitsAllowed(g, a, a, a, n);
    Filled(g.mem, a, n, 1);
    NarrowLoadExec(d, g, n);
    var ir := BuildInstr(d, pc)[0];
    assert BuildInstr(d, pc) == [ir];
    OneRuns(d, g, ir, a, a, 0);
  }

  lemma Shorter(m: Mem, a: int, n: nat, k: nat)
    requires Mapped(m, a, n) && k <= n
    ensures Mapped(m, a, k)
  {}

  lemma NarrowLoadExec(d: DecodedInstr, g: Guest, n: nat)
    requires DecoderShaped(d) && d.opcode in {0x60, 0x61} && n == (if d.opcode == 0x60 then 1 else 2)
    requires g.CanRead(AccessAddr(d, g.ctx), n) && UnLe(ReadBytes(g.mem, AccessAddr(d, g.ctx), n)) == Repeated(1, n)
    ensures Exec(d, g).ctx.x[d.rt] != 0
  { hide Pow2, CheckPerms, Mapped, AccessAddr, UnLe, ReadBytes; }

  /** 32-bit loads move 64 bits. */
  lemma WordLoadParts(d: DecodedInstr, pc: u64) returns (g: Guest, a: u64, b: u64)
    requires DecoderShaped(d) && d.opcode == 0x62
    ensures g.ctx.pc == pc && Parts(d, g, a, b, 0)
  {
    hide Pow2, CheckPerms, Mapped, Fits, Stack, Words2, Parts, Exec, AccessAddr, UnLe, ReadBytes;
    var c := Blank(AllRegs(0), pc);
    var ir := BuildInstr(d, pc)[0];
    assert BuildInstr(d, pc) == [ir];
    a, b := AccessAddr(d, c), Addr1(ir, c);
    g := Sparse(c, a, b, 1);
    SparseFits(c, a, b, 1);
    FitsMapped(g, a, b);
    Shorter(g.mem, a, 16, 4);
    Shorter(g.mem, b, 16, 8);
    FitsAllowed(g, a, b, a, 4);
    Filled(g.mem, a, 4, 1);
    Filled(g.mem, b, 8, 1);
    assert Repeated(1, 4) == 0x0101_0101 by { assert Repeated(1, 2) == 257; }
    assert Repeated(1, 8) > TWO_32 by { assert Repeated(1, 6) > 0x1_0000_0000; }
    WordLoadExec(d, g);
    assert Body(ir, g).ctx.x[d.rt] == Repeated(1, 8);
    OneRuns(d, g, ir, a, b, 0);
  }

  lemma WordLoadExec(d: DecodedInstr, g: Guest)
    requires DecoderShaped(d) && d.opcode == 0x62
    requires g.CanRead(AccessAddr(d, g.ctx), 4) && UnLe(ReadBytes(g.mem, AccessAddr(d, g.ctx), 4)) == 0x0101_0101
    ensures Exec(d, g).ctx.x[d.rt] == 0x0101_0101
  { hide Pow2, CheckPerms, Mapped, AccessAddr, UnLe, ReadBytes; }

  /** Registers that tell the two offsets of an inexact 64-bit access apart. */
  function OffsetRegs(d: DecodedInstr, pc: u64): Regs
  { if d.opcode == 0x63 && d.pcRelative then AllRegs(U64(pc + 4 * d.immS - AsI32(d.imm) + 1)) else AllRegs(1) }

  /** The address emitted code computes. */
  lemma BuiltAddress(d: DecodedInstr, pc: u64, c: CPUContext)
    requires DecoderShaped(d) && d.opcode in {0x63, 0x73}
    ensures ArmReg(BuildInstr(d, pc)[0].src1) && Addr1(BuildInstr(d, pc)[0], c) == U64(c.x[d.rn] + AsI32(d.imm))
  {}

  lemma DifferentAddress(d: DecodedInstr, pc: u64, g: Guest)
    requires DecoderShaped(d) && d.opcode in {0x63, 0x73} && !JitExact(d)
    requires g.ctx.x == OffsetRegs(d, pc) && g.ctx.pc == pc
    ensures Addr1(BuildInstr(d, pc)[0], g.ctx) != AccessAddr(d, g.ctx)
  {
    hide BuildInstr, Addr1, AsI32, Pow2, U64;
    BuiltAddress(d, pc, g.ctx);
    if d.opcode == 0x63 && d.pcRelative {
      LiteralAddress(d, pc, g);
    } else {
      PlainAddress(d, g.ctx);
    }
  }

  lemma LiteralAddress(d: DecodedInstr, pc: u64, g: Guest)
    requires DecoderShaped(d) && d.opcode == 0x63 && d.pcRelative && g.ctx.x == OffsetRegs(d, pc) && g.ctx.pc == pc
    ensures U64(g.ctx.x[d.rn] + AsI32(d.imm)) != AccessAddr(d, g.ctx)
  {
    hide AsI32, Pow2, U64;
    Shifted(pc + 4 * d.immS, AsI32(d.imm));
  }

  lemma PlainAddress(d: DecodedInstr, c: CPUContext)
    requires DecoderShaped(d) && d.opcode in {0x63, 0x73} && !JitExact(d) && !(d.opcode == 0x63 && d.pcRelative)
    requires c.x == AllRegs(1)
    ensures U64(c.x[d.rn] + AsI32(d.imm)) != AccessAddr(d, c)
  {
    var off: int := AccessOffset(d, c);
    assert AccessAddr(d, c) == U64(c.x[d.rn] + off) by { hide U64, Pow2, AccessOffset; }
    OffsetDiffers(d, c);
    Apart64(c.x[d.rn], AsI32(d.imm), off);
  }

  lemma OffsetDiffers(d: DecodedInstr, c: CPUContext)
    requires DecoderShaped(d) && d.opcode in {0x63, 0x73} && !JitExact(d) && !(d.opcode == 0x63 && d.pcRelative)
    requires c.x == AllRegs(1)
    ensures U64(AsI32(d.imm)) != U64(AccessOffset(d, c))
  {
    if d.imm != 0 {
      assert AccessOffset(d, c) == d.imm by { hide Pow2; }
    } else if d.immS != 0 {
      assert AccessOffset(d, c) == U64(d.immS) by { hide Pow2; }
    } else {
      assert Pow2(1) == 2 && Pow2(2) == 4 && Pow2(3) == 8;
    }
  }

  lemma Shifted(t: int, disp: int)
    ensures U64(U64(t - disp + 1) + disp) != U64(t)
  {}

  lemma Apart64(x: int, a: int, b: int)
    requires U64(a) != U64(b)
    ensures U64(x + a) != U64(x + b) && U64(x + a) != U64(x + U64(b))
  {}

  lemma {:induction false} LeZero(n: nat)
    ensures forall i :: 0 <= i < n ==> Le(0, n)[i] == 0
  { if n > 0 { LeZero(n - 1); } }

  /** Memory that is zero except for a one at `lo`. */
  lemma MarkedWord(m: Mem, lo: int, a: int)
    requires Mapped(m, a, 8) && lo in m && lo <= a && forall k :: k in m ==> m[k] == if k == lo then 1 else 0
    ensures Read64(m, a) == if a == lo then 1 else 0
  {
    var s := ReadBytes(m, a, 8);
    LeZero(7);
    LeZero(8);
    if a == lo {
      assert s == [1] + Le(0, 7) == Le(1, 8);
      Word64RoundTrip(1);
    } else {
      assert s == Le(0, 8);
      Word64RoundTrip(0);
    }
  }

  lemma LoadBuilt(d: DecodedInstr, pc: u64)
    requires DecoderShaped(d) && d.opcode == 0x63
    ensures |BuildInstr(d, pc)| == 1
    ensures var ir := BuildInstr(d, pc)[0]; Denotable(ir) && ir.op.LOAD64? && ir.dest == d.rt && ir.src1 == d.rn
  {}

  lemma LoadExec(d: DecodedInstr, g: Guest)
    requires d.opcode == 0x63 && AccessOk(d, g) && d.rt < 32
    ensures Mapped(g.mem, AccessAddr(d, g.ctx), 8)
    ensures Exec(d, g).ctx.x[d.rt] == Read64(g.mem, AccessAddr(d, g.ctx))
  { hide Pow2, CheckPerms, AccessAddr, UnLe, ReadBytes; }

  lemma FarLoadDiffers(d: DecodedInstr, g: Guest, a: u64, b: u64)
    requires DecoderShaped(d) && d.opcode == 0x63 && AccessOk(d, g) && a == AccessAddr(d, g.ctx) && Fits(g, a, b)
    requires ArmReg(BuildInstr(d, g.ctx.pc)[0].src1) && b == Addr1(BuildInstr(d, g.ctx.pc)[0], g.ctx)
    requires Mapped(g.mem, a, 8) && Mapped(g.mem, b, 8) && Read64(g.mem, a) != Read64(g.mem, b)
    ensures Parts(d, g, a, b, 0)
  {
    hide CheckPerms, AccessAddr, Addr1, Exec, BuildInstr, Denotable, AccessOk, Mapped, Read64, Fits, Stack, Parts;
    LoadBuilt(d, g.ctx.pc);
    LoadExec(d, g);
    var ir := BuildInstr(d, g.ctx.pc)[0];
    assert Body(ir, g).ctx.x[d.rt] == Read64(g.mem, b);
    assert BuildInstr(d, g.ctx.pc) == [ir];
    OneRuns(d, g, ir, a, b, 0);
  }

  /** An inexact 64-bit load reads another address. */
  lemma FarLoadParts(d: DecodedInstr, pc: u64) returns (g: Guest, a: u64, b: u64)
    requires DecoderShaped(d) && d.opcode == 0x63 && !JitExact(d)
    ensures g.ctx.pc == pc && Parts(d, g, a, b, 0)
  {
    hide Parts, Pow2, CheckPerms, OffsetRegs, BuildInstr, JitExact, AccessOffset, DecoderShaped, Fits, Stack, Words2,
      Mapped, Read64, AccessAddr;
    var c := Blank(OffsetRegs(d, pc), pc);
    LoadBuilt(d, pc);
    a, b := AccessAddr(d, c), Addr1(BuildInstr(d, pc)[0], c);
    var g0 := Sparse(c, a, b, 0);
    SparseFits(c, a, b, 0);
    DifferentAddress(d, pc, g0);
    FitsMapped(g0, a, b);
    Shorter(g0.mem, a, 16, 8);
    Shorter(g0.mem, b, 16, 8);
    var lo := if a < b then a else b;
    assert lo in g0.mem by { MappedFirst(g0.mem, lo, 8); }
    g := g0.(mem := g0.mem[lo := 1]);
    assert g.mem.Keys == g0.mem.Keys;
    assert Fits(g, a, b) by { SameFits(g0, g, a, b); }
    Remapped(g0.mem, g.mem, a);
    Remapped(g0.mem, g.mem, b);
    FitsAllowed(g, a, b, a, 8);
    MarkedWord(g.mem, lo, a);
    MarkedWord(g.mem, lo, b);
    FarLoadDiffers(d, g, a, b);
  }

  lemma MappedFirst(m: Mem, a: int, n: nat)
    requires Mapped(m, a, n) && n > 0
    ensures a in m
  {}

  lemma SameFits(g: Guest, g': Guest, a: u64, b: u64)
    requires Fits(g, a, b) && g'.mem.Keys == g.mem.Keys && g'.regions == g.regions
    ensures Fits(g', a, b)
  {}

  lemma Remapped(m: Mem, m': Mem, a: int)
    requires Mapped(m, a, 8) && m'.Keys == m.Keys
    ensures Mapped(m', a, 8)
  { Refine.SameKeys(m, m', a, 8); }

  lemma StoreBuilt(d: DecodedInstr, pc: u64)
    requires DecoderShaped(d) && d.opcode in {0x72, 0x73}
    ensures |BuildInstr(d, pc)| == 1
    ensures var ir := BuildInstr(d, pc)[0];
            Denotable(ir) && ir.op in {STORE32, STORE64} && ir.src1 == d.rn && ir.src2 == d.rt
  {}

  lemma StoreExec(d: DecodedInstr, g: Guest, n: nat)
    requires n == (match d.opcode case 0x70 => 1 case 0x71 => 2 case 0x72 => 4 case _ => 8)
    requires 0x70 <= d.opcode <= 0x73 && AccessOk(d, g)
    ensures Exec(d, g).mem == WriteBytes(g.mem, AccessAddr(d, g.ctx), Le(g.ctx.Reg(d.rt), n))
  { hide Pow2, CheckPerms, AccessAddr, WriteBytes, Le, Mapped; }

  lemma WideStoreDiffers(d: DecodedInstr, g: Guest, a: u64, b: u64, k: int)
    requires DecoderShaped(d) && d.opcode in {0x72, 0x73} && AccessOk(d, g) && Fits(g, a, b)
    requires ArmReg(BuildInstr(d, g.ctx.pc)[0].src1) && b == Addr1(BuildInstr(d, g.ctx.pc)[0], g.ctx) && Mapped(g.mem, b, 8)
    requires k in g.mem && b <= k < b + 8 && k in Exec(d, g).mem && Write64(g.mem, b, g.ctx.Reg(d.rt))[k] != Exec(d, g).mem[k]
    ensures Parts(d, g, a, b, k)
  {
    hide CheckPerms, AccessAddr, Addr1, Exec, BuildInstr, Denotable, AccessOk, Mapped, Write64, Fits, Parts;
    StoreBuilt(d, g.ctx.pc);
    var ir := BuildInstr(d, g.ctx.pc)[0];
    assert Body(ir, g).mem == Write64(g.mem, b, g.ctx.Reg(d.rt));
    assert BuildInstr(d, g.ctx.pc) == [ir];
    OneRuns(d, g, ir, a, b, k);
  }

  lemma OneByteWrites(m: Mem, a: int, b: int)
    requires a != b && b in m && m[b] == 0
    ensures Write64(m, b, 1)[b] == 1 && Write64(m, a, 1)[b] == 0
  { LeZero(7); assert Le(1, 8) == [1] + Le(0, 7); }

  /** An inexact 64-bit store writes another address. */
  lemma FarStoreParts(d: DecodedInstr, pc: u64) returns (g: Guest, a: u64, b: u64, k: int)
    requires DecoderShaped(d) && d.opcode == 0x73 && !JitExact(d)
    ensures g.ctx.pc == pc && Parts(d, g, a, b, k)
  {
    hide Parts, Pow2, CheckPerms, BuildInstr, JitExact, AccessOffset, Exec, WriteBytes, Fits, Words2, Mapped,
      AccessAddr, DecoderShaped, Stack;
    var c := Blank(AllRegs(1), pc);
    StoreBuilt(d, pc);
    a, b := AccessAddr(d, c), Addr1(BuildInstr(d, pc)[0], c);
    k := b;
    g := Sparse(c, a, b, 0);
    SparseFits(c, a, b, 0);
    DifferentAddress(d, pc, g);
    FitsMapped(g, a, b);
    Shorter(g.mem, a, 16, 8);
    Shorter(g.mem, b, 16, 8);
    MappedFirst(g.mem, b, 8);
    FitsAllowed(g, a, b, a, 8);
    StoreExec(d, g, 8);
    RegisterIs(d, c);
    OneByteWrites(g.mem, a, b);
    WideStoreDiffers(d, g, a, b, b);
  }

  lemma RegisterIs(d: DecodedInstr, c: CPUContext)
    requires DecoderShaped(d)
    ensures d.rt < 32 && c.Reg(d.rt) == c.x[d.rt]
  {}

  /** 32-bit stores move 64 bits. */
  lemma WordStoreParts(d: DecodedInstr, pc: u64) returns (g: Guest, a: u64, b: u64, k: int)
    requires DecoderShaped(d) && d.opcode == 0x72
    ensures g.ctx.pc == pc && Parts(d, g, a, b, k)
  {
    hide Parts, Pow2, CheckPerms, BuildInstr, JitExact, AccessOffset, Exec, WriteBytes, Fits, Words2, Mapped,
      AccessAddr, DecoderShaped, Stack;
    var c := Blank(AllRegs(TWO_32), pc);
    StoreBuilt(d, pc);
    a, b := AccessAddr(d, c), Addr1(BuildInstr(d, pc)[0], c);
    k := (b as int) + 4;
    g := Sparse(c, a, b, 0);
    SparseFits(c, a, b, 0);
    FitsMapped(g, a, b);
    Shorter(g.mem, a, 16, 4);
    Shorter(g.mem, b, 16, 8);
    MappedFifth(g.mem, b);
    FitsAllowed(g, a, b, a, 4);
    StoreExec(d, g, 4);
    RegisterIs(d, c);
    HighWrites(g.mem, a, b);
    WideStoreDiffers(d, g, a, b, k);
  }

  lemma MappedFifth(m: Mem, a: int)
    requires Mapped(m, a, 8)
    ensures a + 4 in m
  {}

  lemma HighWrites(m: Mem, a: int, b: int)
    requires b + 4 in m && m[b + 4] == 0
    ensures Write64(m, b, TWO_32)[b + 4] == 1 && WriteBytes(m, a, Le(TWO_32, 4))[b + 4] == 0
  { HighByte(); hide Le; }

  lemma LeShift(v: nat, n: nat)
    ensures Le(256 * v, n + 1) == [0] + Le(v, n)
  {}

  lemma HighByte()
    ensures Le(TWO_32, 8)[4] == 1 && forall i :: 0 <= i < 4 ==> Le(TWO_32, 4)[i] == 0
  {
    LeShift(0x100_0000, 7); LeShift(0x1_0000, 6); LeShift(0x100, 5); LeShift(1, 4);
    LeShift(0x100_0000, 3); LeShift(0x1_0000, 2); LeShift(0x100, 1); LeShift(1, 0);
    assert Le(1, 4)[0] == 1;
    hide Le;
    assert Le(TWO_32, 8) == [0, 0, 0, 0] + Le(1, 4);
    assert Le(TWO_32, 4) == [0, 0, 0, 0] + Le(1, 0);
  }

  /** Byte and halfword stores become a NOP. */
  lemma NarrowStoreParts(d: DecodedInstr, pc: u64) returns (g: Guest, a: u64)
    requires DecoderShaped(d) && d.opcode in {0x70, 0x71}
    ensures g.ctx.pc == pc && Parts(d, g, a, a, a)
  {
    hide Pow2, CheckPerms, AccessAddr, Exec, Mapped, Fits, Words2, Parts;
    var c := Blank(AllRegs(1), pc);
    var n := if d.opcode == 0x70 then 1 else 2;
    a := AccessAddr(d, c);
    g := Sparse(c, a, a, 0);
    SparseFits(c, a, a, 0);
    FitsMapped(g, a, a);
    Shorter(g.mem, a, 16, n);
    MappedFirst(g.mem, a, n);
    FitsAllowed(g, a, a, a, n);
    StoreExec(d, g, n);
    assert Le(1, n)[0] == 1;
    var ir := BuildInstr(d, pc)[0];
    assert BuildInstr(d, pc) == [ir];
    assert Exec(d, g).mem[a] == 1;
    OneRuns(d, g, ir, a, a, a);
  }

  lemma HeadByte(m: Mem, a: int, v: u64)
    requires a in m
    ensures Write64(m, a, v)[a] == v % 256
  { assert Le(v, 8)[0] == v % 256; }

  lemma StorePairDiffers(d: DecodedInstr, g: Guest, a: u64)
    requires DecoderShaped(d) && d.opcode == 0x81 && d.immS >= 0 && d.rm != 0 && d.rt < 32 && AccessOk(d, g)
    requires a == AccessAddr(d, g.ctx) && a + 8 < TWO_64 && a + 8 in g.mem && Fits(g, a, a)
    requires g.ctx.x[0] == 0 && g.ctx.Reg(d.rm) == 1
    ensures Parts(d, g, a, a, a + 8)
  {
    hide Pow2, CheckPerms, AccessAddr, Addr1, Addr2, Exec, SecondStored, BuildInstr, Denotable, AccessOk, DecoderShaped,
      Mapped, Write64, Fits, Parts;
    StorePairBuilt(d, g.ctx.pc);
    assert AtPc(g, g.ctx.pc) == g;
    PairAddresses(d, g.ctx.pc, g);
    PairAllowed(d, g);
    StorePairExec(d, g);
    var ir := BuildInstr(d, g.ctx.pc)[0];
    var m1 := Write64(g.mem, a, g.ctx.x[d.rt]);
    HeadByte(m1, a + 8, 0);
    HeadByte(m1, a + 8, 1);
    assert Body(ir, g).mem == Write64(m1, a + 8, 0);
    assert Exec(d, g).mem == Write64(m1, a + 8, 1);
    assert BuildInstr(d, g.ctx.pc) == [ir];
    OneRuns(d, g, ir, a, a, a + 8);
  }

  /** STP finds its second register in the upper half of the displacement. */
  lemma StorePairParts(d: DecodedInstr, pc: u64) returns (g: Guest, a: u64)
    requires DecoderShaped(d) && d.opcode == 0x81 && d.immS >= 0 && d.rm != 0
    ensures g.ctx.pc == pc && a < 0x1000 && Parts(d, g, a, a, a + 8)
  {
    hide Parts, Pow2, CheckPerms, Mapped, Fits, Words2, Stack;
    var x: Regs := AllRegs(0)[d.rm := 1];
    var c := Blank(x, pc);
    a := AccessAddr(d, c);
    g := Sparse(c, a, a, 0);
    SparseFits(c, a, a, 0);
    PairWords(g, a);
    FitsAllowed(g, a, a, a, 8);
    FitsAllowed(g, a, a, a + 8, 8);
    StorePairDiffers(d, g, a);
  }

  lemma PairWords(g: Guest, a: u64)
    requires Fits(g, a, a)
    ensures Mapped(g.mem, a, 8) && Mapped(g.mem, a + 8, 8) && a + 8 in g.mem
  { FitsMapped(g, a, a); }

  // ----- instructions that spill flags -----

  /** CMP, TST, CBZ, CBNZ, and ADD and SUB that set flags. */
  predicate Spills(d: DecodedInstr) { d.opcode in {0x30, 0x31, 0x55, 0x56} || (d.opcode in {0x00, 0x01} && d.setsFlags) }

  lemma SpillBuilt(d: DecodedInstr, pc: u64)
    requires DecoderShaped(d) && Spills(d)
    ensures var irs := BuildInstr(d, pc);
            && Steps.IsSetter(irs[0]) && irs[0].flagsSet && FlagMerging.Merged(irs) == irs
            && (forall ir :: ir in irs ==> ControlFlow.Regular(ir) && Lower.Coded(ir))
            && (|irs| == 2 ==> irs[1].op.JMP_COND?)
  {
    var irs := BuildInstr(d, pc);
    assert |irs| == 2 ==> !irs[1].flagsSet;
  }

  lemma SpillStops(irs: seq<IRInst>)
    requires 1 <= |irs| <= 2 && Steps.IsSetter(irs[0]) && (|irs| == 2 ==> irs[1].op.JMP_COND?)
    ensures ControlFlow.Stop(irs) == 1
  {}

  lemma EntryHosted(g: Guest, p: u64, call: Call)
    requires Runnable(g, p, call)
    ensures var m := Entry(g, p, call).Set(X86.R12, p);
            MergedCode.Hosted(m, p) && Steps.Pushed(m) == StackWord(call)
  {
    EntryInside(g, p, call);
    var m, st := Entry(g, p, call).Set(X86.R12, p), StackWord(call);
    assert m.regs[X86.RSP] == call.regs[X86.RSP];
    assert forall k :: k in g.mem ==> k in m.mem;
    assert Mapped(m.mem, st, 8);
    assert Outside(m.mem, p) == g.mem;
    Apart(m.mem, p, st);
  }

  /** The word in the nzcv slot behind a spilled setter, at the `ret`. */
  lemma SpilledSlot(irs: seq<IRInst>, ft: u64, code: seq<u8>, m: X86.Machine, p: int) returns (o: X86.Machine)
    requires 1 <= |irs| <= 2 && Steps.IsSetter(irs[0]) && irs[0].flagsSet && (|irs| == 2 ==> irs[1].op.JMP_COND?)
    requires forall ir :: ir in irs ==> ControlFlow.Regular(ir) && Lower.Coded(ir)
    requires Emitter.At(code, 0, Lower.BlockCode(irs, ft)) && m.regs[X86.RDI] == p && MergedCode.Hosted(m.Set(X86.R12, p), p)
    ensures X86.Run(code, 0, m) == X86.Returned(o) && Mapped(o.mem, p + 256, 8) && Mapped(o.mem, p + 272, 8)
    ensures Spill.Low(Read64(o.mem, p + 272))
  {
    hide X86.Run, Emitter.At, Lower.BlockCode, Lower.Coded, MergedCode.Hosted, Read64, Spill.Low, ControlFlow.Regular,
      ControlFlow.BlockMapped, ControlFlow.BlockOutcome, Steps.OpEffect, MergedCode.SetterDone, ControlFlow.ExitPc,
      Refine.Inside, Write64, Mapped;
    var m0 := m.Set(X86.R12, p);
    assert irs[0] in irs;
    SpillStops(irs);
    MergedCode.HostedFacts(m0, p);
    NoGuestAccess(irs, m0);
    ControlFlow.RegularBlock(irs, m0, p);
    ControlFlow.BlockRuns(irs, ft, code, m);
    MergedCode.OutcomeIs(irs, ft, m0);
    MergedCode.SetterEffect(irs[0], m0, p);
    assert ControlFlow.Before(irs, 0, m0) == m0;
    MergedCode.BeforeNext(irs, 0, m0);
    var last := ControlFlow.Before(irs, 1, m0);
    o := ControlFlow.Exited(last, ControlFlow.ExitPc(irs, ft, last));
    MergedCode.HostedStep(irs[0], m0, p);
    MergedCode.HostedFacts(last, p);
    MergedCode.PcWord(last, p);
    SetterSlot(irs[0], m0, p);
    Spill.ReadPast(last.mem, p + 256, ControlFlow.ExitPc(irs, ft, last), p + 272);
    Refine.SameKeys(last.mem, o.mem, p + 256, 8);
  }

  lemma NoGuestAccess(irs: seq<IRInst>, m: X86.Machine)
    requires |irs| > 0 && ControlFlow.Stop(irs) == 1 && Steps.IsSetter(irs[0])
    ensures ControlFlow.GuestAccesses(irs, m)
  {
    assert !Steps.IsMemory(irs[0]);
    hide ControlFlow.Before, ControlFlow.Stop, ControlFlow.GuestMapped, Steps.IsSetter, Steps.IsMemory, Steps.FallsThrough;
    forall k: int | 0 <= k < ControlFlow.Stop(irs) ensures ControlFlow.GuestMapped(irs[k], ControlFlow.Before(irs, k, m)) {
      assert k == 0;
      NotGuest(irs[0], ControlFlow.Before(irs, 0, m));
    }
  }

  lemma NotGuest(ir: IRInst, m: X86.Machine)
    requires !Steps.IsMemory(ir)
    ensures ControlFlow.GuestMapped(ir, m)
  { hide Steps.IsMemory; }

  /** A setter leaves the packed word in the nzcv slot. */
  lemma SetterSlot(ir: IRInst, m: X86.Machine, p: int)
    requires Steps.IsSetter(ir) && ir.flagsSet && ControlFlow.Regular(ir) && MergedCode.Hosted(m, p)
    ensures Mapped(m.mem, p, CTX_SIZE)
    ensures var mem := MergedCode.SetterDone(ir, m, p).mem; Mapped(mem, p + 272, 8) && Spill.Low(Read64(mem, p + 272))
  {
    hide Read64, Write64, MergedCode.HeadDone, Spill.PackedWord, X86.Rflags, Spill.Scratch, Spill.Low;
    MergedCode.HostedFacts(m, p);
    MergedCode.InsideMapped(m, p);
    var m1 := MergedCode.HeadDone(ir, m, p);
    MergedCode.HeadHosted(ir, m, p);
    var v := X86.Rflags(m1.flags);
    var below := Write64(Spill.Scratch(m1.mem, p, m1.regs), Steps.Pushed(m1), v);
    Spill.ScratchKeys(m1.mem, p, m1.regs);
    Refine.SameKeys(m1.mem, below, p, CTX_SIZE);
    assert Mapped(below, p + 272, 8);
    ReadBack(below, p + 272, Spill.PackedWord(v));
    Spill.PackedLow(m1.flags);
    var mem := Spill.SpilledMem(m1, p);
    Refine.SameKeys(below, mem, p + 272, 8);
    if ir.op in {ADD, SUB} { Spill.ReadPast(mem, p + 8 * ir.dest, m1.regs[X86.RAX], p + 272); }
  }

  /** The interpreter's flags are bits 31..28. */
  lemma InterpreterNzcv(d: DecodedInstr, g: Guest)
    requires DecoderShaped(d) && Spills(d) && g.ctx.nzcv == 0
    ensures var v := Exec(d, g).ctx.nzcv; v == 0 || v >= 4096
  { hide Pow2, And64, U64; }

  lemma SpillParts(d: DecodedInstr, pc: u64) returns (g: Guest, p: u64, call: Call)
    requires DecoderShaped(d) && Spills(d)
    ensures g.ctx.pc == pc && Disagrees(d, g, p, call)
  {
    hide X86.Run, Exec, Translation, Entry, Runnable, Fits, Words2, MergedCode.Hosted, BuildInstr, Lower.BlockCode,
      Lower.Coded, ControlFlow.Regular, DecoderShaped, Spill.Low, Disagrees, Read64, Place, Stack, CallAt, Mapped;
    g := Still(AllRegs(0), pc);
    StillFits(AllRegs(0), pc);
    p, call := Place(0x10_0000, 0x10_0000), CallAt(Stack(0x10_0000, 0x10_0000));
    FitsRunnable(g, 0x10_0000, 0x10_0000);
    SpillBuilt(d, pc);
    OneTranslated(d, pc);
    EntryInside(g, p, call);
    EntryHosted(g, p, call);
    var code := Translation([d], pc);
    assert Emitter.At(code, 0, code);
    var o := SpilledSlot(BuildInstr(d, pc), U64(pc + 4), code, Entry(g, p, call), p);
    InterpreterNzcv(d, g);
    LowNot(Read64(o.mem, p + 272), Exec(d, g).ctx.nzcv);
    SlotDiffers(d, g, p, call, o);
  }

  lemma LowNot(v: u64, w: u64)
    requires Spill.Low(v) && (w == 0 || w >= 4096)
    ensures v != w
  {}

  /** A word of the context that differs is enough. */
  lemma SlotDiffers(d: DecodedInstr, g: Guest, p: u64, call: Call, o: X86.Machine)
    requires Runnable(g, p, call) && AccessOk(d, g)
    requires X86.Run(Translation([d], g.ctx.pc), 0, Entry(g, p, call)) == X86.Returned(o)
    requires Mapped(o.mem, p + 256, 8) && Mapped(o.mem, p + 272, 8)
    requires Read64(o.mem, p + 256) != Exec(d, g).ctx.pc || Read64(o.mem, p + 272) != Exec(d, g).ctx.nzcv
    ensures Disagrees(d, g, p, call)
  { hide X86.Run, Exec, Translation, Entry, Runnable, Read64, AccessOk; }

  // ----- B.cond -----

  /** Host flags under which the host condition is not what the interpreter finds in a zero nzcv. */
  function Against(cond: u8): X86.Flags
  {
    var clear := X86.Flags(false, false, false, false, false, false);
    var raised := if Lower.HostCond(cond) / 2 == 0 then X86.Flags(false, false, false, true, false, false)
                  else X86.Flags(true, true, true, false, true, false);
    if X86.Holds(Lower.HostCond(cond), clear) != CheckCondition(0, cond) then clear else raised
  }

  lemma AgainstHolds(cond: u8)
    ensures X86.Holds(Lower.HostCond(cond), Against(cond)) != CheckCondition(0, cond)
  {}

  lemma CondBuilt(d: DecodedInstr, pc: u64)
    requires DecoderShaped(d) && d.opcode == 0x54
    ensures var irs := BuildInstr(d, pc);
            && |irs| == 1 && irs[0].op.JMP_COND? && irs[0].cond == d.cond && irs[0].imm == U64(pc + d.branchOffset)
            && FlagMerging.Merged(irs) == irs && Lower.Coded(irs[0])
  {}

  lemma CondRuns(irs: seq<IRInst>, ft: u64, code: seq<u8>, m: X86.Machine, p: int) returns (o: X86.Machine)
    requires |irs| == 1 && irs[0].op.JMP_COND? && Lower.Coded(irs[0])
    requires Emitter.At(code, 0, Lower.BlockCode(irs, ft)) && m.regs[X86.RDI] == p && Refine.Inside(m.Set(X86.R12, p), p)
    ensures X86.Run(code, 0, m) == X86.Returned(o) && Mapped(o.mem, p + 256, 8) && Mapped(o.mem, p + 272, 8)
    ensures Read64(o.mem, p + 256) == if X86.Holds(Lower.HostCond(irs[0].cond), m.flags) then irs[0].imm else ft
  {
    hide X86.Run, Emitter.At, Lower.BlockCode, Lower.Coded, Read64, X86.Holds, Lower.HostCond, Refine.Inside, Write64,
      Steps.CtxMapped;
    var m0 := m.Set(X86.R12, p);
    ControlFlow.StopHere(irs);
    ControlFlow.BlockRuns(irs, ft, code, m);
    ControlFlow.RegularExit(irs, m0, p);
    assert ControlFlow.Before(irs, 0, m0) == m0;
    o := ControlFlow.Exited(m0, ControlFlow.ExitPc(irs, ft, m0));
    MergedCode.PcWord(m0, p);
    ReadBack(m0.mem, p + 256, ControlFlow.ExitPc(irs, ft, m0));
    Refine.SameKeys(m0.mem, o.mem, p + 256, 8);
    assert Mapped(m0.mem, p + 272, 8) by { MergedCode.InsideMapped(m0, p); }
    Refine.SameKeys(m0.mem, o.mem, p + 272, 8);
  }

  lemma CondExec(d: DecodedInstr, g: Guest)
    requires d.opcode == 0x54 && g.ctx.nzcv == 0
    ensures Exec(d, g).ctx.pc == if CheckCondition(0, d.cond) then U64(g.ctx.pc + d.branchOffset) else U64(g.ctx.pc + 4)
  { hide CheckCondition; }

  /** A conditional branch reads host flags nothing in its block has set. */
  lemma CondParts(d: DecodedInstr, pc: u64) returns (g: Guest, p: u64, call: Call)
    requires DecoderShaped(d) && d.opcode == 0x54 && d.branchOffset != 4
    ensures g.ctx.pc == pc && Disagrees(d, g, p, call)
  {
    hide X86.Run, Exec, Translation, Entry, Runnable, Fits, Words2, BuildInstr, Lower.BlockCode, Lower.Coded, DecoderShaped,
      X86.Holds, Lower.HostCond, CheckCondition, Against, Refine.Inside, Disagrees, Read64, Place, Stack, CallAt, Mapped;
    g := Still(AllRegs(0), pc);
    StillFits(AllRegs(0), pc);
    var plain := CallAt(Stack(0x10_0000, 0x10_0000));
    p, call := Place(0x10_0000, 0x10_0000), plain.(flags := Against(d.cond));
    FitsRunnable(g, 0x10_0000, 0x10_0000);
    OtherFlags(g, p, plain, Against(d.cond));
    CondBuilt(d, pc);
    OneTranslated(d, pc);
    EntryInside(g, p, call);
    EntryFlags(g, p, call);
    var code := Translation([d], pc);
    assert Emitter.At(code, 0, code);
    var o := CondRuns(BuildInstr(d, pc), U64(pc + 4), code, Entry(g, p, call), p);
    AgainstHolds(d.cond);
    CondExec(d, g);
    MergedCode.OffsetPart(pc, d.branchOffset);
    SlotDiffers(d, g, p, call, o);
  }

  lemma OtherFlags(g: Guest, p: u64, call: Call, f: X86.Flags)
    requires Runnable(g, p, call)
    ensures Runnable(g, p, call.(flags := f))
  {}

  lemma EntryFlags(g: Guest, p: u64, call: Call)
    ensures Entry(g, p, call).flags == call.flags
  {}

  // ----- STP with a negative offset -----

  lemma NegativeBuilt(d: DecodedInstr, pc: u64)
    requires DecoderShaped(d) && d.opcode == 0x81 && d.immS < 0
    ensures var irs := BuildInstr(d, pc);
            && |irs| == 1 && irs[0].op.STORE_PAIR? && irs[0].src1 == d.rn && irs[0].src2 == d.rt
            && AsI32(irs[0].imm) == d.immS && irs[0].imm / TWO_32 % 256 == 255
            && FlagMerging.Merged(irs) == irs && Lower.Coded(irs[0]) && !irs[0].flagsSet
  {}

  /** The word 2040 bytes behind the context pointer is not mapped: the translation faults. */
  lemma NegativeParts(d: DecodedInstr, pc: u64) returns (g: Guest, p: u64, call: Call)
    requires DecoderShaped(d) && d.opcode == 0x81 && d.immS < 0
    ensures g.ctx.pc == pc && Disagrees(d, g, p, call)
  {
    hide X86.Run, Exec, Translation, Entry, Runnable, Fits, Words2, BuildInstr, Lower.BlockCode, Lower.Coded,
      Refine.Inside, Pow2, CheckPerms, Place, Stack, CallAt, Mapped;
    var c := Blank(AllRegs(0x10_0000), pc);
    var a: u64 := AccessAddr(d, c);
    assert 0xF_0000 <= a <= 0x10_0000;
    g := Sparse(c, a, a, 0);
    SparseFits(c, a, a, 0);
    PairWords(g, a);
    FitsAllowed(g, a, a, a, 8);
    FitsAllowed(g, a, a, a + 8, 8);
    p, call := Place(a, a), CallAt(Stack(a, a));
    FitsRunnable(g, a, a);
    NegativeBuilt(d, pc);
    OneTranslated(d, pc);
    EntryInside(g, p, call);
    var irs, m, code := BuildInstr(d, pc), Entry(g, p, call), Translation([d], pc);
    assert Emitter.At(code, 0, code);
    FarWord(g, a, p, call);
    NegativeFaults(irs, U64(pc + 4), code, m, p);
  }

  lemma FarWord(g: Guest, a: u64, p: u64, call: Call)
    requires Fits(g, a, a) && 0xF_0000 <= a <= 0x10_0000 && p <= 0x3000
    ensures p + 2040 !in Entry(g, p, call).mem
  {
    FitsMapped(g, a, a);
    hide Words2;
    assert !InSpan(a, 16, p + 2040) && !InSpan(Stack(a, a), 8, p + 2040);
    assert !InContext(p, p + 2040);
  }

  lemma NegativeFaults(irs: seq<IRInst>, ft: u64, code: seq<u8>, m: X86.Machine, p: int)
    requires |irs| == 1 && irs[0].op.STORE_PAIR? && irs[0].imm / TWO_32 % 256 == 255 && Lower.Coded(irs[0])
    requires Emitter.At(code, 0, Lower.BlockCode(irs, ft)) && m.regs[X86.RDI] == p && p + 2048 <= TWO_64 && p + 2040 !in m.mem
    ensures X86.Run(code, 0, m) == X86.MemFault
  {
    hide X86.Run, Emitter.At, Lower.BlockCode, Lower.Coded, Read64;
    var m0 := m.Set(X86.R12, p);
    ControlFlow.BlockRuns(irs, ft, code, m);
    assert irs[1..] == [] && ControlFlow.Stop([]) == 0 && ControlFlow.Stop(irs) == 1;
    assert ControlFlow.Before(irs, 0, m0) == m0;
    assert m0.Ea(X86.R12, Lower.Slot(irs[0].imm / TWO_32)) == p + 2040;
    assert !Steps.SlotMapped(m0, irs[0].imm / TWO_32);
    assert !Steps.OpMapped(irs[0], ControlFlow.Before(irs, 0, m0));
  }

  /** The operations of the pair, with the word 2040 bytes behind the context pointer as second register. */
  lemma NegativeEffect(ir: IRInst, m: X86.Machine, p: int, regions: seq<MemRegion>) returns (m': X86.Machine)
    requires ir.op.STORE_PAIR? && ir.src1 < 32 && ir.src2 < 32 && ir.imm / TWO_32 % 256 == 255
    requires Refine.Inside(m, p) && p + 2048 <= TWO_64 && Mapped(Outside(m.mem, p), p + 2040, 8)
    requires var g := Refine.Seen(m, p, regions); Mapped(g.mem, Addr1(ir, g.ctx), 8) && Mapped(g.mem, Addr2(ir, g.ctx), 8)
    ensures Steps.OpEffect(ir, m) == X86.Done(m') && Refine.Inside(m', p)
    ensures var g := Refine.Seen(m, p, regions);
            Refine.Seen(m', p, regions) ==
            g.(mem := Write64(Write64(g.mem, Addr1(ir, g.ctx), g.ctx.x[ir.src2]), Addr2(ir, g.ctx), Read64(g.mem, p + 2040)))
  {
    hide ContextAt, Outside, Mapped, Refine.Reaches, Write64, Read64, Refine.Effects, X86.Effect1;
    var g, disp := Refine.Seen(m, p, regions), AsI32(ir.imm);
    Refine.TwoLoads(ir.src1, ir.src2, m, p);
    var m2 := m.Set(X86.RAX, g.ctx.x[ir.src1]).Set(X86.RCX, g.ctx.x[ir.src2]);
    assert m2.Ea(X86.R12, 2040) == p + 2040;
    Refine.GuestLoadStep(m2, p, X86.RDX, X86.R12, 2040);
    var m3 := m2.Set(X86.RDX, Read64(g.mem, p + 2040));
    Refine.One(X86.Load(X86.RDX, X86.R12, 2040), m2, m3);
    var m4 := Refine.GuestStoreCarries(m3, p, disp, X86.RCX, regions);
    Refine.SameKeys(g.mem, Outside(m4.mem, p), m4.Ea(X86.RAX, Lower.Plus8(disp)), 8);
    m' := Refine.GuestStoreCarries(m4, p, Lower.Plus8(disp), X86.RDX, regions);
    var a, b, c, d := [Lower.LoadArm(ir.src1, X86.RAX), Lower.LoadArm(ir.src2, X86.RCX)], [X86.Load(X86.RDX, X86.R12, 2040)],
      [X86.Store(X86.RAX, disp, X86.RCX)], [X86.Store(X86.RAX, Lower.Plus8(disp), X86.RDX)];
    Refine.Compose(a, b, m, m2, m3);
    Refine.Compose(a + b, c, m, m3, m4);
    Refine.Compose(a + b + c, d, m, m4, m');
    assert Lower.LowerInstr(ir, 0) == a + b + c + d;
    Steps.OpStraight(ir);
    Steps.MemoryPlain(ir, 0);
    ReachesEffect(a + b + c + d, m, m');
  }

  lemma ReachesEffect(list: seq<X86.Instr>, m: X86.Machine, m': X86.Machine)
    requires Refine.Reaches(list, m, m')
    ensures Refine.Straight(list) && Refine.Effects(list, m) == X86.Done(m')
  {}

  /** STP with a negative offset, where it does not fault: the second word stored is the one 2040 bytes
      behind the context pointer, so it does what the interpreter does exactly when that word happens to
      equal the second register. No word decodes to such a record. */
  lemma NegativePairStores(d: DecodedInstr, g: Guest, p: u64, call: Call) returns (o: X86.Machine)
    requires DecoderShaped(d) && d.opcode == 0x81 && d.immS < 0 && Runnable(g, p, call) && AccessOk(d, g)
    requires p + 2048 <= TWO_64 && Mapped(g.mem, p + 2040, 8)
    ensures X86.Run(Translation([d], g.ctx.pc), 0, Entry(g, p, call)) == X86.Returned(o) && Mapped(o.mem, p, CTX_SIZE)
    ensures ViewAt(o.mem, p, g.regions) == Exec(d, g) <==> Read64(g.mem, p + 2040) == g.ctx.Reg(d.rm)
  {
    hide X86.Run, Exec, Translation, Entry, Runnable, BuildInstr, Lower.BlockCode, Lower.Coded, Refine.Inside, Mapped,
      Read64, Write64, AccessAddr, Addr1, Addr2, Steps.OpEffect, ControlFlow.Stop, ControlFlow.Before, Steps.OpMapped,
      AccessOk, DecoderShaped, ContextAt, Outside;
    var irs, ft, code, m := BuildInstr(d, g.ctx.pc), U64(g.ctx.pc + 4), Translation([d], g.ctx.pc), Entry(g, p, call);
    var m0 := m.Set(X86.R12, p);
    NegativeBuilt(d, g.ctx.pc);
    OneTranslated(d, g.ctx.pc);
    EntryInside(g, p, call);
    RegistersBelow(d);
    assert AtPc(g, g.ctx.pc) == g;
    PairAddresses(d, g.ctx.pc, g);
    PairAllowed(d, g);
    StorePairExec(d, g);
    var m1 := NegativeEffect(irs[0], m0, p, g.regions);
    OneStep(irs, ft, code, m, p, m1);
    var a: int := AccessAddr(d, g.ctx);
    o := ControlFlow.Exited(m1, ft);
    ExitView(m1, p, ft, g.regions);
    var first := Write64(g.mem, a, g.ctx.Reg(d.rt));
    Refine.SameKeys(g.mem, first, U64(a + 8), 8);
    MergedCode.OneWord(first, U64(a + 8), Read64(g.mem, p + 2040), g.ctx.Reg(d.rm));
  }

  lemma RegistersBelow(d: DecodedInstr)
    requires DecoderShaped(d)
    ensures d.rn < 32 && d.rt < 32
  {}

  /** A block of one operation. */
  lemma OneStep(irs: seq<IRInst>, ft: u64, code: seq<u8>, m: X86.Machine, p: int, m1: X86.Machine)
    requires |irs| == 1 && Steps.FallsThrough(irs[0]) && Lower.Coded(irs[0]) && code == Lower.BlockCode(irs, ft)
    requires m.regs[X86.RDI] == p && Steps.OpEffect(irs[0], m.Set(X86.R12, p)) == X86.Done(m1) && Refine.Inside(m1, p)
    ensures X86.Run(code, 0, m) == X86.Returned(ControlFlow.Exited(m1, ft))
  {
    hide X86.Run, Lower.BlockCode, Lower.Coded, Steps.OpEffect, Refine.Inside, Steps.OpMapped, ControlFlow.Exited,
      Steps.Held;
    var m0 := m.Set(X86.R12, p);
    assert Emitter.At(code, 0, code);
    ControlFlow.BlockRuns(irs, ft, code, m);
    assert irs[1..] == [] && ControlFlow.Stop([]) == 0 && ControlFlow.Stop(irs) == 1;
    assert ControlFlow.Before(irs, 0, m0) == m0;
    MergedCode.BeforeNext(irs, 0, m0);
    Steps.OpRuns(irs[0], m0);
    ControlFlow.RegularExit(irs, m1, p);
  }

  lemma ExitView(m: X86.Machine, p: int, ft: u64, regions: seq<MemRegion>)
    requires Refine.Inside(m, p)
    ensures var o := ControlFlow.Exited(m, ft);
            Mapped(o.mem, p, CTX_SIZE) && ViewAt(o.mem, p, regions) == AtPc(ViewAt(m.mem, p, regions), ft)
  {
    hide Write64, ContextAt, Outside;
    MergedCode.PcWord(m, p);
    StoreSlot(m.mem, p, 32, ft);
    Refine.SameKeys(m.mem, ControlFlow.Exited(m, ft).mem, p, CTX_SIZE);
  }

  // ----- the theorem -----

  /** Outside `JitExact` the two engines part somewhere. */
  lemma InexactParts(d: DecodedInstr, pc: u64) returns (g: Guest, p: u64, call: Call)
    requires DecoderShaped(d) && !JitExact(d)
    ensures g.ctx.pc == pc && Disagrees(d, g, p, call)
  {
    hide Parts, Disagrees, Place, Stack, CallAt, Runnable, AgreesOn;
    if Spills(d) { g, p, call := SpillParts(d, pc); }
    else if d.opcode == 0x54 { g, p, call := CondParts(d, pc); }
    else if d.opcode == 0x81 && d.immS < 0 { g, p, call := NegativeParts(d, pc); }
    else {
      var a, b, k;
      g, a, b, k := DenotedParts(d, pc);
      PartsDisagree(d, g, a, b, k);
      p, call := Place(a, b), CallAt(Stack(a, b));
    }
  }

  lemma DenotedParts(d: DecodedInstr, pc: u64) returns (g: Guest, a: u64, b: u64, k: int)
    requires DecoderShaped(d) && !JitExact(d) && !Spills(d) && d.opcode != 0x54 && !(d.opcode == 0x81 && d.immS < 0)
    ensures g.ctx.pc == pc && Parts(d, g, a, b, k)
  {
    hide Parts;
    a, b, k := 0x10_0000, 0x10_0000, 0;
    if !Known(d) { g := UnknownParts(d, pc); }
    else if d.opcode in {0x00, 0x01} { g := RegisterOperandParts(d, pc); }
    else if d.opcode == 0x20 { g := MoveFromX0Parts(d, pc); }
    else if d.opcode in {0x21, 0x23} { g := WideMoveParts(d, pc); }
    else if d.opcode in {0x10, 0x12, 0x14} { g := LogicalParts(d, pc); }
    else if d.opcode in {0x50, 0x51} { g := BackwardParts(d, pc); }
    else if d.opcode in {0x52, 0x57, 0x58} { g := LostBranchParts(d, pc); }
    else if d.opcode == 0x53 { g := ReturnParts(d, pc); }
    else if d.opcode in {0x60, 0x61} { g, a := NarrowLoadParts(d, pc); b := a; }
    else if d.opcode == 0x62 { g, a, b := WordLoadParts(d, pc); }
    else if d.opcode == 0x63 { g, a, b := FarLoadParts(d, pc); }
    else if d.opcode in {0x70, 0x71} { g, a := NarrowStoreParts(d, pc); b := a; k := a; }
    else if d.opcode == 0x72 { g, a, b, k := WordStoreParts(d, pc); }
    else if d.opcode == 0x73 { g, a, b, k := FarStoreParts(d, pc); }
    else { g, a := StorePairParts(d, pc); b := a; k := (a as int) + 8; }
  }

  /** `JitExact` is exactly where the engines agree, for every decoded instruction, spilling or not. */
  lemma ExactIffAgrees(d: DecodedInstr, pc: u64)
    requires DecoderShaped(d)
    ensures JitExact(d) <==> AgreesEverywhere(d, pc)
  {
    hide JitExact, AccessOk, Runnable, AgreesOn;
    if JitExact(d) {
      forall g: Guest, p: u64, call: Call | g.ctx.pc == pc && Runnable(g, p, call) && AccessOk(d, g) ensures AgreesOn(d, g, p, call)
      { ExactAgrees(d, g, p, call); }
    } else {
      var g, p, call := InexactParts(d, pc);
      assert !AgreesOn(d, g, p, call);
    }
  }
}
