/** What translations do, instruction by instruction: the effect of running the bytes emitted for one record
    (src/ir/ir_builder.cpp:36-370, src/backend/x86_64_lower.cpp:95-436), against `Semantics`, which says what the
    interpreter does. */
module Translated {
  import opened Words
  import opened Guest
  import opened View
  import opened HostImage
  import opened Decoder
  import opened IR
  import opened Denote
  import opened Exact
  import opened Pipeline
  import opened Converse
  import opened WordTable
  import opened WordRecord
  import Targets
  import X86
  import Emitter
  import Lower
  import Refine
  import Semantics

  /** Running the translation of `d` from `g` returns with the guest `g'`. */
  predicate Ran(d: DecodedInstr, g: Guest, p: u64, call: Call, g': Guest)
  {
    var o := X86.Run(Translation([d], g.ctx.pc), 0, Entry(g, p, call));
    o.Returned? && Mapped(o.m.mem, p, CTX_SIZE) && ViewAt(o.m.mem, p, g.regions) == g'
  }

  lemma Denoted(d: DecodedInstr, g: Guest, p: u64, call: Call)
    requires Runnable(g, p, call) && forall ir :: ir in BuildInstr(d, g.ctx.pc) ==> Denotable(ir)
    requires RunsClean(BuildInstr(d, g.ctx.pc), U64(g.ctx.pc + 4), g)
    ensures Ran(d, g, p, call, Block(BuildInstr(d, g.ctx.pc), U64(g.ctx.pc + 4), g))
  {
    hide X86.Run, Translation, ViewAt, Entry, Refine.Inside, BuildInstr, Denotable, Block, RunsClean, Lower.BlockCode,
      Runnable;
    EntryInside(g, p, call);
    OneTranslated(d, g.ctx.pc);
    DenotableUnmarked(BuildInstr(d, g.ctx.pc));
    var code := Translation([d], g.ctx.pc);
    assert Emitter.At(code, 0, code);
    var m' := Refine.BlockRefines(BuildInstr(d, g.ctx.pc), U64(g.ctx.pc + 4), code, Entry(g, p, call), p, g.regions);
    InsideContext(m', p);
  }

  /** The pc behind the instruction. */
  function Next(g: Guest): u64 { U64(g.ctx.pc + 4) }

  /** Register `r` gets `v`, and the pc goes on. */
  function With(g: Guest, r: u8, v: u64): Guest
    requires r < 32
  { g.(ctx := g.ctx.(pc := Next(g), x := g.ctx.x[r := v])) }

  /** Only the pc changes. */
  function At(g: Guest, pc: u64): Guest { g.(ctx := g.ctx.(pc := pc)) }

  /** An offset of 32 bits, with its sign. */
  function Signed32(offset: u32): int { if offset < TWO_31 then offset else offset - TWO_32 }

  /** The address of a translated access: the immediate cut to 32 bits, with its sign; no other field counts. */
  function JitAddress(d: DecodedInstr, g: Guest): u64
    requires d.rn < 32
  { U64(g.ctx.x[d.rn] + Signed32(d.imm % TWO_32)) }

  /** Opcodes whose translation reads or writes eight bytes of guest memory. */
  predicate Touches(d: DecodedInstr) { d.opcode in {0x62, 0x63, 0x72, 0x73} }

  /** Opcodes whose translation leaves the block. */
  predicate Leaves(d: DecodedInstr) { d.opcode in {0x50, 0x51, 0x53} }

  predicate Writes(d: DecodedInstr)
  { d.opcode in {0x00, 0x01, 0x04, 0x05, 0x06, 0x20, 0x21, 0x22, 0x23, 0x24, 0x25} }

  /** The value a translation writes to its destination. MOV from X0 reads "no register" and writes zero; MOVN
      and MOVK write the bare immediate. */
  function Value(d: DecodedInstr, c: CPUContext): u64
    requires DecoderShaped(d) && Writes(d)
  {
    match d.opcode
    case 0x00 => U64(c.x[d.rn] + if d.rm == 255 then d.imm else c.x[d.rm])
    case 0x01 => U64(c.x[d.rn] - if d.rm == 255 then d.imm else c.x[d.rm])
    case 0x04 => X86.ShiftResult(X86.SAR, c.x[d.rn], d.imm % 64)
    case 0x05 => X86.ShiftResult(X86.SHR, c.x[d.rn], d.imm % 64)
    case 0x06 => X86.ShiftResult(X86.SHL, c.x[d.rn], d.imm % 64)
    case 0x20 => if d.rm == 0 then 0 else c.x[d.rm]
    case 0x24 => U64(c.pc + d.immS)
    case 0x25 => U64(c.pc - c.pc % 4096 + 4096 * d.immS)
    case _ => d.imm
  }

  /** What the translation of a record leaves, when it spills no flags and reads none. */
  function Effect(d: DecodedInstr, g: Guest): Guest
    requires DecoderShaped(d) && (Touches(d) ==> Mapped(g.mem, JitAddress(d, g), 8))
  {
    if Writes(d) then With(g, d.rd, Value(d, g.ctx))
    else if d.opcode in {0x62, 0x63} then With(g, d.rt, Read64(g.mem, JitAddress(d, g)))
    else if d.opcode in {0x72, 0x73} then At(g.(mem := Write64(g.mem, JitAddress(d, g), g.ctx.x[d.rt])), Next(g))
    else if d.opcode == 0x50 then At(g, U64(g.ctx.pc + Signed32(d.branchOffset)))
    else if d.opcode == 0x51 then
      g.(ctx := g.ctx.(pc := U64(g.ctx.pc + Signed32(d.branchOffset)), x := g.ctx.x[30 := Next(g)]))
    else if d.opcode == 0x53 then At(g, g.ctx.lr)
    else At(g, Next(g))
  }

  /** Records the theorem covers: no flag spill, no branch on host flags, no pair. */
  predicate Covered(d: DecodedInstr)
  { DecoderShaped(d) && !Spills(d) && d.opcode !in {0x54, 0x80, 0x81} }

  lemma OneBlock(ir: IRInst, ft: u64, g: Guest)
    requires Denotable(ir) && !Exits(ir) && AccessesMapped(ir, g)
    ensures RunsClean([ir], ft, g) && Block([ir], ft, g) == At(Body(ir, g), ft)
  {
    hide Body, AccessesMapped, Denotable;
    var irs := [ir];
    assert irs[1..] == [];
    assert RunsClean(irs[1..], ft, Body(ir, g));
    assert Block(irs, ft, g) == Block(irs[1..], ft, Body(ir, g)) == At(Body(ir, g), ft);
  }

  lemma WritesBody(d: DecodedInstr, g: Guest)
    requires Covered(d) && Writes(d)
    ensures var irs := BuildInstr(d, g.ctx.pc);
            |irs| == 1 && irs == [irs[0]] && Denotable(irs[0]) && !Exits(irs[0]) && AccessesMapped(irs[0], g)
            && At(Body(irs[0], g), Next(g)) == Effect(d, g)
  { hide X86.ShiftResult; }

  lemma TouchesBody(d: DecodedInstr, g: Guest)
    requires Covered(d) && Touches(d) && Mapped(g.mem, JitAddress(d, g), 8)
    ensures var irs := BuildInstr(d, g.ctx.pc);
            |irs| == 1 && irs == [irs[0]] && Denotable(irs[0]) && !Exits(irs[0]) && AccessesMapped(irs[0], g)
            && At(Body(irs[0], g), Next(g)) == Effect(d, g)
  { hide Read64, Write64, Mapped; }

  lemma IdleBody(d: DecodedInstr, g: Guest)
    requires Covered(d) && !Touches(d) && !Writes(d) && !Leaves(d)
    ensures var irs := BuildInstr(d, g.ctx.pc);
            |irs| == 1 && irs == [irs[0]] && Denotable(irs[0]) && !Exits(irs[0]) && AccessesMapped(irs[0], g)
            && At(Body(irs[0], g), Next(g)) == Effect(d, g)
  {}

  lemma ExitBlock(ir: IRInst, ft: u64, g: Guest)
    requires Exits(ir) && !ir.op.JMP_COND? && !ir.flagsSet
    ensures Denotable(ir) && RunsClean([ir], ft, g) && Block([ir], ft, g) == At(g, ExitPc(ir, g.ctx))
  {}

  lemma LinkBlock(a: IRInst, b: IRInst, ft: u64, g: Guest)
    requires Denotable(a) && !Exits(a) && AccessesMapped(a, g) && Exits(b) && !b.op.JMP_COND? && !b.flagsSet
    ensures RunsClean([a, b], ft, g) && Block([a, b], ft, g) == At(Body(a, g), ExitPc(b, Body(a, g).ctx))
  {
    var irs := [a, b];
    assert irs[1..] == [b] && irs[0] == a;
    ExitBlock(b, ft, Body(a, g));
    hide Body, AccessesMapped, Denotable, ExitPc;
    assert RunsClean(irs, ft, g) == RunsClean(irs[1..], ft, Body(a, g));
  }

  lemma LeavesBuilt(d: DecodedInstr, g: Guest)
    requires Covered(d) && Leaves(d)
    ensures var irs := BuildInstr(d, g.ctx.pc); var exit := irs[|irs| - 1];
            && irs == (if d.opcode == 0x51 then [irs[0], exit] else [exit]) && Exits(exit) && !exit.op.JMP_COND? && !exit.flagsSet
            && exit.op.RET? == (d.opcode == 0x53) && (d.opcode != 0x53 ==> exit.imm == U64(g.ctx.pc + Signed32(d.branchOffset)))
            && (d.opcode == 0x51 ==> irs[0].op.SET_REG? && irs[0].dest == 30 && irs[0].src1 == IR_NONE
                                     && irs[0].imm == Next(g) && !irs[0].flagsSet)
  {}

  lemma LinkBody(ir: IRInst, g: Guest, v: u64)
    requires ir.op.SET_REG? && ir.dest == 30 && ir.src1 == IR_NONE && ir.imm == v && !ir.flagsSet
    ensures Denotable(ir) && !Exits(ir) && AccessesMapped(ir, g) && Body(ir, g) == g.(ctx := g.ctx.(x := g.ctx.x[30 := v]))
  {}

  lemma LeavesBlock(d: DecodedInstr, g: Guest)
    requires Covered(d) && Leaves(d)
    ensures var irs := BuildInstr(d, g.ctx.pc);
            && (forall ir :: ir in irs ==> Denotable(ir)) && RunsClean(irs, Next(g), g)
            && Block(irs, Next(g), g) == Effect(d, g)
  {
    hide BuildInstr, Denotable, Body, AccessesMapped, RunsClean, Block, Covered;
    LeavesBuilt(d, g);
    var irs := BuildInstr(d, g.ctx.pc);
    var exit := irs[|irs| - 1];
    if d.opcode == 0x51 {
      LinkBody(irs[0], g, Next(g));
      ExitBlock(exit, Next(g), g);
      LinkBlock(irs[0], exit, Next(g), g);
    } else {
      ExitBlock(exit, Next(g), g);
    }
  }

  /** For every such record, every context and memory, all host registers and flags: what the bytes do. */
  lemma TranslationDoes(d: DecodedInstr, g: Guest, p: u64, call: Call)
    requires Covered(d) && Runnable(g, p, call) && (Touches(d) ==> Mapped(g.mem, JitAddress(d, g), 8))
    ensures Ran(d, g, p, call, Effect(d, g))
  {
    hide Ran, Runnable, BuildInstr, Denotable, Block, RunsClean, Body, AccessesMapped, Effect, Mapped, Covered, Read64;
    if Leaves(d) {
      LeavesBlock(d, g);
    } else {
      if Writes(d) { WritesBody(d, g); } else if Touches(d) { TouchesBody(d, g); } else { IdleBody(d, g); }
      OneBlock(BuildInstr(d, g.ctx.pc)[0], Next(g), g);
    }
    Denoted(d, g, p, call);
  }

  // ----- bitfield words -----

  /** Bits 21..16 and 15..10. */
  function Immr(w: u32): u8 { w / 0x1_0000 % 64 }
  function Imms(w: u32): u8 { w / 0x400 % 64 }

  /** `q` is the quotient of `x` by 2^k, rounded down. */
  predicate Floor(x: int, k: nat, q: int) { q * Pow2(k) <= x < (q + 1) * Pow2(k) }

  lemma FloorIs(x: int, k: nat)
    ensures Floor(x, k, x / Pow2(k))
  { FloorOf(x, Pow2(k)); }

  /** What a bitfield word that decodes to a shift leaves in its destination: the signed quotient, the quotient or
      the product, modulo 2^64. */
  ghost predicate Shifted(opcode: u8, x: u64, k: nat, v: u64)
  {
    match opcode
    case 0x04 => exists q :: Floor(AsI64(x), k, q) && v == U64(q)
    case 0x05 => exists q :: Floor(x, k, q) && v == U64(q)
    case _ => v == U64(x * Pow2(k))
  }

  lemma ValueShifted(d: DecodedInstr, c: CPUContext)
    requires Covered(d) && d.opcode in {0x04, 0x05, 0x06} && d.imm < 64
    ensures Shifted(d.opcode, c.x[d.rn], d.imm, Value(d, c))
  {
    hide Pow2, Floor;
    FloorIs(AsI64(c.x[d.rn]), d.imm);
    FloorIs(c.x[d.rn], d.imm);
    assert d.imm % 64 == d.imm;
  }

  lemma BitfieldRecordIs(w: u32)
    requires Form(w) == 19 && Table(w).Row?
    ensures Decode(w).ok
    ensures var d := Decode(w).out;
            && Covered(d) && d.opcode == Table(w).opcode && d.rd == Low5(w) && d.rn == Mid5(w) && d.imm == Immr(w)
  {
    DecodeIs(w);
    DecodeShape(w);
    BitfieldOnly(w);
    hide Decode, DecoderShaped, Low5, Mid5, Immr, Imms, Table, Form, Group;
  }

  lemma BitfieldOnly(w: u32)
    requires Form(w) == 19 && Table(w).Row?
    ensures Record(w) == BitfieldRecord(w, Base(w)) && 0x04 <= Table(w).opcode <= 0x08 && !Table(w).marked
  { hide Low5, Mid5, High5, Group; }

  /** ASR, LSR and LSL as decoded, at every pc and in every state: the destination gets the shifted register, by
      the number in bits 21..16, and nothing else changes. */
  lemma ShiftWords(w: u32, g: Guest, p: u64, call: Call) returns (v: u64)
    requires Form(w) == 19 && Table(w).Row? && Table(w).opcode in {0x04, 0x05, 0x06} && Runnable(g, p, call)
    ensures Decode(w).ok && Ran(Decode(w).out, g, p, call, With(g, Low5(w), v))
    ensures Shifted(Table(w).opcode, g.ctx.x[Mid5(w)], Immr(w), v)
  {
    hide Decode, Table, Form, Ran, Runnable, DecoderShaped, Shifted, Value, Mapped, JitAddress;
    BitfieldRecordIs(w);
    var d := Decode(w).out;
    v := Value(d, g.ctx);
    ValueShifted(d, g.ctx);
    TranslationDoes(d, g, p, call);
  }

  /** 64-bit ASR, LSR and LSL by an immediate, as the architecture encodes them (SBFM and UBFM). */
  predicate IsAsr(w: u32) { Targets.Top(w) == 0x93 && w / 0x80_0000 % 2 == 0 && Imms(w) == 63 }
  predicate IsLsr(w: u32) { Targets.Top(w) == 0xD3 && w / 0x80_0000 % 2 == 0 && Imms(w) == 63 }
  predicate IsLsl(w: u32) { Targets.Top(w) == 0xD3 && w / 0x80_0000 % 2 == 0 && Imms(w) != 63 && Immr(w) == Imms(w) + 1 }

  lemma ShiftRows(w: u32)
    ensures IsAsr(w) || IsLsr(w) || IsLsl(w) ==> Form(w) == 19
    ensures IsAsr(w) || IsLsr(w) ==> Table(w) == Plain(0x04)
    ensures IsLsl(w) ==> Table(w) == Plain(0x07)
  {}

  /** The quotient of a number that is not negative. */
  lemma QuotientBounds(x: nat, p: nat)
    requires p > 0
    ensures x / p <= x && (p >= 2 ==> 2 * (x / p) <= x)
  {
    var q := x / p;
    assert p * q <= x;
    MulMono(1, p, q);
    if p >= 2 { MulMono(2, p, q); }
  }

  /** The signed quotient of a negative number by two or more is negative, and above -2^63. */
  lemma NegativeQuotient(s: int, p: nat, q: int)
    requires -TWO_63 <= s < 0 && p >= 2 && q * p <= s < (q + 1) * p
    ensures -TWO_63 < q < 0
  {
    var low := -TWO_63 / 2;
    MulOrder(-1, q, p);
    MulOrder(q + 1, low, p);
    assert low * p <= low * 2;
  }

  lemma UnsignedQuotient(x: u64, p: nat, q: int)
    requires p > 0 && q * p <= x < (q + 1) * p
    ensures U64(q) == x / p
  {
    QuotientOf(x, p, q);
    SmallQuotient(x, p);
  }

  lemma SmallQuotient(x: u64, p: nat)
    requires p > 0
    ensures U64(x / p) == x / p
  {
    QuotientBounds(x, p);
    Semantics.Small(x / p);
  }

  lemma SignedQuotient(x: u64, p: nat, q: int)
    requires x >= TWO_63 && p >= 2 && q * p <= x - TWO_64 < (q + 1) * p
    ensures U64(q) != x / p
  {
    QuotientBounds(x, p);
    NegativeQuotient(x - TWO_64, p, q);
  }

  /** Shifting the sign in or not makes no difference exactly for numbers without one, and for a shift by zero. */
  lemma SignMatters(x: u64, k: nat, q: int)
    requires k < 64 && Floor(AsI64(x), k, q)
    ensures U64(q) == x / Pow2(k) <==> x < TWO_63 || k == 0
  {
    assert k > 0 ==> Pow2(k) == 2 * Pow2(k - 1);
    assert k == 0 ==> Pow2(k) == 1;
    hide Pow2, U64;
    if x < TWO_63 {
      UnsignedQuotient(x, Pow2(k), q);
    } else if k == 0 {
      Wraps(x);
    } else {
      SignedQuotient(x, Pow2(k), q);
    }
  }

  lemma Wraps(x: u64)
    ensures U64(AsI64(x)) == x && x / 1 == x
  {}

  /** An LSR word is translated as ASR: right exactly for a register without a sign, or a shift by zero. */
  lemma LsrIsAsr(w: u32, g: Guest, p: u64, call: Call) returns (v: u64)
    requires IsLsr(w) && Runnable(g, p, call)
    ensures Decode(w).ok && Ran(Decode(w).out, g, p, call, With(g, Low5(w), v))
    ensures v == g.ctx.x[Mid5(w)] / Pow2(Immr(w)) <==> g.ctx.x[Mid5(w)] < TWO_63 || Immr(w) == 0
  {
    ShiftRows(w);
    hide Decode, Table, Form, Ran, Runnable, Pow2, IsLsr, Floor;
    v := ShiftWords(w, g, p, call);
    var q :| Floor(AsI64(g.ctx.x[Mid5(w)]), Immr(w), q) && v == U64(q);
    SignMatters(g.ctx.x[Mid5(w)], Immr(w), q);
  }

  /** An ASR word is translated right in every state. */
  lemma AsrIsRight(w: u32, g: Guest, p: u64, call: Call) returns (v: u64, q: int)
    requires IsAsr(w) && Runnable(g, p, call)
    ensures Decode(w).ok && Ran(Decode(w).out, g, p, call, With(g, Low5(w), v))
    ensures Floor(AsI64(g.ctx.x[Mid5(w)]), Immr(w), q) && v == U64(q)
  {
    ShiftRows(w);
    hide Decode, Table, Form, Ran, Runnable, Pow2, IsAsr, Floor;
    v := ShiftWords(w, g, p, call);
    q :| Floor(AsI64(g.ctx.x[Mid5(w)]), Immr(w), q) && v == U64(q);
  }

  /** An LSL word is translated as NOP. */
  lemma LslIsLost(w: u32, g: Guest, p: u64, call: Call)
    requires IsLsl(w) && Runnable(g, p, call)
    ensures Decode(w).ok && Ran(Decode(w).out, g, p, call, At(g, Next(g)))
  {
    ShiftRows(w);
    hide Table, Form, Ran, Runnable, IsLsl, Decode, DecoderShaped;
    BitfieldRecordIs(w);
    TranslationDoes(Decode(w).out, g, p, call);
  }

  /** UBFM of section C6.2 of the Arm ARM, on 64 bits. */
  function Ubfm(x: u64, immr: nat, imms: nat): nat
    requires immr < 64 && imms < 64
  {
    if imms >= immr then x / Pow2(immr) % Pow2(imms - immr + 1)
    else x % Pow2(imms + 1) * Pow2(64 - immr)
  }

  /** The words read as LSL have imms = 63 - immr: bits 21..16 are the amount UBFM shifts by exactly when they
      hold 32. */
  lemma LslAmount(w: u32)
    requires Form(w) == 19 && Table(w) == Plain(0x06)
    ensures (forall x: u64 :: Ubfm(x, Immr(w), Imms(w)) == U64(x * Pow2(Immr(w)))) <==> Immr(w) == 32
  {
    LslFields(w);
    hide Table, Form;
    var r := Immr(w);
    if r == 32 {
      forall x: u64 ensures Ubfm(x, 32, 31) == U64(x * Pow2(32)) {
        Pow2Words();
        hide Pow2;
        assert x == x / TWO_32 * TWO_32 + x % TWO_32;
        assert x * TWO_32 == x / TWO_32 * TWO_64 + x % TWO_32 * TWO_32;
        DivUnique(x * TWO_32, TWO_64, x / TWO_32, x % TWO_32 * TWO_32);
      }
    } else {
      OneApart(r);
      var one: u64 := 1;
      assert Ubfm(one, r, Imms(w)) != U64(one * Pow2(r));
    }
  }

  lemma LslFields(w: u32)
    requires Form(w) == 19 && Table(w) == Plain(0x06)
    ensures Imms(w) == 63 - Immr(w) && Immr(w) > 0
  { hide Form, Group; }

  lemma OneApart(r: nat)
    requires 0 < r < 64 && r != 32
    ensures Ubfm(1, r, 63 - r) != U64(1 * Pow2(r))
  {
    Pow2Words();
    hide Pow2;
    Strict(r, 64);
    Strict(0, r);
    Semantics.Small(Pow2(r));
    if r > 32 {
      Strict(64 - r, r);
      Strict(0, 64 - r);
      OneMod(Pow2(64 - r));
    } else {
      OneMod(Pow2(r));
      ZeroMod(Pow2(64 - 2 * r));
    }
  }

  lemma OneMod(p: nat)
    requires p > 1
    ensures 1 / p == 0 && 1 % p == 1
  { DivUnique(1, p, 0, 1); }

  lemma ZeroMod(p: nat)
    requires p > 0
    ensures 0 % p == 0
  {}

  lemma {:induction false} Strict(a: nat, b: nat)
    requires a < b
    ensures Pow2(a) < Pow2(b)
    decreases b
  { if a + 1 < b { Strict(a, b - 1); } }
}
