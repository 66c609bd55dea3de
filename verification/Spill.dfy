/** What `save_nzcv` really does. Its header promises SF, ZF, CF and OF in bits 31..28 of the nzcv slot.
    The shifts and masks asked for on RCX are encoded for R9, so the slot receives the RFLAGS image with
    three low bits or-ed in, R9 is reduced to its bit 7, and the host flags afterwards say nothing but
    whether that bit was clear. */
module Spill {
  import opened Words
  import opened Guest
  import opened View
  import opened X86
  import opened Emitter
  import opened Lower
  import opened Refine
  import opened Steps
  import Interp

  // ----- the values -----

  predicate Bit7(x: u64) { x / 128 % 2 == 1 }

  /** R9 behind a spill. */
  function Ninth(x: u64): u64 { if Bit7(x) then 0x1000_0000 else 0 }

  /** The host flags behind a spill: those of shifting one bit left by 28. */
  function AfterSpill(x: u64): Flags { Flags(false, !Bit7(x), false, false, true, false) }

  /** One flag bit of the RFLAGS image, moved from position `down` to position `up`. */
  function FlagBit(v: u64, down: nat, up: nat): u64 { ShiftResult(SHL, And64(ShiftResult(SHR, v, down), 1), up) }

  /** The word the nzcv slot receives. */
  function PackedWord(v: u64): u64 { Or64(Or64(Or64(v, FlagBit(v, 6, 1)), FlagBit(v, 0, 2)), FlagBit(v, 11, 3)) }

  lemma MaskOne(a: u64)
    ensures And64(a, 1) == a % 2
  { BitZero(63, a / 2); assert 1 / 2 == 0 && 1 % 2 == 1; assert BitAnd(64, a, 1) == a % 2 * 1 + 2 * BitAnd(63, a / 2, 0); }

  lemma Pow2Seven()
    ensures Pow2(7) == 128 && Pow2(27) == 0x800_0000 && Pow2(28) == 0x1000_0000
  {
    Pow2Byte(0); Pow2Byte(8); Pow2Byte(16);
    assert Pow2(8) == 2 * Pow2(7);
    assert Pow2(26) == 4 * Pow2(24);
    assert Pow2(28) == 4 * Pow2(26);
  }

  /** What is left of R9 and of the flags. */
  lemma NinthIs(x: u64, f: Flags)
    ensures var bit := And64(ShiftResult(SHR, x, 7), 1);
            ShiftResult(SHL, bit, 28) == Ninth(x) && ShiftFlags(SHL, bit, 28, f) == AfterSpill(x)
  {
    Pow2Seven();
    hide Pow2, EvenParity;
    MaskOne(ShiftResult(SHR, x, 7));
    hide And64;
    assert ShiftResult(SHR, x, 7) == x / 128;
    EvenZero(8);
    var bit := And64(ShiftResult(SHR, x, 7), 1);
    if Bit7(x) {
      assert bit == 1;
      assert ShiftResult(SHL, 1, 28) == 0x1000_0000;
    } else {
      assert bit == 0;
      assert ShiftResult(SHL, 0, 28) == 0;
    }
  }

  lemma {:induction false} EvenZero(n: nat)
    ensures EvenParity(0, n)
  { if n > 0 { EvenZero(n - 1); } }

  lemma NinthTwice(x: u64)
    ensures !Bit7(Ninth(x))
  {}

  // ----- the packing -----

  /** The list runs through, leaves memory alone and the registers as given. */
  predicate Computes(list: seq<Instr>, m: Machine, regs: RegFile)
  { Straight(list) && Effects(list, m).Done? && Effects(list, m).m.mem == m.mem && Effects(list, m).m.regs == regs }

  lemma ComputesThen(a: seq<Instr>, b: seq<Instr>, m: Machine, r1: RegFile, r2: RegFile)
    requires Computes(a, m, r1) && Computes(b, Effects(a, m).m, r2)
    ensures Computes(a + b, m, r2) && Effects(a + b, m) == Effects(b, Effects(a, m).m)
  { hide Effects; EffectsSplit(a, b, m); }

  lemma Moves(dst: Reg, src: Reg, m: Machine)
    ensures Computes([Alu(MOV, dst, src)], m, m.regs[dst := m.regs[src]])
  { OneEffect(Alu(MOV, dst, src), m); }

  lemma Shifts(op: ShiftOp, r: Reg, k: u8, m: Machine)
    requires k < 64
    ensures Computes([ShiftImm(op, r, k)], m, m.regs[r := ShiftResult(op, m.regs[r], k)])
    ensures Effects([ShiftImm(op, r, k)], m).m.flags == ShiftFlags(op, m.regs[r], k, m.flags)
  {
    hide ShiftResult, ShiftFlags, Effects, Effect1;
    ShiftEffect(op, r, k, m);
    OneEffect(ShiftImm(op, r, k), m);
  }

  lemma ShiftEffect(op: ShiftOp, r: Reg, k: u8, m: Machine)
    requires k < 64
    ensures Effect1(ShiftImm(op, r, k), m) ==
            Done(m.(flags := ShiftFlags(op, m.regs[r], k, m.flags)).Set(r, ShiftResult(op, m.regs[r], k)))
  { hide ShiftResult, ShiftFlags; assert k % 64 == k; }

  lemma Masks(r: Reg, m: Machine)
    ensures Computes([AluImm(AND, r, 1)], m, m.regs[r := And64(m.regs[r], 1)])
  { hide And64, AluFlags; OneEffect(AluImm(AND, r, 1), m); assert SignedImm(1) == 1; }

  lemma Ors(dst: Reg, src: Reg, m: Machine)
    ensures Computes([Alu(OR, dst, src)], m, m.regs[dst := Or64(m.regs[dst], m.regs[src])])
  { hide Or64, AluFlags; OneEffect(Alu(OR, dst, src), m); }

  /** What the bytes of the packing mean, part by part. */
  function First(): seq<Instr> { [Alu(MOV, RCX, RAX)] + [ShiftImm(SHR, R9, 7)] + [AluImm(AND, R9, 1)] }
  function Fetch(down: u8): seq<Instr>
  { if down == 0 then [Alu(MOV, RDX, RAX)] else [Alu(MOV, RDX, RAX)] + [ShiftImm(SHR, RDX, down)] }
  function Merge(down: u8, up: u8): seq<Instr>
  { Fetch(down) + [AluImm(AND, RDX, 1)] + [ShiftImm(SHL, RDX, up)] + [Alu(OR, RCX, RDX)] }
  function Last(): seq<Instr> { [ShiftImm(SHL, R9, 28)] }

  lemma PackingMeans()
    ensures Meanings(Packing()) == First() + Merge(6, 1) + Merge(0, 2) + Merge(11, 3) + Last()
  { assert NamedReg(RCX) == R9 && NamedReg(RDX) == RDX; }

  lemma FirstRuns(m: Machine)
    ensures Computes(First(), m, m.regs[RCX := m.regs[RAX]][R9 := And64(ShiftResult(SHR, m.regs[R9], 7), 1)])
  {
    hide Effects, And64, ShiftResult, Computes;
    var a, b, c := [Alu(MOV, RCX, RAX)], [ShiftImm(SHR, R9, 7)], [AluImm(AND, R9, 1)];
    var r1 := m.regs[RCX := m.regs[RAX]];
    Moves(RCX, RAX, m);
    ComputesFacts(a, m, r1);
    var m1 := Effects(a, m).m;
    Shifts(SHR, R9, 7, m1);
    var r2 := r1[R9 := ShiftResult(SHR, m.regs[R9], 7)];
    ComputesFacts(b, m1, r2);
    ComputesThen(a, b, m, r1, r2);
    ComputesFacts(a + b, m, r2);
    var m2 := Effects(a + b, m).m;
    Masks(R9, m2);
    var r3 := r1[R9 := And64(r2[R9], 1)];
    assert r2[R9 := And64(r2[R9], 1)] == r3;
    ComputesThen(a + b, c, m, r2, r3);
  }

  lemma ComputesFacts(list: seq<Instr>, m: Machine, regs: RegFile)
    requires Computes(list, m, regs)
    ensures Straight(list) && Effects(list, m).Done? && Effects(list, m).m.mem == m.mem && Effects(list, m).m.regs == regs
  {}

  lemma FetchRuns(down: u8, m: Machine)
    requires down < 64
    ensures Computes(Fetch(down), m, m.regs[RDX := ShiftResult(SHR, m.regs[RAX], down)])
  {
    hide Effects, Computes;
    var a, r1 := [Alu(MOV, RDX, RAX)], m.regs[RDX := m.regs[RAX]];
    Moves(RDX, RAX, m);
    if down == 0 {
      assert ShiftResult(SHR, m.regs[RAX], 0) == m.regs[RAX];
    } else {
      hide ShiftResult;
      ComputesFacts(a, m, r1);
      var m1 := Effects(a, m).m;
      Shifts(SHR, RDX, down, m1);
      var r2 := m.regs[RDX := ShiftResult(SHR, m.regs[RAX], down)];
      assert r1[RDX := ShiftResult(SHR, r1[RDX], down)] == r2;
      ComputesThen(a, [ShiftImm(SHR, RDX, down)], m, r1, r2);
    }
  }

  lemma MergeRuns(down: u8, up: u8, m: Machine)
    requires down < 64 && up < 64
    ensures var bit := FlagBit(m.regs[RAX], down, up);
            Computes(Merge(down, up), m, m.regs[RDX := bit][RCX := Or64(m.regs[RCX], bit)])
  {
    hide Effects, Computes, ShiftResult, And64, Or64, Fetch;
    var a, b, c, d := Fetch(down), [AluImm(AND, RDX, 1)], [ShiftImm(SHL, RDX, up)], [Alu(OR, RCX, RDX)];
    var v := ShiftResult(SHR, m.regs[RAX], down);
    var r1, r2 := m.regs[RDX := v], m.regs[RDX := And64(v, 1)];
    FetchRuns(down, m);
    ComputesFacts(a, m, r1);
    Masks(RDX, Effects(a, m).m);
    assert r1[RDX := And64(r1[RDX], 1)] == r2;
    ComputesThen(a, b, m, r1, r2);
    ComputesFacts(a + b, m, r2);
    Shifts(SHL, RDX, up, Effects(a + b, m).m);
    var bit := FlagBit(m.regs[RAX], down, up);
    var r3 := m.regs[RDX := bit];
    assert r2[RDX := ShiftResult(SHL, r2[RDX], up)] == r3;
    ComputesThen(a + b, c, m, r2, r3);
    ComputesFacts(a + b + c, m, r3);
    Ors(RCX, RDX, Effects(a + b + c, m).m);
    ComputesThen(a + b + c, d, m, r3, r3[RCX := Or64(r3[RCX], r3[RDX])]);
  }

  /** The registers and flags behind the packing. */
  lemma PackingRuns(m: Machine)
    ensures var l := Meanings(Packing());
            && Straight(l) && Effects(l, m).Done? && Effects(l, m).m.mem == m.mem
            && (forall r: Reg :: r != RCX && r != RDX && r != R9 ==> Effects(l, m).m.regs[r] == m.regs[r])
            && Effects(l, m).m.regs[RCX] == PackedWord(m.regs[RAX])
            && Effects(l, m).m.regs[R9] == Ninth(m.regs[R9]) && Effects(l, m).m.flags == AfterSpill(m.regs[R9])
  {
    hide Effects, Computes, ShiftResult, ShiftFlags, And64, Or64, First, Merge, FlagBit, Meanings, Packing, Ninth,
      AfterSpill;
    PackingMeans();
    var v, n := m.regs[RAX], And64(ShiftResult(SHR, m.regs[R9], 7), 1);
    var a, b, c, d, e := First(), Merge(6, 1), Merge(0, 2), Merge(11, 3), Last();
    var r1 := m.regs[RCX := v][R9 := n];
    FirstRuns(m);
    ComputesFacts(a, m, r1);
    MergeRuns(6, 1, Effects(a, m).m);
    var r2 := r1[RDX := FlagBit(v, 6, 1)][RCX := Or64(v, FlagBit(v, 6, 1))];
    ComputesThen(a, b, m, r1, r2);
    ComputesFacts(a + b, m, r2);
    MergeRuns(0, 2, Effects(a + b, m).m);
    var r3 := r2[RDX := FlagBit(v, 0, 2)][RCX := Or64(r2[RCX], FlagBit(v, 0, 2))];
    ComputesThen(a + b, c, m, r2, r3);
    ComputesFacts(a + b + c, m, r3);
    MergeRuns(11, 3, Effects(a + b + c, m).m);
    var r4 := r3[RDX := FlagBit(v, 11, 3)][RCX := Or64(r3[RCX], FlagBit(v, 11, 3))];
    ComputesThen(a + b + c, d, m, r3, r4);
    ComputesFacts(a + b + c + d, m, r4);
    var m4 := Effects(a + b + c + d, m).m;
    Shifts(SHL, R9, 28, m4);
    NinthIs(m.regs[R9], m4.flags);
    var r5: RegFile := r4[R9 := Ninth(m.regs[R9])];
    ComputesThen(a + b + c + d, e, m, r4, r5);
    ComputesFacts(a + b + c + d + e, m, r5);
  }

  // ----- the whole spill -----

  /** The stack word below RSP does not lie in the context. */
  predicate StackApart(m: Machine, p: int) { Pushed(m) + 8 <= p || p + CTX_SIZE <= Pushed(m) }

  /** The scratch words: RAX, RCX and RDX at offsets 512, 520 and 528 of the context, inside the vector
      registers. */
  function Scratch(mem: Mem, p: int, regs: RegFile): Mem
  { Write64(Write64(Write64(mem, p + 512, regs[RAX]), p + 520, regs[RCX]), p + 528, regs[RDX]) }

  /** Memory behind a spill. */
  function SpilledMem(m: Machine, p: int): Mem
  { Write64(Write64(Scratch(m.mem, p, m.regs), Pushed(m), Rflags(m.flags)), p + 272, PackedWord(Rflags(m.flags))) }

  /** The machine behind a spill: RAX, RCX and RDX are as before, R9 and the flags are not. */
  function Spilled(m: Machine, p: int): Machine
  { Machine(m.regs[R9 := Ninth(m.regs[R9])], AfterSpill(m.regs[R9]), SpilledMem(m, p)) }

  lemma StoreAt(m: Machine, p: int, disp: i32, x: Reg)
    requires Inside(m, p) && 0 <= disp <= 824
    ensures Effect1(Store(R12, disp, x), m) == Done(m.(mem := Write64(m.mem, p + disp, m.regs[x])))
    ensures Inside(m.(mem := Write64(m.mem, p + disp, m.regs[x])), p)
  {
    assert m.Ea(R12, disp) == p + disp;
    SameKeys(m.mem, Write64(m.mem, p + disp, m.regs[x]), p, 832);
  }

  lemma LoadFrom(m: Machine, p: int, disp: i32, x: Reg)
    requires Inside(m, p) && 0 <= disp <= 824 && x != R12
    ensures Mapped(m.mem, p + disp, 8) && Effect1(Load(x, R12, disp), m) == Done(m.Set(x, Read64(m.mem, p + disp)))
    ensures Inside(m.Set(x, Read64(m.mem, p + disp)), p)
  { assert m.Ea(R12, disp) == p + disp; }

  lemma Chain2(a: Instr, b: Instr, m: Machine, m1: Machine)
    requires Straight([a, b]) && Effect1(a, m) == Done(m1)
    ensures Effects([a, b], m) == Effect1(b, m1)
  { hide Effect1; assert [a, b][1..] == [b]; OneEffect(b, m1); }

  lemma HeadRuns(m: Machine, p: int)
    requires Inside(m, p)
    ensures Meanings(SpillHead()) == SpillHead() && Straight(SpillHead())
    ensures Effects(SpillHead(), m) == Done(m.(mem := Scratch(m.mem, p, m.regs)))
    ensures Inside(m.(mem := Scratch(m.mem, p, m.regs)), p)
  {
    hide Effect1, Inside, Write64;
    var l := SpillHead();
    StoreAt(m, p, 512, RAX);
    var m1 := m.(mem := Write64(m.mem, p + 512, m.regs[RAX]));
    StoreAt(m1, p, 520, RCX);
    var m2 := m1.(mem := Write64(m1.mem, p + 520, m.regs[RCX]));
    StoreAt(m2, p, 528, RDX);
    assert l[1..] == [l[1], l[2]];
    Chain2(l[1], l[2], m1, m2);
  }

  lemma PushPopRuns(m: Machine)
    requires Mapped(m.mem, Pushed(m), 8)
    ensures Straight([Pushfq, PopRax])
    ensures Effects([Pushfq, PopRax], m) ==
            Done(m.(mem := Write64(m.mem, Pushed(m), Rflags(m.flags))).Set(RAX, Rflags(m.flags)))
  {
    hide Write64, Read64, Rflags, Mapped;
    var v := Rflags(m.flags);
    var m1 := m.(mem := Write64(m.mem, Pushed(m), v)).Set(RSP, Pushed(m));
    assert Effect1(Pushfq, m) == Done(m1);
    SameKeys(m.mem, m1.mem, Pushed(m), 8);
    ReadBack(m.mem, Pushed(m), v);
    var top: int := m.regs[RSP];
    assert U64(U64(top - 8) + 8) == top;
    assert Effect1(PopRax, m1) == Done(m1.Set(RSP, top).Set(RAX, v));
    assert m1.regs[RSP := top] == m.regs;
    hide Effect1;
    Chain2(Pushfq, PopRax, m, m1);
  }

  lemma TailRuns(m: Machine, p: int)
    requires Inside(m, p)
    ensures Meanings(SpillTail()) == SpillTail() && Straight(SpillTail())
    ensures var mem := Write64(m.mem, p + 272, m.regs[RCX]);
            && Mapped(mem, p + 512, 8) && Mapped(mem, p + 520, 8) && Mapped(mem, p + 528, 8)
            && Effects(SpillTail(), m) ==
               Done(m.(mem := mem).Set(RDX, Read64(mem, p + 528)).Set(RCX, Read64(mem, p + 520)).Set(RAX, Read64(mem, p + 512)))
  {
    hide Effect1, Inside, Write64, Read64, Mapped;
    var l := SpillTail();
    StoreAt(m, p, 272, RCX);
    var m1 := m.(mem := Write64(m.mem, p + 272, m.regs[RCX]));
    LoadFrom(m1, p, 528, RDX);
    var m2 := m1.Set(RDX, Read64(m1.mem, p + 528));
    LoadFrom(m2, p, 520, RCX);
    var m3 := m2.Set(RCX, Read64(m1.mem, p + 520));
    LoadFrom(m3, p, 512, RAX);
    assert l[1..] == [l[1], l[2], l[3]] && [l[1], l[2], l[3]][1..] == [l[2], l[3]];
    Chain2(l[2], l[3], m2, m3);
  }

  /** A word read past a store elsewhere. */
  lemma ReadPast(m: Mem, a: int, v: u64, b: int)
    requires Mapped(m, b, 8) && (b + 8 <= a || a + 8 <= b)
    ensures Mapped(Write64(m, a, v), b, 8) && Read64(Write64(m, a, v), b) == Read64(m, b)
  { ReadElsewhere(m, a, v, b, 8); SameKeys(m, Write64(m, a, v), b, 8); }

  /** The scratch words are read back unchanged. */
  lemma ScratchRead(mem: Mem, p: int, regs: RegFile, sp: u64, v: u64, w: u64)
    requires Mapped(mem, p, CTX_SIZE) && (sp + 8 <= p || p + CTX_SIZE <= sp)
    ensures var m' := Write64(Write64(Scratch(mem, p, regs), sp, v), p + 272, w);
            && Mapped(m', p + 512, 8) && Read64(m', p + 512) == regs[RAX]
            && Mapped(m', p + 520, 8) && Read64(m', p + 520) == regs[RCX]
            && Mapped(m', p + 528, 8) && Read64(m', p + 528) == regs[RDX]
  {
    hide Write64, Read64;
    var a := Write64(mem, p + 512, regs[RAX]);
    var b := Write64(a, p + 520, regs[RCX]);
    var c := Write64(b, p + 528, regs[RDX]);
    var d := Write64(c, sp, v);
    SameKeys(mem, a, p, 832); SameKeys(mem, b, p, 832);
    ReadBack(mem, p + 512, regs[RAX]);
    ReadBack(a, p + 520, regs[RCX]);
    ReadBack(b, p + 528, regs[RDX]);
    SameKeys(mem, c, p, 832); SameKeys(mem, d, p, 832);
    ReadPast(a, p + 520, regs[RCX], p + 512);
    ReadPast(b, p + 528, regs[RDX], p + 512);
    ReadPast(b, p + 528, regs[RDX], p + 520);
    ReadPast(c, sp, v, p + 512); ReadPast(c, sp, v, p + 520); ReadPast(c, sp, v, p + 528);
    ReadPast(d, p + 272, w, p + 512); ReadPast(d, p + 272, w, p + 520); ReadPast(d, p + 272, w, p + 528);
  }

  /** Three registers set to what they held before. */
  lemma Restored(regs: RegFile, r3: RegFile, n: u64)
    requires forall r: Reg :: r != RAX && r != RCX && r != RDX && r != R9 ==> r3[r] == regs[r]
    requires r3[R9] == n
    ensures r3[RDX := regs[RDX]][RCX := regs[RCX]][RAX := regs[RAX]] == regs[R9 := n]
  {}

  /** The exact effect of the spill. */
  lemma SpillEffect(m: Machine, p: int)
    requires Inside(m, p) && Mapped(m.mem, Pushed(m), 8) && StackApart(m, p)
    ensures Straight(Meanings(SaveNzcv())) && Effects(Meanings(SaveNzcv()), m) == Done(Spilled(m, p))
  {
    hide SaveNzcv, Packing, SpillHead, SpillTail, Effects, Rflags, Write64, Read64, Meanings, Ninth, AfterSpill,
      PackedWord, Scratch;
    SpillParts();
    var a, b, c, d := SpillHead(), [Pushfq, PopRax], Meanings(Packing()), SpillTail();
    HeadRuns(m, p);
    var m1 := m.(mem := Scratch(m.mem, p, m.regs));
    assert m1.mem.Keys == m.mem.Keys by { ScratchKeys(m.mem, p, m.regs); }
    SameKeys(m.mem, m1.mem, Pushed(m), 8);
    PushPopRuns(m1);
    var v := Rflags(m.flags);
    var m2 := m1.(mem := Write64(m1.mem, Pushed(m), v)).Set(RAX, v);
    PackingRuns(m2);
    var m3 := Effects(c, m2).m;
    SameKeys(m.mem, m3.mem, p, 832);
    TailRuns(m3, p);
    ScratchRead(m.mem, p, m.regs, Pushed(m), v, PackedWord(v));
    Restored(m.regs, m3.regs, Ninth(m.regs[R9]));
    EffectsSplit(a, b, m);
    EffectsSplit(a + b, c, m);
    EffectsSplit(a + b + c, d, m);
  }

  lemma ScratchKeys(mem: Mem, p: int, regs: RegFile)
    ensures Scratch(mem, p, regs).Keys == mem.Keys
  {}

  // ----- the saved word -----

  lemma Pow2Twelve()
    ensures Pow2(12) == 4096
  { Pow2Byte(0); assert Pow2(10) == 4 * Pow2(8); assert Pow2(12) == 4 * Pow2(10); }

  lemma {:induction false} OrBelow(n: nat, k: nat, a: nat, b: nat)
    requires k <= n && a < Pow2(k) && b < Pow2(k)
    ensures BitOr(n, a, b) < Pow2(k)
  {
    if n > 0 {
      if k == 0 { OrBelow(n - 1, 0, 0, 0); } else { OrBelow(n - 1, k - 1, a / 2, b / 2); }
    }
  }

  /** A word with bit 9 set and nothing above bit 11. */
  predicate Low(x: u64) { 512 <= x < 4096 }

  lemma LowOr(a: u64, b: u64)
    requires Low(a) && b < 4096
    ensures Low(Or64(a, b))
  {
    Pow2Words();
    BitOrBelow(64, a, b);
    Pow2Twelve();
    OrBelow(64, 12, a, b);
  }

  lemma SmallBit(v: u64, down: nat, up: nat)
    requires up <= 3
    ensures FlagBit(v, down, up) < 4096
  {
    MaskOne(ShiftResult(SHR, v, down));
    assert Pow2(0) == 1 && Pow2(1) == 2 && Pow2(2) == 4 && Pow2(3) == 8;
    hide And64, Pow2;
  }

  /** Whatever the flags were, the saved word has bit 9 set and bits 12 and up clear. */
  lemma PackedLow(f: Flags)
    ensures Low(PackedWord(Rflags(f)))
  {
    var v := Rflags(f);
    SmallBit(v, 6, 1); SmallBit(v, 0, 2); SmallBit(v, 11, 3);
    hide FlagBit, Or64;
    assert Low(v);
    LowOr(v, FlagBit(v, 6, 1));
    LowOr(Or64(v, FlagBit(v, 6, 1)), FlagBit(v, 0, 2));
    LowOr(Or64(Or64(v, FlagBit(v, 6, 1)), FlagBit(v, 0, 2)), FlagBit(v, 11, 3));
  }

  lemma LowIsClear(v: u64)
    requires v < 4096
    ensures !Interp.FlagN(v) && !Interp.FlagZ(v) && !Interp.FlagC(v) && !Interp.FlagV(v)
  {}

  /** The promise of `save_nzcv` for a saved word `v`. */
  predicate FlagsSaved(v: u64, f: Flags)
  { Interp.FlagN(v) == f.sf && Interp.FlagZ(v) == f.zf && Interp.FlagC(v) == f.cf && Interp.FlagV(v) == f.of }

  /** Running the emitted spill, from every state: the four flags read as clear from the saved word, so
      the promise is kept exactly when none was set; bytes 512..535 of the context, which are vector
      registers, are overwritten with RAX, RCX and RDX; R9 keeps its bit 7 only; and of the host flags
      ZF says whether that bit was clear. */
  lemma SaveNzcvKeepsOnlyClearFlags(code: seq<u8>, ip: nat, m: Machine, p: int)
    requires Inside(m, p) && Mapped(m.mem, Pushed(m), 8) && StackApart(m, p)
    requires At(code, ip, EncodeAll(SaveNzcv()))
    ensures Run(code, ip, m) == Run(code, ip + |EncodeAll(SaveNzcv())|, Spilled(m, p)) && Inside(Spilled(m, p), p)
    ensures var v := Read64(Spilled(m, p).mem, p + 272);
            && v == PackedWord(Rflags(m.flags)) && (forall cond: u8 :: Interp.CheckCondition(v, cond) == Interp.CheckCondition(0, cond))
            && (FlagsSaved(v, m.flags) <==> !(m.flags.sf || m.flags.zf || m.flags.cf || m.flags.of))
    ensures Read64(Spilled(m, p).mem, p + 512) == m.regs[RAX] && Read64(Spilled(m, p).mem, p + 520) == m.regs[RCX]
            && Read64(Spilled(m, p).mem, p + 528) == m.regs[RDX]
  {
    hide Meanings, SaveNzcv, Effects, Rflags, Read64, Run, EncodeAll, At, Straight, PackedWord, Write64, Scratch,
      Interp.FlagN, Interp.FlagZ, Interp.FlagC, Interp.FlagV;
    SpillEffect(m, p);
    SpillDecodable();
    RunMeaning(code, ip, SaveNzcv(), m);
    ScratchRead(m.mem, p, m.regs, Pushed(m), Rflags(m.flags), PackedWord(Rflags(m.flags)));
    ScratchKeys(m.mem, p, m.regs);
    SameKeys(m.mem, Write64(Scratch(m.mem, p, m.regs), Pushed(m), Rflags(m.flags)), p + 272, 8);
    ReadBack(Write64(Scratch(m.mem, p, m.regs), Pushed(m), Rflags(m.flags)), p + 272, PackedWord(Rflags(m.flags)));
    SameKeys(m.mem, Spilled(m, p).mem, p, 832);
    PackedLow(m.flags);
    LowIsClear(PackedWord(Rflags(m.flags)));
    LowIsClear(0);
  }
}
