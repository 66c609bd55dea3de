/** What the interpreter does, instruction by instruction: the effect of `execute_decoded`
    (src/core/exec_engine.cpp:47-237) on registers, pc, flags and memory. */
module Semantics {
  import opened Words
  import opened Guest
  import opened Decoder
  import opened Interp
  import Conditions

  // ----- bits -----

  /** Binary digit `i` of a number. */
  predicate Digit(x: nat, i: nat) { x / Pow2(i) % 2 == 1 }

  lemma DigitStep(x: nat, i: nat)
    requires i > 0
    ensures Digit(x, i) == Digit(x / 2, i - 1)
  { Nest(x, 2, Pow2(i - 1)); }

  lemma DigitLow(x: nat)
    ensures Digit(x, 0) == (x % 2 == 1)
  {}

  lemma Halves(p: nat, q: nat)
    requires p < 2
    ensures (p + 2 * q) % 2 == p && (p + 2 * q) / 2 == q
  {}

  /** The digits of `p + 2 * q`. */
  lemma DigitOf(p: nat, q: nat, i: nat)
    requires p < 2
    ensures Digit(p + 2 * q, i) == if i == 0 then p == 1 else Digit(q, i - 1)
  {
    Halves(p, q);
    if i == 0 { DigitLow(p + 2 * q); } else { DigitStep(p + 2 * q, i); }
  }

  lemma {:induction false} AndDigit(n: nat, a: nat, b: nat, i: nat)
    requires i < n
    ensures Digit(BitAnd(n, a, b), i) <==> Digit(a, i) && Digit(b, i)
    decreases n
  {
    hide Digit;
    DigitOf(a % 2 * (b % 2), BitAnd(n - 1, a / 2, b / 2), i);
    if i == 0 {
      DigitLow(a);
      DigitLow(b);
    } else {
      AndDigit(n - 1, a / 2, b / 2, i - 1);
      DigitStep(a, i);
      DigitStep(b, i);
    }
  }

  lemma {:induction false} OrDigit(n: nat, a: nat, b: nat, i: nat)
    requires i < n
    ensures Digit(BitOr(n, a, b), i) <==> Digit(a, i) || Digit(b, i)
    decreases n
  {
    hide Digit;
    DigitOf(if a % 2 + b % 2 > 0 then 1 else 0, BitOr(n - 1, a / 2, b / 2), i);
    if i == 0 {
      DigitLow(a);
      DigitLow(b);
    } else {
      OrDigit(n - 1, a / 2, b / 2, i - 1);
      DigitStep(a, i);
      DigitStep(b, i);
    }
  }

  lemma {:induction false} XorDigit(n: nat, a: nat, b: nat, i: nat)
    requires i < n
    ensures Digit(BitXor(n, a, b), i) <==> Digit(a, i) != Digit(b, i)
    decreases n
  {
    hide Digit;
    DigitOf((a + b) % 2, BitXor(n - 1, a / 2, b / 2), i);
    if i == 0 {
      DigitLow(a);
      DigitLow(b);
    } else {
      XorDigit(n - 1, a / 2, b / 2, i - 1);
      DigitStep(a, i);
      DigitStep(b, i);
    }
  }

  /** The complement to all ones flips every digit. */
  lemma {:induction false} NotDigit(n: nat, a: nat, i: nat)
    requires i < n && a < Pow2(n)
    ensures Digit(Pow2(n) - 1 - a, i) == !Digit(a, i)
    decreases n
  {
    hide Digit;
    var c := Pow2(n) - 1 - a;
    assert c == 1 - a % 2 + 2 * (Pow2(n - 1) - 1 - a / 2);
    DigitOf(1 - a % 2, Pow2(n - 1) - 1 - a / 2, i);
    if i == 0 {
      DigitLow(a);
    } else {
      NotDigit(n - 1, a / 2, i - 1);
      DigitStep(a, i);
    }
  }

  /** Multiplying by a power of two moves the digits up. */
  lemma {:induction false} ShiftDigit(x: nat, k: nat, i: nat)
    ensures Digit(x * Pow2(k), i) <==> i >= k && Digit(x, i - k)
    decreases k
  {
    hide Digit;
    if k == 0 {
      assert x * Pow2(0) == x;
    } else {
      assert x * Pow2(k) == 0 + 2 * (x * Pow2(k - 1));
      DigitOf(0, x * Pow2(k - 1), i);
      if i > 0 { ShiftDigit(x, k - 1, i - 1); }
    }
  }

  /** A number below 2^n has no digit from `n` on. */
  lemma {:induction false} DigitBeyond(x: nat, n: nat, i: nat)
    requires x < Pow2(n) && i >= n
    ensures !Digit(x, i)
    decreases i
  {
    hide Digit;
    if i == 0 {
      DigitLow(x);
    } else {
      DigitStep(x, i);
      DigitBeyond(x / 2, if n == 0 then 0 else n - 1, i - 1);
    }
  }

  // ----- results in registers -----

  /** Register `r` gets `v`, the pc goes on by one instruction, nothing else changes. */
  predicate Sets(g: Guest, g': Guest, r: u8, v: u64)
  { r < 32 && g' == g.(ctx := g.ctx.(pc := U64(g.ctx.pc + 4), x := g.ctx.x[r := v])) }

  predicate Registers(d: DecodedInstr) { d.rd < 32 && d.rn < 32 && d.rm < 32 }

  /** AND, ORR and EOR work digit by digit. */
  lemma Logical(d: DecodedInstr, g: Guest)
    requires d.opcode in {0x10, 0x12, 0x14} && Registers(d)
    ensures var v := Exec(d, g).ctx.x[d.rd];
            Sets(g, Exec(d, g), d.rd, v) && Combined(d.opcode, g.ctx.x[d.rn], g.ctx.x[d.rm], v)
  {
    hide BitAnd, BitOr, BitXor, And64, Or64, Xor64, Pow2, Combined, CheckCondition, AccessAddr;
    LogicalCombined(g.ctx.x[d.rn], g.ctx.x[d.rm]);
  }

  /** `v` is `a` and `b` combined digit by digit. */
  predicate Combined(opcode: u8, a: u64, b: u64, v: u64)
  {
    forall i :: 0 <= i < 64 ==>
      (Digit(v, i) <==> match opcode
                        case 0x10 => Digit(a, i) && Digit(b, i)
                        case 0x12 => Digit(a, i) || Digit(b, i)
                        case _ => Digit(a, i) != Digit(b, i))
  }

  lemma LogicalCombined(a: u64, b: u64)
    ensures Combined(0x10, a, b, And64(a, b)) && Combined(0x12, a, b, Or64(a, b)) && Combined(0x14, a, b, Xor64(a, b))
  {
    hide Digit, BitAnd, BitOr, BitXor, Pow2;
    forall i | 0 <= i < 64
      ensures Digit(And64(a, b), i) <==> Digit(a, i) && Digit(b, i)
      ensures Digit(Or64(a, b), i) <==> Digit(a, i) || Digit(b, i)
      ensures Digit(Xor64(a, b), i) <==> Digit(a, i) != Digit(b, i)
    {
      AndDigit(64, a, b, i);
      OrDigit(64, a, b, i);
      XorDigit(64, a, b, i);
    }
  }

  /** The lowest bit of the halfword that MOVN and MOVK name. */
  function HalfwordAt(d: DecodedInstr): nat { 16 * (d.raw / 0x20_0000 % 4) }

  lemma Selector(d: DecodedInstr)
    ensures HalfwordShift(d) == HalfwordAt(d) && HalfwordAt(d) in {0, 16, 32, 48}
  { assert Bits(d.raw, 22, 21) == d.raw / 0x20_0000 % 4; }

  lemma Pow2Halves()
    ensures Pow2(0) == 1 && Pow2(16) == 0x1_0000
  { Pow2Byte(0); Pow2Byte(8); }

  lemma Pow2FortyEight()
    ensures Pow2(48) == 0x1_0000_0000_0000
  {
    Pow2Words();
    hide Pow2;
    Pow2Byte(32);
    assert Pow2(40) == 256 * Pow2(32);
    Pow2Byte(40);
  }

  lemma Pow2Sixteen(k: nat)
    requires k in {0, 16, 32, 48}
    ensures Pow2(16) == 0x1_0000 && Pow2(k) * 0x1_0000 <= TWO_64
  {
    Pow2Halves();
    Pow2Words();
    Pow2FortyEight();
    hide Pow2;
  }

  lemma ProductFits(imm: nat, p: nat)
    requires imm < 0x1_0000 && p * 0x1_0000 <= TWO_64
    ensures imm * p <= TWO_64 - p
  { MulMono(imm + 1, 0x1_0000, p); }

  /** A halfword shifted into its place keeps all its digits. */
  lemma HalfwordFits(imm: nat, k: nat)
    requires imm < 0x1_0000 && k in {0, 16, 32, 48}
    ensures U64(imm * Pow2(k)) == imm * Pow2(k) < TWO_64
  {
    hide Pow2;
    Pow2Sixteen(k);
    ProductFits(imm, Pow2(k));
    Small(imm * Pow2(k));
  }

  lemma Small(x: nat)
    requires x < TWO_64
    ensures U64(x) == x
  {}

  lemma {:induction false} OnesDigit(n: nat, i: nat)
    ensures Digit(Pow2(n) - 1, i) <==> i < n
  {
    if i < n {
      NotDigit(n, 0, i);
      ZeroDigit(i);
    } else {
      DigitBeyond(Pow2(n) - 1, n, i);
    }
  }

  lemma ZeroDigit(i: nat)
    ensures !Digit(0, i)
  { assert 0 < Pow2(0); DigitBeyond(0, 0, i); }

  /** Digit `i` of an immediate placed at bit `k`. */
  predicate Placed(imm: nat, k: nat, i: nat) { k <= i < k + 16 && Digit(imm, i - k) }

  lemma PlacedDigit(imm: nat, k: nat, i: nat)
    requires imm < 0x1_0000 && k in {0, 16, 32, 48}
    ensures Digit(U64(imm * Pow2(k)), i) <==> Placed(imm, k, i)
    ensures Digit(U64(0xFFFF * Pow2(k)), i) <==> k <= i < k + 16
  {
    hide Digit, Pow2, U64;
    HalfwordFits(imm, k);
    HalfwordFits(0xFFFF, k);
    ShiftDigit(imm, k, i);
    ShiftDigit(0xFFFF, k, i);
    Pow2Sixteen(k);
    if i >= k {
      OnesDigit(16, i - k);
      if i >= k + 16 { DigitBeyond(imm, 16, i - k); }
    }
  }

  lemma NotWord(a: u64, i: nat)
    requires i < 64
    ensures Digit(Not64(a), i) == !Digit(a, i)
  { Pow2Words(); NotDigit(64, a, i); hide Pow2, Digit; }

  /** MOVZ writes the immediate. MOVK replaces the sixteen digits of one halfword and keeps the others;
      MOVN writes the complement of the placed immediate. */
  lemma Moves(d: DecodedInstr, g: Guest)
    requires d.opcode in {0x21, 0x22, 0x23} && d.rd < 32 && d.imm < 0x1_0000
    ensures var k, x, v := HalfwordAt(d), g.ctx.x[d.rd], Exec(d, g).ctx.x[d.rd];
            Sets(g, Exec(d, g), d.rd, v) &&
            (d.opcode == 0x22 ==> v == d.imm) &&
            forall i :: 0 <= i < 64 ==>
              && (d.opcode == 0x21 ==> (Digit(v, i) <==> !Placed(d.imm, k, i)))
              && (d.opcode == 0x23 ==> (Digit(v, i) <==> if k <= i < k + 16 then Digit(d.imm, i - k) else Digit(x, i)))
  {
    hide Digit, BitAnd, BitOr, Pow2, Not64, HalfwordAt;
    Selector(d);
    var k, x := HalfwordAt(d), g.ctx.x[d.rd];
    var mask, put := Not64(U64(0xFFFF * Pow2(k))), U64(d.imm * Pow2(k));
    forall i | 0 <= i < 64
      ensures Digit(Not64(put), i) <==> !Placed(d.imm, k, i)
      ensures Digit(Or64(And64(x, mask), put), i) <==> if k <= i < k + 16 then Digit(d.imm, i - k) else Digit(x, i)
    {
      PlacedDigit(d.imm, k, i);
      NotWord(put, i);
      NotWord(U64(0xFFFF * Pow2(k)), i);
      AndDigit(64, x, mask, i);
      OrDigit(64, And64(x, mask), put, i);
    }
  }

  /** ADD and SUB take the immediate, also where the record names a second register. */
  lemma Arithmetic(d: DecodedInstr, g: Guest)
    requires d.opcode in {0x00, 0x01} && d.rd < 32 && d.rn < 32
    ensures Sets(g, Exec(d, g), d.rd, (if d.opcode == 0x00 then g.ctx.x[d.rn] + d.imm else g.ctx.x[d.rn] + (TWO_64 - d.imm)) % TWO_64)
  {}

  /** ADR adds to the pc, ADRP to the start of its 4096-byte page. */
  lemma Addresses(d: DecodedInstr, g: Guest, page: nat)
    requires d.opcode in {0x24, 0x25} && d.rd < 32
    requires 4096 * page <= g.ctx.pc < 4096 * (page + 1)
    ensures Sets(g, Exec(d, g), d.rd, U64(if d.opcode == 0x24 then g.ctx.pc + d.immS else 4096 * (page + d.immS)))
  {}

  /** A register move; a select between two registers; NOP; and a compare, which writes the flags only. */
  lemma Others(d: DecodedInstr, g: Guest)
    requires Registers(d)
    ensures d.opcode == 0x20 ==> Sets(g, Exec(d, g), d.rd, g.ctx.x[d.rm])
    ensures d.opcode == 0x40 ==> Sets(g, Exec(d, g), d.rd, g.ctx.x[if CheckCondition(g.ctx.nzcv, d.cond) then d.rn else d.rm])
    ensures d.opcode == 0x90 ==> Exec(d, g) == g.(ctx := g.ctx.(pc := U64(g.ctx.pc + 4)))
    ensures d.opcode in {0x30, 0x31} ==>
              Exec(d, g) == g.(ctx := g.ctx.(pc := U64(g.ctx.pc + 4), nzcv := Exec(d, g).ctx.nzcv))
  { hide And64, Or64, Pow2; }

  // ----- conditions and branches -----

  /** The condition table of the architecture, in pairs: an odd condition is the opposite of the even one
      before it. The interpreter keeps to that for 15 as well, which the architecture reads as "always". */
  predicate Passed(nzcv: u64, cond: u8)
    requires cond < 16
  {
    var n, z, c, v := Digit(nzcv, 31), Digit(nzcv, 30), Digit(nzcv, 29), Digit(nzcv, 28);
    var even := match cond / 2
      case 0 => z
      case 1 => c
      case 2 => n
      case 3 => v
      case 4 => c && !z
      case 5 => n == v
      case 6 => n == v && !z
      case _ => true;
    even == (cond % 2 == 0)
  }

  lemma FlagDigits(nzcv: u64)
    ensures FlagN(nzcv) == Digit(nzcv, 31) && FlagZ(nzcv) == Digit(nzcv, 30)
    ensures FlagC(nzcv) == Digit(nzcv, 29) && FlagV(nzcv) == Digit(nzcv, 28)
  {
    Pow2Words();
    assert Pow2(32) == 2 * Pow2(31) && Pow2(31) == 2 * Pow2(30) && Pow2(30) == 2 * Pow2(29) && Pow2(29) == 2 * Pow2(28);
    hide Pow2;
  }

  lemma ConditionPassed(nzcv: u64, cond: u8)
    requires cond < 16
    ensures CheckCondition(nzcv, cond) <==> Passed(nzcv, cond)
  {
    FlagDigits(nzcv);
    hide Digit, FlagN, FlagZ, FlagC, FlagV;
  }

  /** Only the pc changes, to `pc`. */
  predicate GoesTo(g: Guest, g': Guest, pc: u64) { g' == g.(ctx := g.ctx.(pc := pc)) }

  function After(g: Guest): u64 { U64(g.ctx.pc + 4) }

  /** The target of a relative branch: the offset is added as it stands, without a sign. */
  function Target(d: DecodedInstr, g: Guest): u64 { U64(g.ctx.pc + d.branchOffset) }

  /** B, BL, BR and RET: where they go, and the link BL leaves in X30. */
  lemma Jumps(d: DecodedInstr, g: Guest)
    requires d.rn < 32
    ensures d.opcode == 0x50 ==> GoesTo(g, Exec(d, g), Target(d, g))
    ensures d.opcode == 0x51 ==> Exec(d, g) == g.(ctx := g.ctx.(pc := Target(d, g), x := g.ctx.x[30 := After(g)]))
    ensures d.opcode == 0x52 ==> GoesTo(g, Exec(d, g), g.ctx.x[d.rn])
    ensures d.opcode == 0x53 ==> GoesTo(g, Exec(d, g), g.ctx.x[if d.rn == 31 then 30 else d.rn])
  { hide CheckCondition, Pow2; }

  /** B.cond goes to its target if the condition passes, CBZ if the register is zero, CBNZ if it is not (the low
      32 bits of it when the size field is clear), TBZ and TBNZ by one bit; otherwise to the next instruction. */
  lemma Branches(d: DecodedInstr, g: Guest)
    requires d.rn < 32 && d.cond < 16 && d.imm < 64
    ensures var x := g.ctx.x[d.rn]; var zero := if d.size == 0 then x % TWO_32 == 0 else x == 0;
            && (d.opcode == 0x54 ==> GoesTo(g, Exec(d, g), if Passed(g.ctx.nzcv, d.cond) then Target(d, g) else After(g)))
            && (d.opcode == 0x55 ==> GoesTo(g, Exec(d, g), if zero then Target(d, g) else After(g)))
            && (d.opcode == 0x56 ==> GoesTo(g, Exec(d, g), if zero then After(g) else Target(d, g)))
            && (d.opcode == 0x57 ==> GoesTo(g, Exec(d, g), if Digit(x, d.imm) then After(g) else Target(d, g)))
            && (d.opcode == 0x58 ==> GoesTo(g, Exec(d, g), if Digit(x, d.imm) then Target(d, g) else After(g)))
  {
    ConditionPassed(g.ctx.nzcv, d.cond);
    assert Bit(g.ctx.x[d.rn], U32(d.imm)) == Digit(g.ctx.x[d.rn], d.imm) by { assert U32(d.imm) == d.imm; }
    hide CheckCondition, Passed, Pow2, Digit, Bit, U32;
  }

  /** After CMP every condition says what the architecture says about the operands; after TST N and Z speak of the
      common digits and C and V are clear. */
  lemma Compares(d: DecodedInstr, g: Guest, cond: u8)
    requires d.opcode in {0x30, 0x31} && Registers(d) && cond <= 13
    ensures var a, b, w := g.ctx.x[d.rn], g.ctx.x[d.rm], Exec(d, g).ctx.nzcv;
            && (d.opcode == 0x30 ==> (Passed(w, cond) <==> Conditions.Relation(cond, a, b)))
            && (d.opcode == 0x31 ==>
                  && !Digit(w, 29) && !Digit(w, 28) && (Digit(w, 31) <==> And64(a, b) >= TWO_63)
                  && (Digit(w, 30) <==> And64(a, b) == 0))
  {
    hide Digit, Conditions.Relation, CmpNzcv, Passed, PackNzcv, FlagN, FlagZ, FlagC, FlagV, And64, CheckCondition;
    var a, b := g.ctx.x[d.rn], g.ctx.x[d.rm];
    var r := And64(a, b);
    ConditionPassed(Exec(d, g).ctx.nzcv, cond);
    Conditions.ConditionTable(a, b, cond);
    Conditions.PackedFlags(r >= TWO_63, r == 0, false, false);
    FlagDigits(TstNzcv(a, b));
  }

  // ----- memory -----

  /** The bytes an opcode moves. */
  function Width(opcode: u8): nat
    requires opcode in {0x60, 0x61, 0x62, 0x63, 0x70, 0x71, 0x72, 0x73}
  { match opcode % 16 case 0 => 1 case 1 => 2 case 2 => 4 case _ => 8 }

  /** The address of an access: byte and halfword accesses take the immediate only; the others take the
      immediate, or the signed one, or a shifted register, whichever comes first and is not empty; a literal load
      counts words from the pc. */
  function Address(d: DecodedInstr, c: CPUContext): u64
    requires d.rn < 32
  {
    var base := c.x[d.rn];
    if d.opcode % 16 <= 1 then U64(base + d.imm)
    else if d.opcode <= 0x63 && d.pcRelative then U64(c.pc + 4 * d.immS)
    else if d.imm != 0 then U64(base + d.imm)
    else if d.immS != 0 then U64(base + d.immS)
    else if d.rm < 31 && (d.opcode >= 0x70 || d.shiftType < 4) then U64(base + c.x[d.rm] * Pow2(d.shiftType))
    else base
  }

  lemma AddMod(a: u64, b: int)
    ensures U64(a + U64(b)) == U64(a + b)
  {}

  lemma AddressIs(d: DecodedInstr, c: CPUContext)
    requires d.rn < 32 && d.opcode in {0x60, 0x61, 0x62, 0x63, 0x70, 0x71, 0x72, 0x73}
    ensures AccessAddr(d, c) == Address(d, c)
  {
    hide Pow2, U64;
    if d.opcode % 16 >= 2 && !(d.opcode <= 0x63 && d.pcRelative) {
      AddMod(c.x[d.rn], d.immS);
      if d.rm < 31 { AddMod(c.x[d.rn], c.x[d.rm] * Pow2(d.shiftType)); }
      AddNothing(c.x[d.rn]);
    }
  }

  lemma AddNothing(a: u64)
    ensures U64(a + 0) == a
  {}

  /** `v` is the number whose `n` bytes stand at `a`, least significant first. */
  predicate Assembled(m: Mem, a: int, n: nat, v: nat)
    requires Mapped(m, a, n)
  { v < Pow2(8 * n) && forall i :: 0 <= i < n ==> v / Pow2(8 * i) % 256 == m[a + i] }

  lemma {:induction false} BytesOf(s: seq<u8>, i: nat)
    requires i < |s|
    ensures UnLe(s) / Pow2(8 * i) % 256 == s[i]
    decreases i
  {
    if i > 0 {
      BytesOf(s[1..], i - 1);
      Pow2Byte(8 * i - 8);
      Nest(UnLe(s), 256, Pow2(8 * i - 8));
      DivUnique(UnLe(s), 256, UnLe(s[1..]), s[0]);
    }
  }

  lemma AssembledIs(m: Mem, a: int, n: nat)
    requires Mapped(m, a, n)
    ensures Assembled(m, a, n, UnLe(ReadBytes(m, a, n)))
  {
    var s := ReadBytes(m, a, n);
    UnLeBound(s);
    hide UnLe, Pow2;
    forall i | 0 <= i < n ensures UnLe(s) / Pow2(8 * i) % 256 == m[a + i] { BytesOf(s, i); }
  }

  lemma {:induction false} ByteOf(v: nat, n: nat, i: nat)
    requires i < n
    ensures Le(v, n)[i] == v / Pow2(8 * i) % 256
    decreases n
  {
    if i > 0 {
      ByteOf(v / 256, n - 1, i - 1);
      Pow2Byte(8 * i - 8);
      Nest(v, 256, Pow2(8 * i - 8));
    }
  }

  /** A refused or faulting access: the crash flag, bit 2, is set and nothing else. */
  ghost predicate Breaks(g: Guest, g': Guest)
  {
    && g' == g.(ctx := g.ctx.(pc := After(g), stateFlags := g'.ctx.stateFlags))
    && forall i: nat :: Digit(g'.ctx.stateFlags, i) <==> i == 2 || Digit(g.ctx.stateFlags, i)
  }

  lemma ThreeDigits(p: nat, q: nat, s: nat, r: nat, i: nat)
    requires p < 2 && q < 2 && s < 2
    ensures Digit(p + 2 * (q + 2 * (s + 2 * r)), i) ==
            if i == 0 then p == 1 else if i == 1 then q == 1 else if i == 2 then s == 1 else Digit(r, i - 3)
  {
    hide Digit;
    var t := s + 2 * r;
    var u := q + 2 * t;
    DigitOf(p, u, i);
    if i > 0 { DigitOf(q, t, i - 1); }
    if i > 1 { DigitOf(s, r, i - 2); }
  }

  lemma ThirdBit(f: nat)
    requires f / 4 % 2 == 0
    ensures f == f % 2 + 2 * (f / 2 % 2 + 2 * (0 + 2 * (f / 8)))
  {
    var h := f / 2;
    assert f == f % 2 + 2 * h;
    assert h / 2 == f / 4 by { Nest(f, 2, 2); }
    var q := h / 2;
    assert h == h % 2 + 2 * q;
    assert q / 2 == f / 8 by { Nest(f, 4, 2); }
    assert q == q % 2 + 2 * (q / 2);
  }

  lemma FlagSet(f: nat, i: nat)
    requires f / 4 % 2 == 0
    ensures Digit(f + 4, i) <==> i == 2 || Digit(f, i)
  {
    hide Digit;
    ThirdBit(f);
    ThreeDigits(f % 2, f / 2 % 2, 0, f / 8, i);
    ThreeDigits(f % 2, f / 2 % 2, 1, f / 8, i);
    assert f + 4 == f % 2 + 2 * (f / 2 % 2 + 2 * (1 + 2 * (f / 8)));
  }

  lemma CrashBreaks(g: Guest, g': Guest)
    requires g' == g.(ctx := g.ctx.Crash().Next())
    ensures Breaks(g, g') && g'.ctx.Crashed()
  {
    var f := g.ctx.stateFlags;
    if f / 4 % 2 == 0 {
      forall i: nat ensures Digit(f + 4, i) <==> i == 2 || Digit(f, i) { FlagSet(f, i); }
    } else {
      assert Digit(f, 2) by { assert Pow2(2) == 4; }
    }
    hide Digit;
  }

  /** A load zero-extends the bytes at its address into the register, or breaks when the region table or the
      host refuses; the four-byte load asks the table nothing. */
  lemma Loads(d: DecodedInstr, g: Guest)
    requires d.opcode in {0x60, 0x61, 0x62, 0x63} && d.rn < 32 && d.rt < 32
    ensures var n, a, g' := Width(d.opcode), Address(d, g.ctx), Exec(d, g);
            if Mapped(g.mem, a, n) && (n == 4 || CheckPerms(g.regions, a, n, ReadAccess)) then
              Sets(g, g', d.rt, g'.ctx.x[d.rt]) && Assembled(g.mem, a, n, g'.ctx.x[d.rt])
            else Breaks(g, g')
  {
    hide Pow2, Address, AccessAddr, Mapped, CheckPerms, Breaks, UnLe, Assembled;
    AddressIs(d, g.ctx);
    var n, a := Width(d.opcode), Address(d, g.ctx);
    if Mapped(g.mem, a, n) && (n == 4 || CheckPerms(g.regions, a, n, ReadAccess)) {
      AssembledIs(g.mem, a, n);
      WidthFits(g.mem, a, n);
    } else {
      CrashBreaks(g, Exec(d, g));
    }
  }

  lemma WidthFits(m: Mem, a: int, n: nat)
    requires Mapped(m, a, n) && n <= 8
    ensures U64(UnLe(ReadBytes(m, a, n))) == UnLe(ReadBytes(m, a, n))
  {
    UnLeBound(ReadBytes(m, a, n));
    Pow2Words();
    PowersGrow(8 * n, 64);
    hide Pow2, UnLe;
    Small(UnLe(ReadBytes(m, a, n)));
  }

  lemma {:induction false} PowersGrow(a: nat, b: nat)
    requires a <= b
    ensures Pow2(a) <= Pow2(b)
    decreases b
  { if a < b { PowersGrow(a, b - 1); } }

  /** A store writes the low bytes of the register, least significant first, and is dropped without notice when the
      region table or the host refuses. */
  lemma Stores(d: DecodedInstr, g: Guest, k: int)
    requires d.opcode in {0x70, 0x71, 0x72, 0x73} && d.rn < 32 && d.rt < 32
    ensures var n, a, g' := Width(d.opcode), Address(d, g.ctx), Exec(d, g);
            && g' == g.(ctx := g.ctx.(pc := After(g)), mem := g'.mem)
            && (k in g'.mem <==> k in g.mem)
            && (k in g.mem ==>
                  g'.mem[k] == if g.CanWrite(a, n) && a <= k < a + n then g.ctx.x[d.rt] / Pow2(8 * (k - a)) % 256 else g.mem[k])
  {
    hide Pow2, Address, AccessAddr, Guest.CanWrite, Le;
    AddressIs(d, g.ctx);
    var n, a := Width(d.opcode), Address(d, g.ctx);
    if a <= k < a + n { ByteOf(g.ctx.x[d.rt], n, k - a); }
  }

  /** LDP reads two words, eight bytes apart, into two registers, the second one last; if either is refused it
      breaks, and neither register changes. */
  lemma LoadPairs(d: DecodedInstr, g: Guest)
    requires d.opcode == 0x80 && d.rn < 32 && d.rt < 32 && d.rm < 32
    ensures var a := U64(g.ctx.x[d.rn] + d.immS); var b, g' := Second(a), Exec(d, g);
            if g.CanRead(a, 8) && g.CanRead(b, 8) then
              exists v: u64, w: u64 ::
                Assembled(g.mem, a, 8, v) && Assembled(g.mem, b, 8, w)
                && g' == g.(ctx := g.ctx.(pc := After(g), x := g.ctx.x[d.rt := v][d.rm := w]))
            else Breaks(g, g')
  {
    hide Pow2, Breaks, UnLe, Assembled, CheckPerms, Mapped;
    var a := U64(g.ctx.x[d.rn] + d.immS);
    var b := Second(a);
    if g.CanRead(a, 8) && g.CanRead(b, 8) {
      AssembledIs(g.mem, a, 8);
      AssembledIs(g.mem, b, 8);
      assert Assembled(g.mem, a, 8, Read64(g.mem, a)) && Assembled(g.mem, b, 8, Read64(g.mem, b));
    } else {
      CrashBreaks(g, Exec(d, g));
    }
  }

  /** The place of the second word of a pair. */
  function Second(a: int): u64 { U64(a + 8) }

  /** The byte at `k` behind a store of eight bytes at `a`. */
  function Behind(g: Guest, a: u64, v: u64, k: int, was: u8): u8
  { if g.CanWrite(a, 8) && a <= k < a + 8 then v / Pow2(8 * (k - a)) % 256 else was }

  lemma StoreByte(g: Guest, a: u64, v: u64, k: int)
    ensures var g' := g.Store(a, 8, v);
            g'.ctx == g.ctx && g'.regions == g.regions && g'.mem.Keys == g.mem.Keys
            && (k in g.mem <==> k in g'.mem) && (k in g.mem ==> g'.mem[k] == Behind(g, a, v, k, g.mem[k]))
  {
    hide Pow2, Le, CheckPerms;
    if a <= k < a + 8 { ByteOf(v, 8, k - a); }
  }

  /** STP stores two registers eight bytes apart, the second one last, each dropped on its own when refused. */
  lemma StorePairs(d: DecodedInstr, g: Guest, k: int)
    requires d.opcode == 0x81 && d.rn < 32 && d.rt < 32 && d.rm < 32
    ensures var a := U64(g.ctx.x[d.rn] + d.immS); var g' := Exec(d, g);
            && g' == g.(ctx := g.ctx.(pc := After(g)), mem := g'.mem)
            && (k in g'.mem <==> k in g.mem)
            && (k in g.mem ==>
                  g'.mem[k] == Behind(g, Second(a), g.ctx.x[d.rm], k, Behind(g, a, g.ctx.x[d.rt], k, g.mem[k])))
  {
    hide Pow2, Le, CheckPerms, Guest.Store, Behind;
    var a := U64(g.ctx.x[d.rn] + d.immS);
    var g1 := g.Store(a, 8, g.ctx.x[d.rt]);
    StoreByte(g, a, g.ctx.x[d.rt], k);
    StoreByte(g1, Second(a), g.ctx.x[d.rm], k);
    SameRights(g, g1, Second(a), g.ctx.x[d.rm], k);
  }

  lemma SameRights(g: Guest, g1: Guest, a: u64, v: u64, k: int)
    requires g1.regions == g.regions && g1.mem.Keys == g.mem.Keys
    ensures forall was: u8 :: Behind(g1, a, v, k, was) == Behind(g, a, v, k, was)
  {
    hide CheckPerms, Pow2;
    assert forall j :: j in g.mem <==> j in g.mem.Keys;
    assert forall j :: j in g1.mem <==> j in g1.mem.Keys;
  }

  /** The opcodes the interpreter knows. */
  const KNOWN: set<u8> := {
    0x00, 0x01, 0x10, 0x12, 0x14, 0x20, 0x21, 0x22, 0x23, 0x24, 0x25, 0x30, 0x31, 0x40,
    0x50, 0x51, 0x52, 0x53, 0x54, 0x55, 0x56, 0x57, 0x58,
    0x60, 0x61, 0x62, 0x63, 0x70, 0x71, 0x72, 0x73, 0x80, 0x81, 0x90}

  /** Every other opcode crashes the guest. */
  lemma UnknownBreaks(d: DecodedInstr, g: Guest)
    requires d.opcode !in KNOWN
    ensures Breaks(g, Exec(d, g)) && Exec(d, g).ctx.Crashed()
  {
    hide Breaks;
    CrashBreaks(g, Exec(d, g));
  }
}
