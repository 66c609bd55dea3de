/** The byte emitter (src/backend/x86_64_emitter.cpp). `Encode` gives the bytes each emitter call
    writes, REX bugs included; the class writes them into a window of the code pool and drops
    what does not fit. */
module Emitter {
  import opened Words
  import opened X86

  // ----- the encodings -----

  /** `emit_rex(true, r, 0, b)`: the bits are disjoint, so the ors are sums. */
  function Rex(r: int, b: int): u8
    requires 0 <= r <= 1 && 0 <= b <= 1
  { 0x48 + 4 * r + b }

  function AluOpcode(op: AluOp): u8
  {
    match op
    case ADD => 0x01
    case OR => 0x09
    case AND => 0x21
    case SUB => 0x29
    case XOR => 0x31
    case CMP => 0x39
    case TEST => 0x85
    case MOV => 0x89
  }

  /** The opcode extension in the reg field of the immediate forms: 0xC0, 0xC8, 0xE0, ... */
  function AluExt(op: AluOp): (e: int)
    ensures 0 <= e <= 7
  {
    match op
    case ADD => 0
    case OR => 1
    case AND => 4
    case SUB => 5
    case XOR => 6
    case CMP => 7
    case _ => 0
  }

  function ShiftExt(op: ShiftOp): (e: int)
    ensures 0 <= e <= 7
  { match op case SHL => 4 case SHR => 5 case SAR => 7 }

  function ModRm(mod: int, reg: int, rm: int): u8
    requires 0 <= mod <= 3 && 0 <= reg <= 7 && 0 <= rm <= 7
  { 64 * mod + 8 * reg + rm }

  lemma ModRmFields(mod: int, reg: int, rm: int)
    requires 0 <= mod <= 3 && 0 <= reg <= 7 && 0 <= rm <= 7
    ensures var b := ModRm(mod, reg, rm); b / 64 == mod && b / 8 % 8 == reg && b % 8 == rm
  {
    var b := ModRm(mod, reg, rm);
    DivUnique(b, 64, mod, 8 * reg + rm);
    DivUnique(b, 8, 8 * mod + reg, rm);
    DivUnique(8 * mod + reg, 8, mod, reg);
  }

  lemma RexFields(r: int, b: int)
    requires 0 <= r <= 1 && 0 <= b <= 1
    ensures 0x48 <= Rex(r, b) <= 0x4F && Rex(r, b) / 2 % 2 == 0 && Rex(r, b) / 4 % 2 == r && Rex(r, b) % 2 == b
  {}

  /** ModRM and, for low base bits 100, the SIB byte without an index. */
  function ModHead(mod: int, reg: Reg, base: Reg): (s: seq<u8>)
    requires 0 <= mod <= 2
    ensures |s| >= 1
  { [ModRm(mod, reg % 8, base % 8)] + (if base % 8 == 4 then [0x24] else []) }

  /** ModRM, SIB and displacement, chosen as in `emit_mov_reg_mem` and `emit_mov_mem_reg`. */
  function ModMem(reg: Reg, base: Reg, disp: i32): (s: seq<u8>)
    ensures |s| >= 1
  {
    if disp == 0 then ModHead(0, reg, base)
    else if -128 <= disp <= 127 then ModHead(1, reg, base) + [disp % 256]
    else ModHead(2, reg, base) + Le(U32(disp), 4)
  }

  /** What can be asked of the emitter. */
  predicate Emittable(i: Instr)
  {
    match i
    case AluImm(op, _, _) => op != TEST && op != MOV
    case Jcc(cc, _) => cc < 16
    case LoadRip(_, _) => false
    case StoreRip(_, _) => false
    case _ => true
  }

  /** The bytes of one emitter call; nothing for what no call produces. */
  function Encode(i: Instr): seq<u8>
  {
    match i
    case MovImm(reg, imm) => [Rex(0, reg / 8), 0xB8 + reg % 8] + Le(imm, 8)
    case Alu(op, dst, src) => [Rex(src / 8, dst / 8), AluOpcode(op), ModRm(3, src % 8, dst % 8)]
    // the one-register forms pass `reg & 1` as REX.B
    case AluImm(op, reg, imm) => [Rex(0, reg % 2), 0x81, ModRm(3, AluExt(op), reg % 8)] + Le(imm, 4)
    case ShiftImm(op, reg, count) => [Rex(0, reg % 2), 0xC1, ModRm(3, ShiftExt(op), reg % 8), count]
    case Load(reg, base, disp) => [Rex(reg / 8, base / 8), 0x8B] + ModMem(reg, base, disp)
    case Store(base, disp, reg) => [Rex(reg / 8, base / 8), 0x89] + ModMem(reg, base, disp)
    case Jcc(cc, rel) => [0x0F, 0x80 + cc % 16] + Le(U32(rel), 4)
    case Pushfq => [0x9C]
    case PopRax => [0x58]
    case Nop => [0x90]
    case Ret => [0xC3]
    case _ => []
  }

  /** The long forms of the immediate operations: the bytes the source writes by hand. */
  function LongImm(op: AluOp, reg: Reg, imm: u64): seq<u8>
  {
    var there, back := Encode(Alu(MOV, RAX, reg)), Encode(Alu(MOV, reg, RAX));
    match op
    case ADD => there + ([0x48, 0x48, 0x05] + Le(imm, 8)) + back
    case SUB => there + ([0x48, 0x2D] + Le(imm, 8)) + back
    case CMP => there + ([0x48, 0x3D] + Le(imm, 8))
    case _ => Encode(MovImm(reg, imm))
  }

  function ImmCode(op: AluOp, reg: Reg, imm: u64): seq<u8>
  { if imm < TWO_32 then Encode(AluImm(op, reg, imm)) else LongImm(op, reg, imm) }

  /** Those bytes, one by one: `mov rax, reg`, one or two prefixes, an opcode for a 32-bit immediate with eight
      bytes behind it, and `mov reg, rax` but for CMP. */
  lemma LongBytes(op: AluOp, reg: Reg, imm: u64)
    requires op in {ADD, SUB, CMP}
    ensures var to, from := [0x48 + 4 * (reg / 8), 0x89, 0xC0 + 8 * (reg % 8)], [0x48 + reg / 8, 0x89, 0xC0 + reg % 8];
            var opcode := if op.ADD? then [0x48, 0x48, 0x05] else if op.SUB? then [0x48, 0x2D] else [0x48, 0x3D];
            LongImm(op, reg, imm) == to + (opcode + Le(imm, 8)) + if op.CMP? then [] else from
  { hide Le; }

  function EncodeAll(list: seq<Instr>): seq<u8>
  { if |list| == 0 then [] else Encode(list[0]) + EncodeAll(list[1..]) }

  lemma {:induction false} EncodeAppend(a: seq<Instr>, b: seq<Instr>)
    ensures EncodeAll(a + b) == EncodeAll(a) + EncodeAll(b)
    decreases |a|
  {
    hide Encode;
    if |a| == 0 {
      assert a + b == b;
    } else {
      EncodeAppend(a[1..], b);
      assert (a + b)[1..] == a[1..] + b;
    }
  }

  /** What stays of `s` in a window of `n` bytes. */
  function Clip(s: seq<u8>, n: nat): seq<u8> { if |s| <= n then s else s[..n] }

  /** The bytes `e` stand at index `ip` of `code`. */
  predicate At(code: seq<u8>, ip: nat, e: seq<u8>)
  { ip + |e| <= |code| && code[ip..ip + |e|] == e }

  lemma AtSplit(code: seq<u8>, ip: nat, a: seq<u8>, b: seq<u8>)
    requires At(code, ip, a + b)
    ensures At(code, ip, a) && At(code, ip + |a|, b)
  {
    var e := a + b;
    assert code[ip..ip + |a|] == code[ip..ip + |e|][..|a|] == a;
    assert code[ip + |a|..ip + |a| + |b|] == code[ip..ip + |e|][|a|..] == b;
  }

  lemma AtPrefix(code: seq<u8>, ip: nat, e: seq<u8>)
    requires At(code, ip, e)
    ensures e <= code[ip..]
  { assert code[ip..][..|e|] == code[ip..ip + |e|]; }

  // ----- what the bytes mean -----

  /** The register a one-register encoding really names. */
  function NamedReg(reg: Reg): Reg { 8 * (reg % 2) + reg % 8 }

  /** The instruction the bytes of `i` stand for, apart from the RIP-relative slip. */
  function Meaning(i: Instr): Instr
  {
    match i
    case AluImm(op, reg, imm) => AluImm(op, NamedReg(reg), imm)
    case ShiftImm(op, reg, count) => ShiftImm(op, NamedReg(reg), count)
    case _ => i
  }

  function Meanings(list: seq<Instr>): (r: seq<Instr>)
    ensures |r| == |list|
  { seq(|list|, k requires 0 <= k < |list| => Meaning(list[k])) }

  /** ModRM with mod 00 and low base bits 101 is the RIP-relative form. */
  predicate RipSlip(i: Instr)
  { (i.Load? || i.Store?) && i.base % 8 == 5 && i.disp == 0 }

  /** The calls whose bytes say what was asked for. */
  predicate Faithful(i: Instr)
  { !RipSlip(i) && (i.AluImm? || i.ShiftImm? ==> i.reg % 2 == i.reg / 8) }

  /** Bytes mean what was asked exactly for the faithful calls; the RIP slip aside. */
  lemma FaithfulMeaning(i: Instr)
    requires !RipSlip(i)
    ensures Meaning(i) == i <==> Faithful(i)
  {}

  lemma ShortOperand(reg: Reg, base: Reg, disp: i32, s: seq<u8>)
    requires -128 <= disp <= 127 && !(base % 8 == 5 && disp == 0) && ModMem(reg, base, disp) <= s
    ensures DecodeOperand(s, base / 8) == AtBase(base, disp, |ModMem(reg, base, disp)|)
    ensures s[0] < 0xC0 && s[0] / 8 % 8 == reg % 8
  {
    var mod := if disp == 0 then 0 else 1;
    ModRmFields(mod, reg % 8, base % 8);
    assert s[0] == ModRm(mod, reg % 8, base % 8);
    if base % 8 == 4 {
      assert s[1] == 0x24;
      assert mod == 1 ==> s[2] == disp % 256;
    } else {
      assert mod == 1 ==> s[1] == disp % 256;
    }
  }

  lemma LongOperand(reg: Reg, base: Reg, disp: i32, s: seq<u8>)
    requires !(-128 <= disp <= 127) && ModMem(reg, base, disp) <= s
    ensures DecodeOperand(s, base / 8) == AtBase(base, disp, |ModMem(reg, base, disp)|)
    ensures s[0] < 0xC0 && s[0] / 8 % 8 == reg % 8
  {
    ModRmFields(2, reg % 8, base % 8);
    assert s[0] == ModRm(2, reg % 8, base % 8);
    var tail := Le(U32(disp), 4);
    assert Signed32(tail) == disp by { Word32RoundTrip(U32(disp)); }
    if base % 8 == 4 {
      assert s[1] == 0x24 && s[2..6] == tail;
    } else {
      assert s[1..5] == tail;
    }
  }

  lemma DecodeMovImm(reg: Reg, imm: u64, s: seq<u8>)
    requires Encode(MovImm(reg, imm)) <= s
    ensures Decode(s) == Decoded(MovImm(reg, imm), 10)
  {
    RexFields(0, reg / 8);
    assert s[0] == Rex(0, reg / 8) && s[1] == 0xB8 + reg % 8 && s[1..][1..9] == Le(imm, 8);
    Word64RoundTrip(imm);
  }

  lemma DecodeAluImm(op: AluOp, reg: Reg, imm: u32, s: seq<u8>)
    requires Emittable(AluImm(op, reg, imm)) && Encode(AluImm(op, reg, imm)) <= s
    ensures Decode(s) == Decoded(AluImm(op, NamedReg(reg), imm), 7)
  {
    RexFields(0, reg % 2);
    ModRmFields(3, AluExt(op), reg % 8);
    var t, e := s[1..], Encode(AluImm(op, reg, imm));
    assert s[0] == Rex(0, reg % 2) && t[0] == 0x81 && t[1] == ModRm(3, AluExt(op), reg % 8);
    assert t[2..6] == s[3..7] == s[..7][3..] == e[3..] == Le(imm, 4) by { assert s[..7] == e; }
    Word32RoundTrip(imm);
  }

  lemma OperandRoundTrip(reg: Reg, base: Reg, disp: i32, s: seq<u8>)
    requires !(base % 8 == 5 && disp == 0) && ModMem(reg, base, disp) <= s
    ensures DecodeOperand(s, base / 8) == AtBase(base, disp, |ModMem(reg, base, disp)|)
    ensures s[0] < 0xC0 && s[0] / 8 % 8 == reg % 8
  {
    hide DecodeOperand;
    if -128 <= disp <= 127 { ShortOperand(reg, base, disp, s); } else { LongOperand(reg, base, disp, s); }
  }

  lemma DecodeMem(i: Instr, s: seq<u8>)
    requires (i.Load? || i.Store?) && !RipSlip(i) && Encode(i) <= s
    ensures Decode(s) == Decoded(i, |Encode(i)|)
  {
    hide DecodeOperand, ModMem, UnLe, Le;
    RexFields(i.reg / 8, i.base / 8);
    var t := s[1..];
    assert ModMem(i.reg, i.base, i.disp) <= t[1..];
    OperandRoundTrip(i.reg, i.base, i.disp, t[1..]);
    assert s[0] == Rex(i.reg / 8, i.base / 8) && t[0] == if i.Load? then 0x8B else 0x89;
    assert t[1] == t[1..][0];
    assert DecodeWide(t, i.reg / 8, i.base / 8) == Decoded(i, |Encode(i)|);
  }

  lemma DecodeJcc(cc: u8, rel: i32, s: seq<u8>)
    requires cc < 16 && Encode(Jcc(cc, rel)) <= s
    ensures Decode(s) == Decoded(Jcc(cc, rel), 6)
  {
    assert s[0] == 0x0F && s[1] == 0x80 + cc && s[2..6] == Le(U32(rel), 4);
    Word32RoundTrip(U32(rel));
  }

  lemma DecodeAlu(op: AluOp, dst: Reg, src: Reg, s: seq<u8>)
    requires Encode(Alu(op, dst, src)) <= s
    ensures Decode(s) == Decoded(Alu(op, dst, src), 3)
  {
    RexFields(src / 8, dst / 8);
    ModRmFields(3, src % 8, dst % 8);
    var t := s[1..];
    assert s[0] == Rex(src / 8, dst / 8) && t[0] == AluOpcode(op) && t[1] == ModRm(3, src % 8, dst % 8);
    assert DecodeWide(t, src / 8, dst / 8) == Decoded(Alu(op, dst, src), 3);
  }

  lemma DecodeShift(op: ShiftOp, reg: Reg, count: u8, s: seq<u8>)
    requires Encode(ShiftImm(op, reg, count)) <= s
    ensures Decode(s) == Decoded(ShiftImm(op, NamedReg(reg), count), 4)
  {
    RexFields(0, reg % 2);
    ModRmFields(3, ShiftExt(op), reg % 8);
    var t := s[1..];
    assert s[0] == Rex(0, reg % 2) && t[0] == 0xC1 && t[1] == ModRm(3, ShiftExt(op), reg % 8) && t[2] == count;
    assert DecodeWide(t, 0, reg % 2) == Decoded(ShiftImm(op, NamedReg(reg), count), 4);
  }

  /** Round trip of one call: its bytes, whatever follows them, decode to `Meaning(i)` and to
      nothing longer or shorter. */
  lemma DecodeEncode(i: Instr, s: seq<u8>)
    requires Emittable(i) && !RipSlip(i) && Encode(i) <= s
    ensures Decode(s) == Decoded(Meaning(i), |Encode(i)|)
  {
    match i
    case MovImm(reg, imm) => DecodeMovImm(reg, imm, s);
    case AluImm(op, reg, imm) => DecodeAluImm(op, reg, imm, s);
    case Load(_, _, _) => DecodeMem(i, s);
    case Store(_, _, _) => DecodeMem(i, s);
    case Jcc(cc, rel) => DecodeJcc(cc, rel, s);
    case Alu(op, dst, src) => DecodeAlu(op, dst, src, s);
    case ShiftImm(op, reg, count) => DecodeShift(op, reg, count, s);
    case Pushfq => assert s[0] == 0x9C;
    case PopRax => assert s[0] == 0x58;
    case Nop => assert s[0] == 0x90;
    case Ret => assert s[0] == 0xC3;
  }
}
