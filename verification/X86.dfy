/** The part of x86_64 the emitter uses: a machine, an instruction decoder that follows sections
    2.1 and 2.2.1 of the Intel SDM Vol. 2 (REX, ModRM, SIB, displacement, immediate), and an
    evaluator that runs raw bytes. Nothing here depends on how the emitter picks its encodings. */
module X86 {
  import opened Words

  type Reg = x: int | 0 <= x < 16
  type RegFile = s: seq<u64> | |s| == 16 witness seq(16, i => 0)

  const RAX: Reg := 0
  const RCX: Reg := 1
  const RDX: Reg := 2
  const RSP: Reg := 4
  const RDI: Reg := 7
  const R9: Reg := 9
  const R12: Reg := 12

  datatype AluOp = ADD | OR | AND | SUB | XOR | CMP | TEST | MOV
  datatype ShiftOp = SHL | SHR | SAR

  datatype Instr =
    | MovImm(reg: Reg, imm: u64)
    | Alu(op: AluOp, dst: Reg, src: Reg)
    | AluImm(op: AluOp, reg: Reg, imm32: u32)
    | ShiftImm(shift: ShiftOp, reg: Reg, count: u8)
    | Load(reg: Reg, base: Reg, disp: i32)
    | Store(base: Reg, disp: i32, reg: Reg)
    | LoadRip(reg: Reg, disp: i32)
    | StoreRip(disp: i32, reg: Reg)
    | Jcc(cc: u8, rel: i32)
    | Pushfq | PopRax | Nop | Ret

  // ----- decoding -----

  datatype Decoded = Undefined | Decoded(instr: Instr, len: nat)

  datatype Operand = NoOperand | AtBase(base: Reg, disp: i32, used: nat) | AtRip(disp: i32, used: nat)

  function Signed8(b: u8): i32 { if b < 128 then b else b - 256 }

  function Signed32(s: seq<u8>): i32
    requires |s| == 4
  {
    UnLeBound(s); Pow2Words();
    var v := UnLe(s);
    if v < TWO_31 then v else v - TWO_32
  }

  /** The memory operand whose ModRM byte is `s[0]`, with REX.B given; REX.X is clear. */
  function DecodeOperand(s: seq<u8>, b: int): (o: Operand)
    requires 0 <= b <= 1
    ensures !o.NoOperand? ==> o.used <= |s|
  {
    if |s| == 0 then NoOperand else
    var mod, rm := s[0] / 64, s[0] % 8;
    var sib := rm == 4;
    if sib && (|s| < 2 || s[1] / 8 % 8 != 4) then NoOperand else
    var low := if sib then s[1] % 8 else rm;
    var at := if sib then 2 else 1;
    if mod == 0 then
      if low == 5 then
        if sib || |s| < at + 4 then NoOperand else AtRip(Signed32(s[at..at + 4]), at + 4)
      else AtBase(8 * b + low, 0, at)
    else if mod == 1 then
      if |s| < at + 1 then NoOperand else AtBase(8 * b + low, Signed8(s[at]), at + 1)
    else if mod == 2 then
      if |s| < at + 4 then NoOperand else AtBase(8 * b + low, Signed32(s[at..at + 4]), at + 4)
    else NoOperand
  }

  function AluOfOpcode(op: u8): AluOp
  {
    match op
    case 0x01 => ADD
    case 0x09 => OR
    case 0x21 => AND
    case 0x29 => SUB
    case 0x31 => XOR
    case 0x39 => CMP
    case 0x85 => TEST
    case _ => MOV
  }

  function AluOfExt(ext: int): AluOp
  {
    match ext
    case 0 => ADD
    case 1 => OR
    case 4 => AND
    case 5 => SUB
    case 6 => XOR
    case 7 => CMP
    case _ => MOV
  }

  /** An instruction behind a REX.W prefix with bits R and B; `s` starts at the opcode. The
      length counts the prefix. */
  function DecodeWide(s: seq<u8>, r: int, b: int): Decoded
    requires 0 <= r <= 1 && 0 <= b <= 1
  {
    if |s| == 0 then Undefined else
    var op := s[0];
    if 0xB8 <= op <= 0xBF then
      if |s| < 9 then Undefined else
      UnLeBound(s[1..9]); Pow2Words();
      Decoded(MovImm(8 * b + op - 0xB8, UnLe(s[1..9])), 10)
    else if |s| < 2 then Undefined else
    var reg, rm := 8 * r + s[1] / 8 % 8, 8 * b + s[1] % 8;
    var ext := s[1] / 8 % 8;
    if op in {0x01, 0x09, 0x21, 0x29, 0x31, 0x39, 0x85, 0x89} && s[1] >= 0xC0 then
      Decoded(Alu(AluOfOpcode(op), rm, reg), 3)
    else if op == 0x89 || op == 0x8B then
      var o := DecodeOperand(s[1..], b);
      match o
      case NoOperand => Undefined
      case AtBase(base, disp, used) =>
        Decoded(if op == 0x89 then Store(base, disp, reg) else Load(reg, base, disp), 2 + used)
      case AtRip(disp, used) =>
        Decoded(if op == 0x89 then StoreRip(disp, reg) else LoadRip(reg, disp), 2 + used)
    else if op == 0x81 && s[1] >= 0xC0 && ext !in {2, 3} && |s| >= 6 then
      UnLeBound(s[2..6]); Pow2Words();
      Decoded(AluImm(AluOfExt(ext), rm, UnLe(s[2..6])), 7)
    else if op == 0xC1 && s[1] >= 0xC0 && ext in {4, 5, 7} && |s| >= 3 then
      Decoded(ShiftImm(if ext == 4 then SHL else if ext == 5 then SHR else SAR, rm, s[2]), 4)
    else Undefined
  }

  /** The instruction at the front of `s`. */
  function Decode(s: seq<u8>): (d: Decoded)
    ensures d.Decoded? ==> d.len > 0
  {
    if |s| == 0 then Undefined
    else if 0x48 <= s[0] <= 0x4F && s[0] / 2 % 2 == 0 then DecodeWide(s[1..], s[0] / 4 % 2, s[0] % 2)
    else if s[0] == 0x9C then Decoded(Pushfq, 1)
    else if s[0] == 0x58 then Decoded(PopRax, 1)
    else if s[0] == 0x90 then Decoded(Nop, 1)
    else if s[0] == 0xC3 then Decoded(Ret, 1)
    else if s[0] == 0x0F && |s| >= 6 && 0x80 <= s[1] <= 0x8F then
      Decoded(Jcc(s[1] - 0x80, Signed32(s[2..6])), 6)
    else Undefined
  }

  // ----- execution -----

  datatype Flags = Flags(cf: bool, zf: bool, sf: bool, of: bool, pf: bool, af: bool)

  /** The RFLAGS image PUSHFQ stores: bit 1 is fixed, interrupts are enabled. */
  function Rflags(f: Flags): u64
  {
    (if f.cf then 1 else 0) + 2 + (if f.pf then 4 else 0) + (if f.af then 16 else 0) +
    (if f.zf then 64 else 0) + (if f.sf then 128 else 0) + 512 + (if f.of then 2048 else 0)
  }

  function EvenParity(x: nat, n: nat): bool
  { n == 0 || (if x % 2 == 1 then !EvenParity(x / 2, n - 1) else EvenParity(x / 2, n - 1)) }

  function ResultFlags(r: u64, cf: bool, of: bool, af: bool): Flags
  { Flags(cf, r == 0, r >= TWO_63, of, EvenParity(r % 256, 8), af) }

  predicate InI64(x: int) { -TWO_63 <= x < TWO_63 }

  function SubFlags(a: u64, b: u64): Flags
  { ResultFlags(U64(a - b), a < b, !InI64(AsI64(a) - AsI64(b)), a % 16 < b % 16) }

  function AluResult(op: AluOp, a: u64, b: u64): u64
  {
    match op
    case ADD => U64(a + b)
    case SUB => U64(a - b)
    case OR => Or64(a, b)
    case AND => And64(a, b)
    case XOR => Xor64(a, b)
    case CMP => a
    case TEST => a
    case MOV => b
  }

  /** AF is undefined after a logical operation; it is taken as clear. */
  function AluFlags(op: AluOp, a: u64, b: u64, f: Flags): Flags
  {
    match op
    case ADD => ResultFlags(U64(a + b), a + b >= TWO_64, !InI64(AsI64(a) + AsI64(b)), a % 16 + b % 16 >= 16)
    case SUB => SubFlags(a, b)
    case CMP => SubFlags(a, b)
    case TEST => ResultFlags(And64(a, b), false, false, false)
    case MOV => f
    case _ => ResultFlags(AluResult(op, a, b), false, false, false)
  }

  /** A 32-bit immediate is sign-extended to 64 bits. */
  function SignedImm(i: u32): u64 { if i < TWO_31 then i else i + TWO_64 - TWO_32 }

  function ShiftResult(op: ShiftOp, a: u64, count: nat): u64
  {
    match op
    case SHL => U64(a * Pow2(count))
    case SHR => U64(a / Pow2(count))
    case SAR => U64(AsI64(a) / Pow2(count))
  }

  /** A shift by zero leaves the flags alone. CF is the last bit shifted out. OF is defined for a shift
      by one only: SHL compares the new sign with CF, SHR takes the old sign, SAR clears it; for larger
      counts OF, and AF always, are undefined and taken as clear. */
  function ShiftFlags(op: ShiftOp, a: u64, count: nat, f: Flags): Flags
  {
    if count == 0 then f else
    var out := if op == SHL then U64(a * Pow2(count - 1)) >= TWO_63
               else if op == SHR then a / Pow2(count - 1) % 2 == 1
               else AsI64(a) / Pow2(count - 1) % 2 == 1;
    var r := ShiftResult(op, a, count);
    var of := count == 1 && (if op == SHL then (r >= TWO_63) != out else op == SHR && a >= TWO_63);
    ResultFlags(r, out, of, false)
  }

  /** The sixteen condition codes. */
  predicate Holds(cc: u8, f: Flags)
  {
    var base := match cc / 2
      case 0 => f.of
      case 1 => f.cf
      case 2 => f.zf
      case 3 => f.cf || f.zf
      case 4 => f.sf
      case 5 => f.pf
      case 6 => f.sf != f.of
      case _ => f.zf || f.sf != f.of;
    if cc % 2 == 0 then base else !base
  }

  datatype Machine = Machine(regs: RegFile, flags: Flags, mem: Mem)
  {
    function Set(r: Reg, v: u64): Machine { this.(regs := regs[r := v]) }
    function Ea(base: Reg, disp: i32): u64 { U64(regs[base] + disp) }
  }

  datatype Effect = Fault | Done(m: Machine)

  /** One instruction that does not transfer control. An access to unmapped memory faults.
      RIP-relative operands are never executed by emitted code, so they count as faults. */
  function Effect1(i: Instr, m: Machine): Effect
    requires !i.Ret? && !i.Jcc?
  {
    match i
    case MovImm(r, v) => Done(m.Set(r, v))
    case Alu(op, dst, src) =>
      var a, b := m.regs[dst], m.regs[src];
      Done(m.(flags := AluFlags(op, a, b, m.flags)).Set(dst, AluResult(op, a, b)))
    case AluImm(op, r, imm) =>
      var a, b := m.regs[r], SignedImm(imm);
      Done(m.(flags := AluFlags(op, a, b, m.flags)).Set(r, AluResult(op, a, b)))
    case ShiftImm(op, r, count) =>
      var a, n := m.regs[r], count % 64;
      Done(m.(flags := ShiftFlags(op, a, n, m.flags)).Set(r, ShiftResult(op, a, n)))
    case Load(r, base, disp) =>
      var ea := m.Ea(base, disp);
      if Mapped(m.mem, ea, 8) then Done(m.Set(r, Read64(m.mem, ea))) else Fault
    case Store(base, disp, r) =>
      var ea := m.Ea(base, disp);
      if Mapped(m.mem, ea, 8) then Done(m.(mem := Write64(m.mem, ea, m.regs[r]))) else Fault
    case Pushfq =>
      var top: int := m.regs[RSP];
      var sp := U64(top - 8);
      if Mapped(m.mem, sp, 8) then Done(m.(mem := Write64(m.mem, sp, Rflags(m.flags))).Set(RSP, sp)) else Fault
    case PopRax =>
      var sp: int := m.regs[RSP];
      if Mapped(m.mem, sp, 8) then Done(m.Set(RSP, U64(sp + 8)).Set(RAX, Read64(m.mem, sp))) else Fault
    case Nop => Done(m)
    case _ => Fault
  }

  /** The end of a run: a `ret`, a memory fault, or control that left the code: bytes that are no
      instruction, the end of the buffer, or a jump that is not strictly forward inside it. */
  datatype Outcome = Returned(m: Machine) | MemFault | Wild

  /** Runs the bytes of `code` from index `ip`. */
  function Run(code: seq<u8>, ip: nat, m: Machine): Outcome
    requires ip <= |code|
    decreases |code| - ip
  {
    var d := Decode(code[ip..]);
    if d.Undefined? || ip + d.len > |code| then Wild
    else if d.instr.Ret? then Returned(m)
    else if d.instr.Jcc? then
      var target := ip + d.len + d.instr.rel;
      if !Holds(d.instr.cc, m.flags) then Run(code, ip + d.len, m)
      else if ip < target <= |code| then Run(code, target, m)
      else Wild
    else
      match Effect1(d.instr, m)
      case Fault => MemFault
      case Done(m') => Run(code, ip + d.len, m')
  }
}
