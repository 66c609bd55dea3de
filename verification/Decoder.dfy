/** The ARM64 decoder (src/decoder/arm64_decoder.cpp). Every helper receives the partly filled
    record and returns it with a success flag, because a helper that fails leaves its writes
    behind for the next attempt. */
module Decoder {
  import opened Words

  datatype Category =
    | UNKNOWN | INTEGER_ARITH | LOGICAL | SHIFT | BRANCH | BRANCH_COND | LOAD_STORE
    | LOAD_STORE_PAIR | COMPARE | MOVE | SYSTEM | SIMD_FP | SYSCALL

  datatype DecodedInstr = DecodedInstr(
    raw: u32, category: Category, opcode: u8, rd: u8, rn: u8, rm: u8, rt: u8,
    imm: u64, immS: i64, shiftType: u8, shiftAmount: u8, size: u8, cond: u8,
    setsFlags: bool, pcRelative: bool, branchOffset: u32)

  datatype Attempt = Attempt(ok: bool, out: DecodedInstr)

  /** Powers of two for the constant bit positions of a 32-bit word. */
  function P2(k: int): (p: int)
    requires 0 <= k <= 32
    ensures p >= 1
  {
    if k == 0 then 0x1 else if k == 1 then 0x2 else if k == 2 then 0x4 else if k == 3 then 0x8 else
    if k == 4 then 0x10 else if k == 5 then 0x20 else if k == 6 then 0x40 else
    if k == 7 then 0x80 else if k == 8 then 0x100 else if k == 9 then 0x200 else
    if k == 10 then 0x400 else if k == 11 then 0x800 else if k == 12 then 0x1000 else
    if k == 13 then 0x2000 else if k == 14 then 0x4000 else if k == 15 then 0x8000 else
    if k == 16 then 0x10000 else if k == 17 then 0x20000 else if k == 18 then 0x40000 else
    if k == 19 then 0x80000 else if k == 20 then 0x100000 else if k == 21 then 0x200000 else
    if k == 22 then 0x400000 else if k == 23 then 0x800000 else if k == 24 then 0x1000000 else
    if k == 25 then 0x2000000 else if k == 26 then 0x4000000 else if k == 27 then 0x8000000 else
    if k == 28 then 0x10000000 else if k == 29 then 0x20000000 else if k == 30 then 0x40000000 else
    if k == 31 then 0x80000000 else 0x1_0000_0000
  }

  /** `bits(val, hi, lo)`. */
  function Bits(w: u32, hi: int, lo: int): (r: u32)
    requires 0 <= lo <= hi <= 31
    ensures r < P2(hi - lo + 1)
  { w / P2(lo) % P2(hi - lo + 1) }

  /** `sign_extend(val, width)`: the low `width` bits of `val` read as a signed number. */
  function SignExtend(val: u32, width: int): (r: i32)
    requires 1 <= width <= 31
  {
    var low := val % P2(width);
    if low >= P2(width - 1) then low - P2(width) else low
  }

  /** `uint32_t x = int32_t << 2` */
  function BranchOffset(words: i32): u32 { U32(4 * words) }

  const ZeroedInstr := DecodedInstr(0, UNKNOWN, 0, 0, 0, 0, 0, 0, 0, 0, 0, 0, 0, false, false, 0)

  function Fail(out: DecodedInstr): Attempt { Attempt(false, out.(category := UNKNOWN)) }

  /** The opcode of a load or store from the size field and the load bit. */
  function LoadStoreOpcode(opc: u32, isLoad: bool): u8
    requires opc < 4
  { (if isLoad then 0x60 else 0x70) + opc }

  function LogicalOpcode(op: u32, op2: u32): u8
  {
    var combined := 32 * op + op2;
    if combined == 0x00 then 0x10
    else if combined == 0x01 then 0x11
    else if combined == 0x2A then 0x12
    else if combined == 0x2B then 0x13
    else if combined == 0x48 then 0x14
    else if combined == 0x49 then 0x15
    else if combined == 0x0A then 0x16
    else if combined == 0x0B then 0x17
    else 0x10
  }

  function DecodeDataProcReg(w: u32, out0: DecodedInstr): Attempt
  {
    var out := out0.(size := Bits(w, 31, 31));
    var op := Bits(w, 30, 21);
    var regs := out.(rd := Bits(w, 4, 0), rn := Bits(w, 9, 5), rm := Bits(w, 20, 16));
    var shifted := regs.(shiftType := Bits(w, 23, 22), shiftAmount := Bits(w, 15, 10));
    var andsOp, andsOp2 := Bits(w, 30, 29), Bits(w, 28, 24);
    if op == 0x02C || op == 0x2AC then
      Attempt(true, shifted.(category := INTEGER_ARITH, opcode := 0x00, setsFlags := Bits(w, 29, 29) == 1))
    else if op == 0x034 || op == 0x234 then
      Attempt(true, shifted.(category := INTEGER_ARITH, opcode := 0x01, setsFlags := Bits(w, 29, 29) == 1))
    else if andsOp <= 2 && (andsOp2 <= 3 || 8 <= andsOp2 <= 11) then
      var opcode := LogicalOpcode(andsOp, andsOp2);
      Attempt(true, shifted.(category := LOGICAL, opcode := opcode,
                             setsFlags := opcode == 0x16 || opcode == 0x17))
    else if op == 0x2A0 && Bits(w, 9, 5) == 31 then
      Attempt(true, out.(category := MOVE, opcode := 0x20, rd := Bits(w, 4, 0), rn := 31, rm := Bits(w, 20, 16)))
    else if op == 0x1B0 then
      Attempt(true, regs.(category := INTEGER_ARITH, opcode := if Bits(w, 15, 10) == 31 then 0x02 else 0x03))
    else if op == 0x1AC then
      Attempt(true, regs.(category := INTEGER_ARITH, opcode := if Bits(w, 11, 10) == 1 then 0x05 else 0x04))
    else if Bits(w, 30, 22) == 0x0D3 then
      Attempt(true, regs.(category := SHIFT, opcode := Bits(w, 23, 22)))
    else if op == 0x2B0 && Bits(w, 4, 0) == 31 then
      Attempt(true, out.(category := COMPARE, opcode := 0x30, rn := Bits(w, 9, 5), rm := Bits(w, 20, 16), setsFlags := true))
    else if op == 0x2A0 && Bits(w, 4, 0) == 31 && Bits(w, 28, 24) == 10 then
      Attempt(true, out.(category := COMPARE, opcode := 0x31, rn := Bits(w, 9, 5), rm := Bits(w, 20, 16), setsFlags := true))
    else if Bits(w, 30, 24) == 0x1A8 then
      Attempt(true, regs.(category := BRANCH_COND, opcode := 0x40, cond := Bits(w, 15, 12)))
    else
      Fail(out)
  }

  function DecodeDataProcImm(w: u32, out0: DecodedInstr): Attempt
  {
    var out := out0.(size := Bits(w, 31, 31));
    var op := Bits(w, 30, 24);
    var imm12: u64 := Bits(w, 21, 10);
    var addSub := out.(category := INTEGER_ARITH, rd := Bits(w, 4, 0), rn := Bits(w, 9, 5), rm := 0xFF,
                       imm := if Bits(w, 22, 22) == 1 then imm12 * 4096 else imm12,
                       setsFlags := Bits(w, 30, 30) == 1);
    if op == 0x11 || op == 0x31 then
      Attempt(true, addSub.(opcode := 0x00))
    else if op == 0x51 || op == 0x71 then
      Attempt(true, addSub.(opcode := 0x01))
    else if Bits(w, 28, 23) == 0x26 || Bits(w, 28, 23) == 0x27 then
      var immr, imms := Bits(w, 21, 16), Bits(w, 15, 10);
      var sbfm := Bits(w, 28, 23) == 0x26;
      var base := out.(category := INTEGER_ARITH, rd := Bits(w, 4, 0), rn := Bits(w, 9, 5), rm := 0xFF, imm := immr);
      if sbfm && imms == 63 then Attempt(true, base.(opcode := 0x04))
      else if !sbfm && imms == 63 then Attempt(true, base.(opcode := 0x05))
      else if !sbfm && imms == 63 - immr then Attempt(true, base.(opcode := 0x06))
      else Attempt(true, base.(opcode := if sbfm then 0x07 else 0x08, immS := imms))
    else if Bits(w, 28, 23) == 0x25 then
      var opc := Bits(w, 30, 29);
      var mov := out.(category := MOVE, rd := Bits(w, 4, 0), imm := Bits(w, 20, 5));
      Attempt(true, if opc == 0 then mov.(opcode := 0x21)
                    else if opc == 2 then mov.(opcode := 0x22)
                    else if opc == 3 then mov.(opcode := 0x23)
                    else mov)
    else
      Fail(out)
  }

  function DecodeBranch(w: u32, out: DecodedInstr): Attempt
  {
    if Bits(w, 31, 26) == 0x05 then
      Attempt(true, out.(category := BRANCH, opcode := 0x50, branchOffset := BranchOffset(SignExtend(w, 26))))
    else if Bits(w, 31, 26) == 0x25 then
      Attempt(true, out.(category := BRANCH, opcode := 0x51, branchOffset := BranchOffset(SignExtend(w, 26))))
    else if Bits(w, 31, 26) == 0x35 && Bits(w, 15, 10) == 0 && Bits(w, 4, 0) == 0 then
      if Bits(w, 9, 5) == 30 then Attempt(true, out.(category := BRANCH, opcode := 0x53, rn := 30))
      else Attempt(true, out.(category := BRANCH, opcode := 0x52, rn := Bits(w, 9, 5)))
    else if Bits(w, 31, 25) == 0x2A then
      Attempt(true, out.(category := BRANCH_COND, opcode := 0x54, cond := Bits(w, 3, 0),
                         branchOffset := BranchOffset(SignExtend(w, 19))))
    else if Bits(w, 31, 25) == 0x1A || Bits(w, 31, 25) == 0x5A then
      Attempt(true, out.(category := BRANCH_COND, opcode := if Bits(w, 24, 24) == 1 then 0x56 else 0x55,
                         rn := Bits(w, 9, 5), size := Bits(w, 31, 31),
                         branchOffset := BranchOffset(SignExtend(w, 19))))
    else
      Fail(out)
  }

  function DecodeLoadStore(w: u32, out: DecodedInstr): Attempt
  {
    var opc, form := Bits(w, 31, 30), Bits(w, 28, 26);
    var base := out.(category := LOAD_STORE, rt := Bits(w, 4, 0), rn := Bits(w, 9, 5),
                     opcode := LoadStoreOpcode(opc, Bits(w, 22, 22) == 1));
    if form == 7 then
      Attempt(true, base.(imm := U32(Bits(w, 21, 10) * P2(opc))))
    else if form == 2 || form == 6 then
      Attempt(true, base.(rm := Bits(w, 20, 16), shiftType := Bits(w, 13, 12), imm := 0))
    else if form == 3 then
      var imm9 := SignExtend(Bits(w, 20, 12), 9);
      Attempt(true, base.(rm := 255, immS := imm9, imm := U64(imm9)))
    else if Bits(w, 31, 25) == 0x14 then
      var imm7 := Bits(w, 21, 15);
      Attempt(true, out.(category := LOAD_STORE_PAIR, rt := Bits(w, 4, 0), rn := Bits(w, 9, 5),
                         rm := Bits(w, 14, 10), imm := imm7, immS := 8 * SignExtend(imm7, 7),
                         opcode := if Bits(w, 22, 22) == 1 then 0x80 else 0x81))
    else
      Fail(out)
  }

  function DecodeSystem(w: u32, out: DecodedInstr): Attempt
  {
    if w == 0xD503201F then
      Attempt(true, out.(category := SYSTEM, opcode := 0x90))
    else if Bits(w, 31, 22) == 0x354 then
      var op1 := Bits(w, 11, 8);
      Attempt(true, out.(category := SYSTEM, rd := Bits(w, 4, 0),
                         opcode := if op1 == 5 then 0x91 else if op1 == 6 then 0x92 else if op1 == 7 then 0x93
                                   else if op1 == 0 then 0x94 else if op1 == 1 then 0x95 else 0x90))
    else
      Fail(out)
  }

  predicate IsAdrpByte(b: u32) { b == 0x90 || b == 0xB0 || b == 0xD0 || b == 0xF0 }

  function DecodePcRel(w: u32, out: DecodedInstr): Attempt
  {
    var b := Bits(w, 31, 24);
    var imm21 := SignExtend(4 * Bits(w, 23, 5) + Bits(w, 30, 29), 21);
    var adr := out.(category := MOVE, rd := Bits(w, 4, 0), immS := imm21, imm := U64(imm21), pcRelative := true);
    if b == 0x10 then Attempt(true, adr.(opcode := 0x24))
    else if IsAdrpByte(b) then Attempt(true, adr.(opcode := 0x25))
    else if Bits(w, 31, 26) == 0x16 then
      var ldr := out.(category := LOAD_STORE, rt := Bits(w, 4, 0), rn := 31,
                      immS := SignExtend(Bits(w, 23, 5), 19), pcRelative := true);
      var opc := Bits(w, 31, 30);
      Attempt(true, if opc == 0 then ldr.(opcode := 0x62)
                    else if opc == 1 then ldr.(opcode := 0x63)
                    else ldr.(category := SIMD_FP))
    else
      Fail(out)
  }

  function DecodeTestBranch(w: u32, out: DecodedInstr): Attempt
  {
    var cond := Bits(w, 24, 24);
    Attempt(true, out.(category := BRANCH_COND, rn := Bits(w, 4, 0), size := Bits(w, 31, 31), cond := cond,
                       opcode := if cond == 1 then 0x58 else 0x57, imm := Bits(w, 23, 19),
                       branchOffset := BranchOffset(SignExtend(Bits(w, 18, 5), 14))))
  }

  /** The `bits[28:24]` patterns routed to the register data-processing decoder. */
  predicate DataProcRegForm(f: u32) { f <= 11 || 16 <= f <= 19 || f == 24 || f == 25 }

  predicate AddSubImmForm(f: u32) { f == 0x11 || f == 0x51 || f == 0x31 || f == 0x71 }

  /** `decode`, before the last group of fall-through attempts. The SIMD decoder at lines 142-144
      is never reached: its two `op1` values return from the load/store routing at line 114. */
  function Decode(w: u32): Attempt
  {
    var out := ZeroedInstr.(raw := w);
    var op1, op25, b := Bits(w, 31, 29), Bits(w, 31, 25), Bits(w, 31, 24);
    var form := Bits(w, 28, 24);
    if b == 0x10 || IsAdrpByte(b) || Bits(w, 31, 26) == 0x16 then DecodePcRel(w, out)
    else if op25 == 0x36 || op25 == 0x37 then DecodeTestBranch(w, out)
    else if op1 == 5 && AddSubImmForm(Bits(w, 30, 24)) then DecodeDataProcImm(w, out)
    else if op1 == 5 && DataProcRegForm(form) then DecodeDataProcReg(w, out)
    else if op1 == 5 then DecodeBranch(w, out)
    else if Bits(w, 31, 26) == 0x05 || Bits(w, 31, 26) == 0x25 then DecodeBranch(w, out)
    else
      var first := if DataProcRegForm(form) then DecodeDataProcReg(w, out) else Attempt(false, out);
      if first.ok then first else DecodeRest(w, first.out)
  }

  /** `decode` from line 89 on: what is left once the register decoder was tried or skipped. */
  function DecodeRest(w: u32, out: DecodedInstr): Attempt
  {
    var op1 := Bits(w, 31, 29);
    if Bits(w, 28, 23) == 0x25 then DecodeDataProcImm(w, out)
    else if AddSubImmForm(Bits(w, 30, 24)) then DecodeDataProcImm(w, out)
    else if Bits(w, 31, 25) == 0x2A then DecodeBranch(w, out)
    else if Bits(w, 31, 26) == 0x35 && Bits(w, 15, 10) == 0 && Bits(w, 4, 0) == 0 then DecodeBranch(w, out)
    else if op1 == 1 || op1 == 2 || op1 == 3 || op1 == 7 then DecodeLoadStore(w, out)
    else DecodeLast(w, out)
  }

  /** The last attempts, lines 117-147, for `op1` 0, 4 and 6. */
  function DecodeLast(w: u32, out: DecodedInstr): Attempt
  {
    var op := Bits(w, 30, 29);
    var bitfield := Bits(w, 28, 23) == 0x26 || Bits(w, 28, 23) == 0x27;
    var t1 := if bitfield then DecodeDataProcImm(w, out) else Attempt(false, out);
    if t1.ok then t1 else
    var t2 := if op <= 1 then DecodeDataProcReg(w, t1.out) else if op == 2 then DecodeDataProcImm(w, t1.out) else t1;
    if t2.ok then t2 else
    if Bits(w, 31, 25) == 0x6A then DecodeSystem(w, t2.out) else Fail(t2.out)
  }

  // ----- what every decoded instruction looks like -----

  /** The shape facts later stages rely on. */
  predicate DecoderShaped(d: DecodedInstr)
  {
    && d.category != SYSCALL
    && d.rd < 32 && d.rn < 32 && d.rt < 32 && d.shiftType < 4
    && (d.rm < 32 || d.rm == 255)
    && (d.opcode in {0x10, 0x12, 0x14, 0x20, 0x30, 0x31, 0x80, 0x81} ==> d.rm < 32)
    && (d.opcode <= 0x01 && d.rm == 255 ==> d.imm < 0x100_0000)
    && (0x21 <= d.opcode <= 0x23 ==> d.imm < 0x1_0000)
    && (0x57 <= d.opcode <= 0x58 ==> d.imm < 32)
    && (0x80 <= d.opcode <= 0x81 ==> -512 <= d.immS <= 504)
    && d.opcode <= 0x95 && d.opcode != 0x40
    && (0x50 <= d.opcode <= 0x58 <==> d.category in {BRANCH, BRANCH_COND})
  }

  /** What a failed attempt may have left in the record: nothing but the size. */
  predicate Untouched(w: u32, out: DecodedInstr)
  { out == ZeroedInstr.(raw := w, size := out.size) }

  lemma RegShape(w: u32, out: DecodedInstr)
    requires Untouched(w, out)
    ensures var a := DecodeDataProcReg(w, out); if a.ok then DecoderShaped(a.out) else Untouched(w, a.out)
  {}
  lemma ImmShape(w: u32, out: DecodedInstr)
    requires Untouched(w, out)
    ensures var a := DecodeDataProcImm(w, out); if a.ok then DecoderShaped(a.out) else Untouched(w, a.out)
  {}
  lemma BranchShape(w: u32, out: DecodedInstr)
    requires Untouched(w, out)
    ensures var a := DecodeBranch(w, out); if a.ok then DecoderShaped(a.out) else Untouched(w, a.out)
  {}
  lemma LoadStoreShape(w: u32, out: DecodedInstr)
    requires Untouched(w, out)
    ensures var a := DecodeLoadStore(w, out); if a.ok then DecoderShaped(a.out) else Untouched(w, a.out)
  {}
  lemma MiscShape(w: u32, out: DecodedInstr)
    requires Untouched(w, out)
    ensures var a := DecodeSystem(w, out); a.ok ==> DecoderShaped(a.out)
    ensures var a := DecodePcRel(w, out); a.ok ==> DecoderShaped(a.out)
    ensures var a := DecodeTestBranch(w, out); a.ok ==> DecoderShaped(a.out)
  {}

  lemma LastShape(w: u32, out: DecodedInstr)
    requires Untouched(w, out)
    ensures var a := DecodeLast(w, out); a.ok ==> DecoderShaped(a.out)
  {
    ImmShape(w, out);
    var bitfield := Bits(w, 28, 23) == 0x26 || Bits(w, 28, 23) == 0x27;
    var t1 := if bitfield then DecodeDataProcImm(w, out) else Attempt(false, out);
    if !t1.ok {
      var op := Bits(w, 30, 29);
      RegShape(w, t1.out);
      ImmShape(w, t1.out);
      var t2 := if op <= 1 then DecodeDataProcReg(w, t1.out) else if op == 2 then DecodeDataProcImm(w, t1.out) else t1;
      if !t2.ok { MiscShape(w, t2.out); }
    }
  }

  lemma RestShape(w: u32, out: DecodedInstr)
    requires Untouched(w, out)
    ensures var a := DecodeRest(w, out); a.ok ==> DecoderShaped(a.out)
  {
    hide DecodeDataProcImm, DecodeBranch, DecodeLoadStore, DecodeLast, DecoderShaped, Bits;
    ImmShape(w, out);
    BranchShape(w, out);
    LoadStoreShape(w, out);
    LastShape(w, out);
  }

  /** Every decoded instruction has the shape, whatever route it took. */
  lemma DecodeShape(w: u32)
    ensures Decode(w).ok ==> DecoderShaped(Decode(w).out)
  {
    hide DecodeDataProcImm, DecodeBranch, DecodePcRel, DecodeTestBranch, DecodeDataProcReg, DecodeRest, DecoderShaped, Bits;
    var out := ZeroedInstr.(raw := w);
    MiscShape(w, out);
    ImmShape(w, out);
    RegShape(w, out);
    BranchShape(w, out);
    RestShape(w, out);
    var first := DecodeDataProcReg(w, out);
    if !first.ok { RestShape(w, first.out); }
  }
}
