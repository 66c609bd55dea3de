/** `X86_64Emitter` (src/backend/x86_64_emitter.cpp): a cursor in a window of the code pool. */
module CodeBuffer {
  import opened Words
  import opened X86
  import opened Emitter

  /** The register a number names in the two-register and immediate-move encodings; NONE is 0xFF. */
  function Named(reg: u8): Reg
    requires reg < 16 || reg == 0xFF
  { if reg < 16 then reg else 15 }

  /** The pool holds `log` in its window and is as before outside. */
  predicate Windowed(pool: seq<u8>, before: seq<u8>, start: nat, size: nat, offset: nat, log: seq<u8>)
  {
    && start + size <= |pool| == |before|
    && pool[..start] == before[..start] && pool[start + size..] == before[start + size..]
    && offset <= size && pool[start..start + offset] == Clip(log, size)
  }

  class X86Emitter {
    var buf: array<u8>
    var start: nat
    var size: nat
    var offset: nat
    /** Every byte asked for since `SetBuffer`, also those that were dropped. */
    ghost var log: seq<u8>
    /** The pool at the time of `SetBuffer`. */
    ghost var before: seq<u8>

    /** The window holds what was asked for, as far as it fits; nothing outside it was touched. */
    ghost predicate Valid()
      reads this, buf
    { Windowed(buf[..], before, start, size, offset, log) }

    lemma OffsetIs()
      requires Valid()
      ensures offset == if |log| <= size then |log| else size
    {}

    constructor ()
      ensures Valid() && log == [] && fresh(buf)
    {
      buf := new u8[0];
      start, size, offset, log, before := 0, 0, 0, [], [];
    }

    /** `set_buffer`: the window [start, start + size) of the pool. */
    method SetBuffer(pool: array<u8>, start: nat, size: nat)
      requires start + size <= pool.Length
      modifies this
      ensures Valid() && buf == pool && this.start == start && this.size == size && offset == 0 && log == []
      ensures before == pool[..]
    {
      buf, this.start, this.size, offset, log, before := pool, start, size, 0, [], pool[..];
    }

    method EmitByte(b: u8)
      requires Valid()
      modifies this`offset, this`log, buf
      ensures Valid() && log == old(log) + [b]
    {
      OffsetIs();
      ghost var was := log;
      if offset < size {
        assert buf[start..start + offset] == log;
        buf[start + offset] := b;
        offset := offset + 1;
        assert buf[start..start + offset] == was + [b];
      }
      log := log + [b];
      assert Clip(log, size) == if |was| < size then was + [b] else Clip(was, size);
    }

    method EmitFour(a: u8, b: u8, c: u8, d: u8)
      requires Valid()
      modifies this`offset, this`log, buf
      ensures Valid() && log == old(log) + [a, b, c, d]
    {
      hide Valid;
      EmitByte(a);
      EmitByte(b);
      EmitByte(c);
      EmitByte(d);
    }

    method EmitDword(d: u32)
      requires Valid()
      modifies this`offset, this`log, buf
      ensures Valid() && log == old(log) + Le(d, 4)
    {
      hide Valid;
      EmitFour(d % 256, d / 0x100 % 256, d / 0x1_0000 % 256, d / 0x100_0000);
      Digits(d);
      LeFour(d % 256, d / 0x100 % 256, d / 0x1_0000 % 256, d / 0x100_0000, 0, 0);
      assert Le(0, 0) == [];
    }

    method EmitQword(q: u64)
      requires Valid()
      modifies this`offset, this`log, buf
      ensures Valid() && log == old(log) + Le(q, 8)
    {
      hide Valid;
      hide Le;
      EmitDword(q % TWO_32);
      EmitDword(q / TWO_32);
      LeHalves(q);
    }

    method EmitRex(r: int, b: int)
      requires Valid() && 0 <= r <= 1 && 0 <= b <= 1
      modifies this`offset, this`log, buf
      ensures Valid() && log == old(log) + [Rex(r, b)]
    {
      hide Valid;
      EmitByte(0x48 + 4 * r + b);
    }

    /** `emit_mov_reg_imm` */
    method MovRegImm(reg: u8, imm: u64)
      requires Valid() && (reg < 16 || reg == 0xFF)
      modifies this`offset, this`log, buf
      ensures Valid() && log == old(log) + Encode(MovImm(Named(reg), imm))
    {
      hide Valid;
      hide Le;
      if reg >= 8 { EmitRex(0, 1); } else { EmitRex(0, 0); }
      EmitByte(0xB8 + reg % 8);
      EmitQword(imm);
    }

    /** `emit_mov_reg_reg`, `emit_add_reg_reg` and the other two-register forms. */
    method RegReg(op: AluOp, dst: u8, src: u8)
      requires Valid() && dst < 16 && src < 16
      modifies this`offset, this`log, buf
      ensures Valid() && log == old(log) + Encode(Alu(op, dst, src))
    {
      hide Valid;
      EmitRex(src / 8 % 2, dst / 8 % 2);
      EmitByte(AluOpcode(op));
      EmitByte(ModRm(3, src % 8, dst % 8));
    }

    /** `emit_add_reg_imm` and its five siblings: the 32-bit form, whose REX.B is `reg & 1`, or a long one. */
    method RegImm(op: AluOp, reg: u8, imm: u64)
      requires Valid() && reg < 16 && op != TEST && op != MOV
      modifies this`offset, this`log, buf
      ensures Valid() && log == old(log) + ImmCode(op, reg, imm)
    {
      hide Valid, Le, Encode, LongImm;
      if imm <= 0xFFFF_FFFF {
        ShortForm(op, reg, imm);
      } else {
        LongForm(op, reg, imm);
      }
    }

    method ShortForm(op: AluOp, reg: u8, imm: u32)
      requires Valid() && reg < 16 && op != TEST && op != MOV
      modifies this`offset, this`log, buf
      ensures Valid() && log == old(log) + Encode(AluImm(op, reg, imm))
    {
      hide Valid;
      hide Le;
      EmitRex(0, reg % 2);
      EmitByte(0x81);
      EmitByte(ModRm(3, AluExt(op), reg % 8));
      EmitDword(imm);
    }

    /** The forms for an immediate above 32 bits: ADD, SUB and CMP go through RAX, the others move. */
    method LongForm(op: AluOp, reg: u8, imm: u64)
      requires Valid() && reg < 16 && op != TEST && op != MOV
      modifies this`offset, this`log, buf
      ensures Valid() && log == old(log) + LongImm(op, reg, imm)
    {
      hide Valid, Le, Encode;
      if op == ADD {
        LongHead(reg);
        EmitByte(0x48);
        FullImm(0x05, imm);
        RegReg(MOV, reg, RAX);
      } else if op == SUB {
        LongHead(reg);
        FullImm(0x2D, imm);
        RegReg(MOV, reg, RAX);
      } else if op == CMP {
        LongHead(reg);
        FullImm(0x3D, imm);
      } else {
        MovRegImm(reg, imm);
      }
    }

    /** `mov rax, reg` and a REX prefix. */
    method LongHead(reg: u8)
      requires Valid() && reg < 16
      modifies this`offset, this`log, buf
      ensures Valid() && log == old(log) + (Encode(Alu(MOV, RAX, reg)) + [0x48])
    {
      hide Valid, Encode;
      RegReg(MOV, RAX, reg);
      EmitRex(0, 0);
    }

    /** An opcode byte and eight bytes of immediate. */
    method FullImm(opcode: u8, imm: u64)
      requires Valid()
      modifies this`offset, this`log, buf
      ensures Valid() && log == old(log) + ([opcode] + Le(imm, 8))
    {
      hide Valid, Le;
      EmitByte(opcode);
      EmitQword(imm);
    }

    /** `emit_shl_reg_imm`, `emit_shr_reg_imm`, `emit_sar_reg_imm` */
    method ShiftRegImm(op: ShiftOp, reg: u8, count: u8)
      requires Valid() && reg < 16
      modifies this`offset, this`log, buf
      ensures Valid() && log == old(log) + Encode(ShiftImm(op, reg, count))
    {
      hide Valid;
      EmitRex(0, reg % 2);
      EmitByte(0xC1);
      EmitByte(ModRm(3, ShiftExt(op), reg % 8));
      EmitByte(count);
    }

    method OperandHead(mod: int, reg: u8, base: u8)
      requires Valid() && 0 <= mod <= 2 && (reg < 16 || reg == 0xFF) && base < 16
      modifies this`offset, this`log, buf
      ensures Valid() && log == old(log) + ModHead(mod, Named(reg), base)
    {
      hide Valid;
      EmitByte(ModRm(mod, reg % 8, base % 8));
      if base % 8 == 4 { EmitByte(0x24); }
    }

    /** ModRM, SIB and displacement, as both memory moves pick them. */
    method MemOperand(reg: u8, base: u8, disp: i32)
      requires Valid() && (reg < 16 || reg == 0xFF) && base < 16
      modifies this`offset, this`log, buf
      ensures Valid() && log == old(log) + ModMem(Named(reg), base, disp)
    {
      hide Valid, Le, ModHead;
      if disp == 0 {
        OperandHead(0, reg, base);
      } else if -128 <= disp <= 127 {
        OperandHead(1, reg, base);
        EmitByte(disp % 256);
      } else {
        OperandHead(2, reg, base);
        EmitDword(U32(disp));
      }
    }

    /** `emit_mov_reg_mem` */
    method MovRegMem(reg: u8, base: u8, disp: i32)
      requires Valid() && (reg < 16 || reg == 0xFF) && base < 16
      modifies this`offset, this`log, buf
      ensures Valid() && log == old(log) + Encode(Load(Named(reg), base, disp))
    {
      hide Valid;
      hide ModMem;
      EmitRex(reg / 8 % 2, base / 8 % 2);
      EmitByte(0x8B);
      MemOperand(reg, base, disp);
    }

    /** `emit_mov_mem_reg` */
    method MovMemReg(base: u8, disp: i32, reg: u8)
      requires Valid() && (reg < 16 || reg == 0xFF) && base < 16
      modifies this`offset, this`log, buf
      ensures Valid() && log == old(log) + Encode(Store(base, disp, Named(reg)))
    {
      hide Valid;
      hide ModMem;
      EmitRex(reg / 8 % 2, base / 8 % 2);
      EmitByte(0x89);
      MemOperand(reg, base, disp);
    }

    /** `patch_dword_at`: four bytes of the window, emitted or not; nothing if they do not lie in it. */
    method PatchDword(at: nat, value: u32)
      requires Valid()
      modifies this`log, buf
      ensures Valid()
      ensures if at + 4 <= size then
                && buf[..] == Patched(old(buf[..]), start + at, Le(value, 4))
                && log == Overlaid(old(log), at, Le(value, 4))
              else buf[..] == old(buf[..]) && log == old(log)
    {
      Bounds();
      hide *;
      if at + 4 <= size {
        PatchInside(at, Le(value, 4));
      }
    }

    lemma Bounds()
      requires Valid()
      ensures start + size <= buf.Length && Windowed(buf[..], before, start, size, offset, log)
    {}

    lemma Restored()
      ensures Windowed(buf[..], before, start, size, offset, log) ==> Valid()
    {}

    method PatchInside(at: nat, b: seq<u8>)
      requires Valid() && |b| == 4 && at + 4 <= size && start + size <= buf.Length
      modifies this`log, buf
      ensures Valid() && buf[..] == Patched(old(buf[..]), start + at, b) && log == Overlaid(old(log), at, b)
    {
      Bounds();
      hide *;
      PatchWindow(buf[..], before, start, size, offset, log, at, b);
      Overwrite(start + at, b);
      log := Overlaid(log, at, b);
      Restored();
    }

    method Overwrite(at: nat, b: seq<u8>)
      requires |b| == 4 && at + 4 <= buf.Length
      modifies buf
      ensures buf[..] == Patched(old(buf[..]), at, b)
    {
      forall i | 0 <= i < 4 { buf[at + i] := b[i]; }
    }
  }

  /** Four bytes written into a pool that holds a window of `log`. */
  lemma PatchWindow(pool: seq<u8>, before: seq<u8>, start: nat, size: nat, offset: nat, log: seq<u8>, at: nat, b: seq<u8>)
    requires |b| == 4 && at + 4 <= size && Windowed(pool, before, start, size, offset, log)
    ensures Windowed(Patched(pool, start + at, b), before, start, size, offset, Overlaid(log, at, b))
  {
    var now := Patched(pool, start + at, b);
    var c, o := Clip(log, size), Overlaid(log, at, b);
    assert now[..start] == pool[..start] && now[start + size..] == pool[start + size..];
    forall k | 0 <= k < offset ensures now[start..start + offset][k] == o[k] {
      assert c[k] == pool[start..start + offset][k] == pool[start + k];
    }
    assert now[start..start + offset] == o[..offset];
  }

  /** `s` with `b` in place of as many bytes at `at`. */
  function Patched(s: seq<u8>, at: nat, b: seq<u8>): (r: seq<u8>)
    requires at + |b| <= |s|
    ensures |r| == |s|
  { s[..at] + b + s[at + |b|..] }

  /** `s` with `b` written at `at`, as far as it lies in `s`. */
  function Overlaid(s: seq<u8>, at: nat, b: seq<u8>): (r: seq<u8>)
    ensures |r| == |s|
    ensures at + |b| <= |s| ==> r == Patched(s, at, b)
  { seq(|s|, k requires 0 <= k < |s| => if at <= k < at + |b| then b[k - at] else s[k]) }

  lemma LeByte(b: u8, k: nat, n: nat)
    ensures Le(b + 256 * k, n + 1) == [b] + Le(k, n)
  { DivUnique(b + 256 * k, 256, k, b); }

  /** The number with low bytes `b0`..`b3` and the rest `h`. */
  function Above(b0: u8, b1: u8, b2: u8, b3: u8, h: nat): nat { b0 + 256 * (b1 + 256 * (b2 + 256 * (b3 + 256 * h))) }

  lemma LeFour(b0: u8, b1: u8, b2: u8, b3: u8, h: nat, n: nat)
    ensures Le(Above(b0, b1, b2, b3, h), n + 4) == [b0, b1, b2, b3] + Le(h, n)
  {
    hide Le;
    var k3 := b3 + 256 * h;
    var k2 := b2 + 256 * k3;
    var k1 := b1 + 256 * k2;
    LeByte(b0, k1, n + 3);
    LeByte(b1, k2, n + 2);
    LeByte(b2, k3, n + 1);
    LeByte(b3, h, n);
    assert Above(b0, b1, b2, b3, h) == b0 + 256 * k1;
    hide Above;
    assert [b0] + ([b1] + ([b2] + ([b3] + Le(h, n)))) == [b0, b1, b2, b3] + Le(h, n);
  }

  lemma Digits(d: u32)
    ensures d == Above(d % 256, d / 0x100 % 256, d / 0x1_0000 % 256, d / 0x100_0000, 0)
  {}

  lemma LeHalves(q: u64)
    ensures Le(q, 8) == Le(q % TWO_32, 4) + Le(q / TWO_32, 4)
  {
    var r, h := q % TWO_32, q / TWO_32;
    var b0, b1, b2, b3 := r % 256, r / 0x100 % 256, r / 0x1_0000 % 256, r / 0x100_0000;
    Digits(r);
    assert q == Above(b0, b1, b2, b3, h);
    LeFour(b0, b1, b2, b3, 0, 0);
    LeFour(b0, b1, b2, b3, h, 4);
    assert Le(0, 0) == [];
    hide Le, Above;
    assert [b0, b1, b2, b3] + [] == [b0, b1, b2, b3];
  }
}
