/** Where the translator and the interpreter agree. `JitExact` is exactly the set of records of the decoder's
    shape on which they agree in every state; `ExactWords` says which words decode to one. */
module Exact {
  import opened Words
  import opened Guest
  import opened Decoder
  import opened Interp
  import opened IR
  import opened Denote
  import Lower

  /** The displacement of a 64-bit load or store survives the cut to int32_t, and the interpreter
      does not read it from another field. */
  predicate OffsetExact(d: DecodedInstr)
  {
    if d.imm != 0 then U64(AsI32(d.imm)) == d.imm
    else d.immS == 0 && (d.rm >= 31 || (d.opcode == 0x63 && d.shiftType >= 4))
  }

  predicate JitExact(d: DecodedInstr)
  {
    match d.opcode
    case 0x00 => d.rm == 255 && !d.setsFlags && d.imm < TWO_31
    case 0x01 => d.rm == 255 && !d.setsFlags && d.imm < TWO_31
    case 0x10 => d.rd == d.rn == d.rm
    case 0x12 => d.rd == d.rn == d.rm
    case 0x20 => d.rm != 0
    case 0x22 => true
    case 0x24 => true
    case 0x25 => true
    case 0x50 => d.branchOffset < TWO_31
    case 0x51 => d.branchOffset < TWO_31
    case 0x54 => d.branchOffset == 4
    case 0x57 => d.branchOffset == 4
    case 0x58 => d.branchOffset == 4
    case 0x63 => !d.pcRelative && OffsetExact(d)
    case 0x73 => OffsetExact(d)
    case 0x80 => true
    case 0x81 => d.rm == 0 && d.immS >= 0
    case 0x90 => true
    case _ => false
  }

  /** The guest accesses of the interpreter are allowed and mapped. */
  predicate AccessOk(d: DecodedInstr, g: Guest)
  {
    var a := AccessAddr(d, g.ctx);
    match d.opcode
    case 0x60 => g.CanRead(a, 1)
    case 0x61 => g.CanRead(a, 2)
    case 0x62 => g.CanRead(a, 4)
    case 0x63 => g.CanRead(a, 8)
    case 0x70 => g.CanWrite(a, 1)
    case 0x71 => g.CanWrite(a, 2)
    case 0x72 => g.CanWrite(a, 4)
    case 0x73 => g.CanWrite(a, 8)
    case 0x80 => g.CanRead(a, 8) && g.CanRead(U64(a + 8), 8)
    case 0x81 => g.CanWrite(a, 8) && g.CanWrite(U64(a + 8), 8)
    case _ => true
  }

  /** Every operation of the translation of `d` has a denotation. */
  predicate HasDenotation(d: DecodedInstr)
  { forall ir :: ir in BuildInstr(d, 0) ==> Denotable(ir) }

  lemma DenotesAnywhere(d: DecodedInstr, pc: u64)
    ensures HasDenotation(d) <==> forall ir :: ir in BuildInstr(d, pc) ==> Denotable(ir)
  {
    var a, b := BuildInstr(d, 0), BuildInstr(d, pc);
    assert |a| == |b| && forall i :: 0 <= i < |a| ==> Denotable(a[i]) == Denotable(b[i]);
    assert (forall ir :: ir in a ==> Denotable(ir)) <==> forall i :: 0 <= i < |a| ==> Denotable(a[i]);
    assert (forall ir :: ir in b ==> Denotable(ir)) <==> forall i :: 0 <= i < |b| ==> Denotable(b[i]);
  }

  // ----- agreement of exact instructions -----

  function AtPc(g: Guest, pc: u64): Guest { g.(ctx := g.ctx.(pc := pc)) }

  lemma ExactDenotes(d: DecodedInstr)
    requires DecoderShaped(d) && JitExact(d)
    ensures HasDenotation(d)
  {}

  /** The body of `d`'s translation, run on a state whose pc is out of date, does what the interpreter
      does at `pc`, up to the pc. */
  predicate BodyAgrees(d: DecodedInstr, pc: u64, g: Guest)
  {
    var irs := BuildInstr(d, pc);
    && |irs| == 1 && Denotable(irs[0]) && !Exits(irs[0]) && AccessesMapped(irs[0], g)
    && AtPc(Body(irs[0], g), U64(pc + 4)) == Exec(d, AtPc(g, pc))
  }

  lemma ArithAgrees(d: DecodedInstr, pc: u64, g: Guest)
    requires DecoderShaped(d) && JitExact(d) && d.opcode in {0x00, 0x01}
    ensures BodyAgrees(d, pc, g)
  {}

  lemma MoveAgrees(d: DecodedInstr, pc: u64, g: Guest)
    requires DecoderShaped(d) && JitExact(d) && d.opcode in {0x20, 0x22, 0x24, 0x25}
    ensures BodyAgrees(d, pc, g)
  {}

  lemma IdleAgrees(d: DecodedInstr, pc: u64, g: Guest)
    requires DecoderShaped(d) && JitExact(d) && d.opcode in {0x57, 0x58, 0x90}
    ensures BodyAgrees(d, pc, g)
  { hide Pow2, BitAnd, BitOr, Bit; }

  /** X op X into X itself changes nothing, and neither does the NOP it becomes. */
  lemma SelfLogicalAgrees(d: DecodedInstr, pc: u64, g: Guest)
    requires DecoderShaped(d) && JitExact(d) && d.opcode in {0x10, 0x12}
    ensures BodyAgrees(d, pc, g)
  {
    hide ExecBody, BuildInstr;
    SelfLogicalExec(d, AtPc(g, pc));
    SelfLogicalBuilt(d, pc);
  }

  lemma SelfLogicalBuilt(d: DecodedInstr, pc: u64)
    requires d.opcode in {0x10, 0x12}
    ensures var irs := BuildInstr(d, pc); |irs| == 1 && irs[0].op.NOP? && !irs[0].flagsSet
  {}

  lemma SelfWord(v: u64)
    ensures And64(v, v) == v && Or64(v, v) == v
  { Pow2Words(); hide Pow2, BitAnd, BitOr; BitAndSelf(64, v); }

  lemma SelfLogicalExec(d: DecodedInstr, g: Guest)
    requires d.rd < 32 && d.rd == d.rn == d.rm && d.opcode in {0x10, 0x12}
    ensures ExecBody(d, g) == g
  {
    var v := g.ctx.x[d.rd];
    assert g.ctx.x[d.rd := v] == g.ctx.x;
    assert ExecBody(d, g) == g.(ctx := ExecPlain(d, g.ctx)) by { hide ExecPlain; }
    SelfPlain(d, g.ctx);
  }

  lemma SelfPlain(d: DecodedInstr, c: CPUContext)
    requires d.rd < 32 && d.rd == d.rn == d.rm && d.opcode in {0x10, 0x12}
    ensures ExecPlain(d, c) == c.SetReg(d.rd, c.x[d.rd])
  {
    SelfWord(c.x[d.rd]);
    hide And64, Or64, Pow2, U64, CmpNzcv, TstNzcv, CheckCondition;
  }

  lemma SameAddress(x: u64, imm: u64)
    requires U64(AsI32(imm)) == imm
    ensures U64(x + AsI32(imm)) == U64(x + imm)
  { assert AsI32(imm) == imm || AsI32(imm) == imm - TWO_64; }

  lemma AccessAddress(d: DecodedInstr, pc: u64, g: Guest)
    requires DecoderShaped(d) && JitExact(d) && d.opcode in {0x63, 0x73}
    ensures Addr1(BuildInstr(d, pc)[0], g.ctx) == AccessAddr(d, AtPc(g, pc).ctx)
  {
    hide Pow2;
    assert U64(AsI32(d.imm)) == d.imm;
    SameAddress(g.ctx.x[d.rn], d.imm);
    assert AccessOffset(d, AtPc(g, pc).ctx) == d.imm;
  }

  lemma LoadAgrees(d: DecodedInstr, pc: u64, g: Guest)
    requires DecoderShaped(d) && JitExact(d) && d.opcode == 0x63 && AccessOk(d, AtPc(g, pc))
    ensures BodyAgrees(d, pc, g)
  {
    AccessAddress(d, pc, g);
    hide AccessAddr, Addr1, Mapped, CheckPerms, ReadBytes, UnLe;
  }

  lemma StoreAgrees(d: DecodedInstr, pc: u64, g: Guest)
    requires DecoderShaped(d) && JitExact(d) && d.opcode == 0x73 && AccessOk(d, AtPc(g, pc))
    ensures BodyAgrees(d, pc, g)
  {
    AccessAddress(d, pc, g);
    hide AccessAddr, Addr1, Mapped, CheckPerms, WriteBytes, Le;
  }

  lemma PairAddresses(d: DecodedInstr, pc: u64, g: Guest)
    requires DecoderShaped(d) && d.opcode in {0x80, 0x81}
    ensures var ir := BuildInstr(d, pc)[0]; var a := AccessAddr(d, AtPc(g, pc).ctx);
            Addr1(ir, g.ctx) == a && Addr2(ir, g.ctx) == U64(a + 8)
  {
    hide Pow2;
    PairArith(g.ctx.x[d.rn], d.immS);
  }

  lemma PairArith(x: u64, disp: i64)
    requires -512 <= disp <= 504
    ensures AsI32(U64(disp)) == disp && Lower.Plus8(disp) == disp + 8
    ensures U64(x + (disp + 8)) == U64(U64(x + disp) + 8)
  {}

  lemma LoadPairAgrees(d: DecodedInstr, pc: u64, g: Guest)
    requires DecoderShaped(d) && d.opcode == 0x80 && AccessOk(d, AtPc(g, pc))
    ensures BodyAgrees(d, pc, g)
  {
    PairAddresses(d, pc, g);
    hide AccessAddr, Addr1, Addr2, Mapped, CheckPerms, ReadBytes, UnLe, Pow2;
  }

  lemma StorePairExec(d: DecodedInstr, g: Guest)
    requires d.opcode == 0x81 && AccessOk(d, g)
    ensures var a: int := AccessAddr(d, g.ctx);
            var m1 := Write64(g.mem, a, g.ctx.Reg(d.rt));
            Exec(d, g) == AtPc(g.(mem := Write64(m1, U64(a + 8), g.ctx.Reg(d.rm))), U64(g.ctx.pc + 4))
  {
    var a: int := AccessAddr(d, g.ctx);
    var m1 := Write64(g.mem, a, g.ctx.Reg(d.rt));
    assert Mapped(m1, U64(a + 8), 8) by { assert m1.Keys == g.mem.Keys; assert forall k :: k in g.mem ==> k in m1; }
    hide AccessAddr, Mapped, CheckPerms, WriteBytes, Le;
    assert g.Store(a, 8, g.ctx.Reg(d.rt)) == g.(mem := m1);
  }

  lemma StorePairAgrees(d: DecodedInstr, pc: u64, g: Guest)
    requires DecoderShaped(d) && JitExact(d) && d.opcode == 0x81 && AccessOk(d, AtPc(g, pc))
    ensures BodyAgrees(d, pc, g)
  {
    hide AccessAddr, Addr1, Addr2, Mapped, CheckPerms, Write64, Pow2, SecondStored, Exec, BuildInstr, AccessOk, Denotable;
    PairAddresses(d, pc, g);
    StorePairExec(d, AtPc(g, pc));
    StorePairBuilt(d, pc);
    PairAllowed(d, AtPc(g, pc));
  }

  lemma StorePairBuilt(d: DecodedInstr, pc: u64)
    requires DecoderShaped(d) && d.opcode == 0x81 && d.immS >= 0
    ensures |BuildInstr(d, pc)| == 1
    ensures var ir := BuildInstr(d, pc)[0];
            Denotable(ir) && ir.op.STORE_PAIR? && ir.src1 == d.rn && ir.src2 == d.rt && SecondStored(ir) == 0
  {}

  lemma PairAllowed(d: DecodedInstr, g: Guest)
    requires d.opcode == 0x81 && AccessOk(d, g)
    ensures var a: int := AccessAddr(d, g.ctx); Mapped(g.mem, a, 8) && Mapped(g.mem, U64(a + 8), 8)
  {}

  lemma BodyAgreement(d: DecodedInstr, pc: u64, g: Guest)
    requires DecoderShaped(d) && JitExact(d) && AccessOk(d, AtPc(g, pc)) && d.opcode !in {0x50, 0x51, 0x54}
    ensures BodyAgrees(d, pc, g)
  {
    hide AccessOk, BodyAgrees;
    if d.opcode == 0x63 { LoadAgrees(d, pc, g); }
    else if d.opcode == 0x73 { StoreAgrees(d, pc, g); }
    else if d.opcode == 0x80 { LoadPairAgrees(d, pc, g); }
    else if d.opcode == 0x81 { StorePairAgrees(d, pc, g); }
    else if d.opcode < 0x02 { ArithAgrees(d, pc, g); }
    else if 0x20 <= d.opcode <= 0x25 { MoveAgrees(d, pc, g); }
    else if d.opcode < 0x20 { SelfLogicalAgrees(d, pc, g); }
    else { IdleAgrees(d, pc, g); }
  }

  // ----- blocks -----

  /** What a translated block looks like: exact instructions, a branch only at the end. */
  predicate ExactBlock(ds: seq<DecodedInstr>)
  {
    (forall d :: d in ds ==> DecoderShaped(d) && JitExact(d)) &&
    (forall i :: 0 <= i < |ds| - 1 ==> !EndsBlock(ds[i]))
  }

  /** Interpreting `ds` from `g` makes only allowed accesses. */
  predicate AllAccessOk(ds: seq<DecodedInstr>, g: Guest)
  { |ds| == 0 || (AccessOk(ds[0], g) && AllAccessOk(ds[1..], Exec(ds[0], g))) }

  predicate BlockAgrees(irs: seq<IRInst>, ft: u64, g: Guest, result: Guest)
  { (forall ir :: ir in irs ==> Denotable(ir)) && RunsClean(irs, ft, g) && Block(irs, ft, g) == result }

  lemma JumpBuilt(d: DecodedInstr, pc: u64)
    requires d.opcode in {0x50, 0x51}
    ensures var irs := BuildInstr(d, pc); var t := SignedTarget(pc, d.branchOffset);
            if d.opcode == 0x50 then
              |irs| == 1 && irs[0].op.JMP? && irs[0].imm == t && Denotable(irs[0])
            else
              |irs| == 2 && irs[0].op.SET_REG? && irs[0].src1 == IR_NONE && irs[0].dest == 30 && irs[0].imm == U64(pc + 4)
              && irs[1].op.CALL? && irs[1].imm == t && Denotable(irs[0]) && Denotable(irs[1])
  {}

  lemma JumpAgrees(d: DecodedInstr, pc: u64, ft: u64, g: Guest)
    requires JitExact(d) && d.opcode in {0x50, 0x51}
    ensures BlockAgrees(BuildInstr(d, pc), ft, g, Exec(d, AtPc(g, pc)))
  {
    assert SignedTarget(pc, d.branchOffset) == U64(pc + d.branchOffset);
    hide AccessesMapped, Body, ExecBody, BuildInstr, SignedTarget, JitExact, Denotable;
    JumpBuilt(d, pc);
    var irs := BuildInstr(d, pc);
    if d.opcode == 0x51 { LinkRuns(irs, ft, g); } else { assert irs == [irs[0]]; }
  }

  /** B.cond to the next instruction: both exits are the fall-through. */
  lemma NextAgrees(d: DecodedInstr, pc: u64, g: Guest)
    requires JitExact(d) && d.opcode == 0x54
    ensures BlockAgrees(BuildInstr(d, pc), U64(pc + 4), g, Exec(d, AtPc(g, pc)))
  {
    hide CheckCondition;
    var irs := BuildInstr(d, pc);
    assert irs == [irs[0]] && irs[0].op.JMP_COND? && irs[0].imm == U64(pc + 4) && Denotable(irs[0]);
  }

  /** The two operations of BL. */
  lemma LinkRuns(irs: seq<IRInst>, ft: u64, g: Guest)
    requires |irs| == 2 && irs[0].op.SET_REG? && irs[0].src1 == IR_NONE && irs[0].dest == 30 && irs[1].op.CALL?
    requires Denotable(irs[0]) && Denotable(irs[1])
    ensures BlockAgrees(irs, ft, g, AtPc(g.(ctx := g.ctx.SetReg(30, irs[0].imm)), irs[1].imm))
  {
    assert irs[1..] == [irs[1]];
    assert RunsClean([irs[1]], ft, Body(irs[0], g));
  }

  lemma {:induction false} BlockAgreement(ds: seq<DecodedInstr>, pc: u64, g: Guest)
    requires ExactBlock(ds) && AllAccessOk(ds, AtPc(g, pc))
    ensures BlockAgrees(BuildList(ds, pc), U64(pc + 4 * |ds|), g, ExecAll(ds, AtPc(g, pc)))
    decreases |ds|
  {
    hide BuildInstr, Exec, Denotable, Body, AccessesMapped, AccessOk, JitExact;
    if |ds| > 0 {
      var d, rest := ds[0], ds[1..];
      var ft := U64(pc + 4 * |ds|);
      if d.opcode in {0x50, 0x51} {
        assert d in ds && DecoderShaped(d);
        assert EndsBlock(d) && |ds| == 1;
        JumpAgrees(d, pc, ft, g);
      } else if d.opcode == 0x54 {
        assert d in ds && DecoderShaped(d);
        assert EndsBlock(d) && |ds| == 1;
        NextAgrees(d, pc, g);
      } else {
        BodyAgreement(d, pc, g);
        var ir := BuildInstr(d, pc)[0];
        assert BuildInstr(d, pc) == [ir];
        var g1 := Body(ir, g);
        PcAdvance(pc, 4, 4 * |rest|);
        BlockAgreement(rest, U64(pc + 4), g1);
        assert BuildList(ds, pc) == [ir] + BuildList(rest, U64(pc + 4)) by {
          if EndsBlock(d) { assert rest == []; }
        }
        assert ([ir] + BuildList(rest, U64(pc + 4)))[1..] == BuildList(rest, U64(pc + 4));
      }
    }
  }
}
