/** The translator end to end: decoded instructions to bytes, run as a call of the block. */
module Pipeline {
  import opened Words
  import opened Guest
  import opened View
  import opened Decoder
  import opened Interp
  import opened Exact
  import opened FlagMerging
  import opened X86
  import IR
  import Emitter
  import Lower
  import Refine
  import Denote
  import CodeSize
  import Lowering

  /** The bytes `translate_block` asks for: build, merge flags, lower. */
  function Translation(ds: seq<DecodedInstr>, pc: u64): seq<u8>
  { Lower.BlockCode(Merged(IR.BuildList(ds, pc)), U64(pc + 4 * |ds|)) }

  /** The bytes of it that `translate_block` leaves in the slot. */
  function SlotCode(ds: seq<DecodedInstr>, pc: u64): seq<u8>
  { Lower.Emitted(Merged(IR.BuildList(ds, pc)), U64(pc + 4 * |ds|), CodeSize.SLOT_SIZE) }

  lemma SlotCodeFits(ds: seq<DecodedInstr>, pc: u64)
    ensures |SlotCode(ds, pc)| <= CodeSize.SLOT_SIZE
    ensures |Translation(ds, pc)| <= CodeSize.SLOT_SIZE ==> SlotCode(ds, pc) == Translation(ds, pc)
  {
    hide Lower.BlockCode, Lower.Emitted, Lower.WindowCode, IR.BuildList, Merged;
    Lowering.EmittedFits(Merged(IR.BuildList(ds, pc)), U64(pc + 4 * |ds|), CodeSize.SLOT_SIZE);
  }

  lemma DenotableUnmarked(irs: seq<IR.IRInst>)
    requires forall ir :: ir in irs ==> Denote.Denotable(ir)
    ensures Merged(irs) == irs
  { MergedIdle(irs); }

  /** Translation is exact: for every list of `JitExact` instructions and every context and memory in
      which their accesses are allowed, running the emitted bytes leaves the registers, pc, flags,
      vector bytes and memory that interpreting the list one by one leaves. */
  lemma TranslationExact(ds: seq<DecodedInstr>, pc: u64, code: seq<u8>, m: Machine, p: int, regions: seq<MemRegion>)
    returns (m': Machine)
    requires m.regs[RDI] == p && Refine.Inside(m.Set(R12, p), p) && Emitter.At(code, 0, Translation(ds, pc))
    requires ExactBlock(ds) && ViewAt(m.mem, p, regions).ctx.pc == pc && AllAccessOk(ds, ViewAt(m.mem, p, regions))
    ensures Run(code, 0, m) == Returned(m') && Refine.Inside(m', p)
    ensures ViewAt(m'.mem, p, regions) == ExecAll(ds, ViewAt(m.mem, p, regions))
  {
    hide Run, ViewAt, ExecAll, AllAccessOk, Lower.BlockCode, IR.BuildList, Denote.Block, Denote.RunsClean,
      Denote.Denotable, Merged, Emitter.At;
    var g := ViewAt(m.mem, p, regions);
    assert AtPc(g, pc) == g;
    BlockAgreement(ds, pc, g);
    var irs := IR.BuildList(ds, pc);
    DenotableUnmarked(irs);
    m' := Refine.BlockRefines(irs, U64(pc + 4 * |ds|), code, m, p, regions);
  }

  lemma {:induction false} NoSetters(irs: seq<IR.IRInst>)
    requires forall ir :: ir in irs ==> !ir.flagsSet
    ensures CodeSize.Setters(irs) == 0
    decreases |irs|
  { if |irs| > 0 { assert irs[0] in irs; NoSetters(irs[1..]); } }

  lemma {:induction false} ExactListDenotable(ds: seq<DecodedInstr>, pc: u64)
    requires forall d :: d in ds ==> DecoderShaped(d) && JitExact(d)
    ensures forall ir :: ir in IR.BuildList(ds, pc) ==> Denote.Denotable(ir)
    decreases |ds|
  {
    hide IR.BuildInstr, Denote.Denotable, JitExact, DecoderShaped, HasDenotation;
    if |ds| > 0 {
      assert ds[0] in ds;
      ExactDenotes(ds[0]);
      DenotesAnywhere(ds[0], pc);
      ExactListDenotable(ds[1..], U64(pc + 4));
    }
  }

  /** The code of an exact block fits its slot. */
  lemma ExactFits(ds: seq<DecodedInstr>, pc: u64)
    requires ExactBlock(ds) && |ds| <= 64
    ensures |Translation(ds, pc)| <= CodeSize.SLOT_SIZE
  {
    hide Lower.BlockCode, IR.BuildList, JitExact, DecoderShaped, IR.EndsBlock;
    var irs := IR.BuildList(ds, pc);
    ExactListDenotable(ds, pc);
    DenotableUnmarked(irs);
    NoSetters(irs);
    CodeSize.BlockFits(ds, pc, U64(pc + 4 * |ds|));
  }
}
