/** The optimizer's only pass that changes anything (src/ir/ir_optimizer.cpp:25-44). */
module FlagMerging {
  import opened Words
  import opened Guest
  import opened Decoder
  import opened IR
  import Denote
  import Interp

  // ----- what the pass computes -----

  /** The setter at `i` is dead: the next operation sets the flags and does not read them. */
  predicate Dead(s: seq<IRInst>, i: int)
    requires 0 <= i < |s|
  { i + 1 < |s| && s[i + 1].flagsSet && !s[i + 1].flagsUsed }

  function Merged(s: seq<IRInst>): (r: seq<IRInst>)
    ensures |r| == |s|
  { seq(|s|, i requires 0 <= i < |s| => if Dead(s, i) then s[i].(flagsSet := false) else s[i]) }

  /** From `j` on, the flags are read before they are set again. */
  predicate ReadFirst(s: seq<IRInst>, j: nat)
    decreases |s| - j
  { j < |s| && (s[j].flagsUsed || (!s[j].flagsSet && ReadFirst(s, j + 1))) }

  /** The inner loop of `flag_merging`. */
  method UsedBefore(block: array<IRInst>, from: nat) returns (used: bool)
    requires from <= block.Length
    ensures used == ReadFirst(block[..], from)
  {
    var j := from;
    while j < block.Length
      invariant from <= j <= block.Length
      invariant ReadFirst(block[..], from) == ReadFirst(block[..], j)
    {
      if block[j].flagsUsed { return true; }
      if block[j].flagsSet { return false; }
      j := j + 1;
    }
    return false;
  }

  /** `flag_merging`, in place. */
  method MergeFlags(block: array<IRInst>)
    modifies block
    ensures block[..] == Merged(old(block[..]))
  {
    ghost var was := block[..];
    var i := 0;
    while i + 1 < block.Length
      invariant i == 0 || i < block.Length
      invariant forall k :: 0 <= k < i && k + 1 < block.Length ==> block[k] == Merged(was)[k]
      invariant forall k :: i <= k < block.Length ==> block[k] == was[k]
    {
      if block[i].flagsSet && block[i + 1].flagsSet {
        var usedBetween := UsedBefore(block, i + 1);
        if !usedBetween {
          block[i] := block[i].(flagsSet := false);
        }
      }
      assert block[i] == Merged(was)[i];
      i := i + 1;
    }
    assert forall k :: 0 <= k < block.Length ==> block[k] == Merged(was)[k];
  }

  /** A second pass changes nothing. */
  lemma MergedTwice(s: seq<IRInst>)
    ensures Merged(Merged(s)) == Merged(s)
  {
    var r := Merged(s);
    forall i | 0 <= i < |s| ensures Merged(r)[i] == r[i] {
      if i + 1 < |s| { assert r[i + 1].flagsUsed == s[i + 1].flagsUsed; }
    }
  }

  /** A mark is cleared exactly where the next operation sets the flags and no later one reads them before they
      are set again; nothing else changes. */
  lemma ClearedUnread(s: seq<IRInst>, i: nat)
    requires i < |s|
    ensures Merged(s)[i] == s[i].(flagsSet := Merged(s)[i].flagsSet)
    ensures Merged(s)[i].flagsSet <==> s[i].flagsSet && (ReadFirst(s, i + 1) || i + 1 == |s| || !s[i + 1].flagsSet)
  {}

  // ----- what a block means -----

  /** The operations whose lowering honours `flags_set`. */
  predicate SetsNzcv(ir: IRInst) { ir.flagsSet && ir.op in {ADD, SUB, CMP, TST} }

  /** Only those carry the mark. */
  predicate Marked(s: seq<IRInst>) { forall ir :: ir in s && ir.flagsSet ==> ir.op in {ADD, SUB, CMP, TST} }

  function RegOr(c: CPUContext, r: u16): u64 { if r < 32 then c.x[r] else 0 }

  function SecondOperand(ir: IRInst, c: CPUContext): u64
  { if ir.src2 == IR_IMM || (ir.op.CMP? && ir.src2 == IR_NONE) then ir.imm else RegOr(c, ir.src2) }

  function AddNzcv(a: u64, b: u64): u64
  {
    var r := U64(a + b);
    Interp.PackNzcv(r >= TWO_63, r == 0, a + b >= TWO_64, AsI64(a) + AsI64(b) != AsI64(r))
  }

  /** The ARM flags an operation produces. */
  function NewNzcv(ir: IRInst, c: CPUContext): u64
  {
    var a, b := RegOr(c, ir.src1), SecondOperand(ir, c);
    if ir.op.ADD? then AddNzcv(a, b)
    else if ir.op.TST? then Interp.TstNzcv(a, b)
    else Interp.CmpNzcv(a, b)
  }

  /** The data effect: the denotation where there is one, nothing otherwise. */
  function DataEffect(ir: IRInst, g: Guest): Guest
  {
    var plain := ir.(flagsSet := false);
    if Denote.Denotable(plain) && !Denote.Exits(plain) && Denote.AccessesMapped(plain, g) then Denote.Body(plain, g) else g
  }

  function Step(ir: IRInst, g: Guest): Guest
  {
    var g' := DataEffect(ir, g);
    if SetsNzcv(ir) then g'.(ctx := g'.ctx.(nzcv := NewNzcv(ir, g.ctx))) else g'
  }

  /** An ideal meaning of a block: operations in order, setters writing the ARM flags, the ARM condition
      deciding a JMP_COND. The emitted code does less: see `MergedCode`. */
  function IdealMeaning(s: seq<IRInst>, ft: u64, g: Guest): Guest
  {
    if |s| == 0 then g.(ctx := g.ctx.(pc := ft))
    else if s[0].op.JMP_COND? then
      g.(ctx := g.ctx.(pc := if Interp.CheckCondition(g.ctx.nzcv, s[0].cond) then s[0].imm else ft))
    else if Denote.Exits(s[0]) then g.(ctx := g.ctx.(pc := Denote.ExitPc(s[0], g.ctx)))
    else IdealMeaning(s[1..], ft, Step(s[0], g))
  }

  function WithNzcv(g: Guest, n: u64): Guest { g.(ctx := g.ctx.(nzcv := n)) }

  /** Data does not depend on the flags. */
  lemma DataIgnoresFlags(ir: IRInst, g: Guest, n: u64)
    ensures DataEffect(ir, WithNzcv(g, n)) == WithNzcv(DataEffect(ir, g), n)
  {
    hide Denote.Denotable, Denote.Body, Denote.AccessesMapped;
    var plain := ir.(flagsSet := false);
    if Denote.Denotable(plain) && !Denote.Exits(plain) {
      MappingIgnoresFlags(plain, g, n);
      if Denote.AccessesMapped(plain, g) { BodyIgnoresFlags(plain, g, n); }
    }
  }

  lemma MappingIgnoresFlags(ir: IRInst, g: Guest, n: u64)
    requires Denote.Denotable(ir)
    ensures Denote.AccessesMapped(ir, WithNzcv(g, n)) == Denote.AccessesMapped(ir, g)
  { hide Mapped; }

  lemma BodyIgnoresFlags(ir: IRInst, g: Guest, n: u64)
    requires Denote.Denotable(ir) && !Denote.Exits(ir) && Denote.AccessesMapped(ir, g) && Denote.AccessesMapped(ir, WithNzcv(g, n))
    ensures Denote.Body(ir, WithNzcv(g, n)) == WithNzcv(Denote.Body(ir, g), n)
  { hide Pow2, Read64, Write64, Mapped; }

  /** A block that starts with a setter does not see the flags it is entered with. */
  lemma SetterHides(s: seq<IRInst>, ft: u64, g: Guest, n: u64)
    requires |s| > 0 && SetsNzcv(s[0])
    ensures IdealMeaning(s, ft, WithNzcv(g, n)) == IdealMeaning(s, ft, g)
  {
    hide DataEffect;
    DataIgnoresFlags(s[0], g, n);
    assert Step(s[0], WithNzcv(g, n)) == Step(s[0], g);
  }

  /** Merging preserves the ideal meaning of every block, whatever its length. */
  lemma {:induction false} MergingPreservesMeaning(s: seq<IRInst>, ft: u64, g: Guest)
    requires Marked(s)
    ensures IdealMeaning(Merged(s), ft, g) == IdealMeaning(s, ft, g)
    decreases |s|
  {
    hide DataEffect, NewNzcv;
    if |s| > 0 {
      var r := Merged(s);
      assert r[1..] == Merged(s[1..]);
      MergingPreservesMeaning(s[1..], ft, Step(r[0], g));
      assert s[0] in s;
      if Dead(s, 0) && s[0].flagsSet {
        assert s[1] in s;
        ClearedStep(s[0], g);
        SetterHides(s[1..], ft, Step(s[0], g), Step(r[0], g).ctx.nzcv);
      } else {
        assert r[0] == s[0];
      }
    }
  }

  /** Clearing the mark keeps the data and leaves the flags as they were. */
  lemma ClearedStep(ir: IRInst, g: Guest)
    ensures Step(ir.(flagsSet := false), g) == WithNzcv(Step(ir, g), Step(ir.(flagsSet := false), g).ctx.nzcv)
  { assert DataEffect(ir.(flagsSet := false), g) == DataEffect(ir, g); }

  /** The builder marks only operations that set flags, and none that reads them. */
  lemma BuiltMarks(d: DecodedInstr, pc: u64)
    ensures Marked(BuildInstr(d, pc))
    ensures forall ir :: ir in BuildInstr(d, pc) ==> !(ir.flagsSet && ir.flagsUsed)
  {}

  lemma {:induction false} BuiltListMarks(ds: seq<DecodedInstr>, pc: u64)
    ensures Marked(BuildList(ds, pc))
    ensures forall ir :: ir in BuildList(ds, pc) ==> !(ir.flagsSet && ir.flagsUsed)
    decreases |ds|
  {
    hide BuildInstr;
    if |ds| > 0 {
      BuiltMarks(ds[0], pc);
      BuiltListMarks(ds[1..], U64(pc + 4));
    }
  }

  /** The pass does nothing to a block without setters. */
  lemma MergedIdle(s: seq<IRInst>)
    requires forall ir :: ir in s ==> !ir.flagsSet
    ensures Merged(s) == s
  { assert forall i :: 0 <= i < |s| ==> s[i] in s; }
}
