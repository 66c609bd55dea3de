/** Linear disassembly gives back exactly what was asked of the emitter. */
module Disassembly {
  import opened Words
  import opened X86
  import opened Emitter

  datatype Listing = Broken | Listing(instrs: seq<Instr>)

  /** Decode from the first byte to the last, instruction after instruction. */
  function Disassemble(s: seq<u8>): Listing
    decreases |s|
  {
    if |s| == 0 then Listing([]) else
    var d := Decode(s);
    if d.Undefined? || d.len > |s| then Broken else
    var rest := Disassemble(s[d.len..]);
    if rest.Broken? then Broken else Listing([d.instr] + rest.instrs)
  }

  predicate AllEmittable(list: seq<Instr>) { forall i :: i in list ==> Emittable(i) }
  predicate AllFaithful(list: seq<Instr>) { forall i :: i in list ==> Faithful(i) }

  lemma Nonempty(i: Instr)
    requires Emittable(i)
    ensures |Encode(i)| > 0
  {}

  /** A base register with low bits 101 and no displacement reads as RIP-relative. */
  lemma RipReadsElse(i: Instr, s: seq<u8>)
    requires RipSlip(i) && Encode(i) <= s
    ensures Decode(s).Decoded? ==> Decode(s).instr.LoadRip? || Decode(s).instr.StoreRip?
  {
    hide UnLe, Le, Signed32;
    RexFields(i.reg / 8, i.base / 8);
    ModRmFields(0, i.reg % 8, 5);
    var t := s[1..];
    assert s[0] == Rex(i.reg / 8, i.base / 8) && t[0] == if i.Load? then 0x8B else 0x89;
    assert t[1] == ModRm(0, i.reg % 8, 5);
    assert t[1..][0] == t[1];
  }

  /** The head of the listing is what was asked exactly for a faithful call. */
  lemma HeadExact(i: Instr, s: seq<u8>)
    requires Emittable(i) && Encode(i) <= s
    ensures Faithful(i) <==> Decode(s) == Decoded(i, |Encode(i)|)
    ensures Decode(s).Decoded? && Decode(s).instr == i ==> Faithful(i)
  {
    hide Decode, Encode;
    if RipSlip(i) { RipReadsElse(i, s); } else { DecodeEncode(i, s); FaithfulMeaning(i); }
  }

  /** Round trip: the listing of the emitted bytes is the list of calls, every byte used, if and only
      if every call is faithful. */
  lemma {:induction false} DisassembleEmitted(list: seq<Instr>)
    requires AllEmittable(list)
    ensures Disassemble(EncodeAll(list)) == Listing(list) <==> AllFaithful(list)
    decreases |list|
  {
    hide Decode, Encode, Emittable, Faithful;
    if |list| > 0 {
      var i, rest := list[0], list[1..];
      var s := EncodeAll(list);
      assert list == [i] + rest;
      Nonempty(i);
      HeadExact(i, s);
      DisassembleEmitted(rest);
      if Decode(s) == Decoded(i, |Encode(i)|) {
        assert s[|Encode(i)|..] == EncodeAll(rest);
      }
    }
  }
}
