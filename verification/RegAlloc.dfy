/** The register allocator (src/backend/x86_64_regalloc.cpp). */
module RegAlloc {
  import opened Words

  const NONE: u8 := 0xFF
  const ALL_FREE: nat := 0xFFFF

  /** The virtual registers the allocator's table covers. */
  type Vreg = x: int | 0 <= x < 256

  /** `arm_to_x86_static` */
  function ArmToX86(arm: u8): (x: u8)
    ensures (x < 16 && x != 4 && x != 5 && x != 12) || x == NONE
  {
    if arm < 16 then [0, 1, 2, 3, 6, 7, 8, 9, 10, 11, 13, 14, 15, 6, 7, 8][arm]
    else if arm == 29 then 9
    else if arm == 30 then 11
    else if arm == 31 then 0
    else NONE
  }

  /** X0 to X12 take the thirteen usable host registers in ascending order; X13 to X15 share those of X4 to X6,
      X29, X30 and SP those of X7, X9 and X0; X16 to X28 have none. */
  lemma ArmOrder()
    ensures forall i, j :: 0 <= i < j < 13 ==> ArmToX86(i) < ArmToX86(j) < 16
    ensures forall i :: 13 <= i < 16 ==> ArmToX86(i) == ArmToX86(i - 9)
    ensures ArmToX86(29) == ArmToX86(7) && ArmToX86(30) == ArmToX86(9) && ArmToX86(31) == ArmToX86(0)
    ensures forall i :: 16 <= i < 29 ==> ArmToX86(i) == NONE
  {}

  /** `mask & (1 << i)` */
  predicate BitSet(mask: nat, i: nat) { if i == 0 then mask % 2 == 1 else BitSet(mask / 2, i - 1) }

  /** Clearing a set bit leaves the others alone. */
  lemma {:induction false} ClearBit(mask: nat, i: nat, j: nat)
    requires BitSet(mask, i)
    ensures mask >= Pow2(i) && (BitSet(mask - Pow2(i), j) <==> BitSet(mask, j) && j != i)
    decreases i
  {
    if i > 0 { ClearBit(mask / 2, i - 1, if j == 0 then 0 else j - 1); }
  }

  // ----- the allocator as a function -----

  datatype Alloc = Alloc(vregs: seq<u8>, xregs: seq<u16>, free: nat)

  const Reset := Alloc(seq(256, i => NONE), seq(16, i => 0), ALL_FREE)

  /** The lowest free register from `i` on, or 16. */
  function FirstFree(free: nat, i: nat): (r: nat)
    requires i <= 16
    ensures i <= r <= 16 && (r < 16 ==> BitSet(free, r)) && forall k :: i <= k < r ==> !BitSet(free, k)
    decreases 16 - i
  { if i == 16 || BitSet(free, i) then i else FirstFree(free, i + 1) }

  lemma FreeStep(free: nat, i: nat)
    requires i < 16
    ensures FirstFree(free, i) == if BitSet(free, i) then i else FirstFree(free, i + 1)
  { hide BitSet; }

  lemma Stopped(free: nat, i: nat)
    requires i <= 16 && (i < 16 ==> BitSet(free, i))
    ensures FirstFree(free, i) == i
  { hide BitSet; }

  /** Forward and reverse maps agree, and a register is busy exactly when a virtual register owns it. */
  predicate Consistent(s: Alloc)
  {
    && |s.vregs| == 256 && |s.xregs| == 16
    && (forall v :: 0 <= v < 256 ==> s.vregs[v] < 16 || s.vregs[v] == NONE)
    && (forall v :: 0 <= v < 256 && s.vregs[v] < 16 ==> s.xregs[s.vregs[v]] == v && !BitSet(s.free, s.vregs[v]))
    && (forall i :: 0 <= i < 16 && !BitSet(s.free, i) ==> s.xregs[i] < 256 && s.vregs[s.xregs[i]] == i)
  }

  /** `alloc_vreg`: the register kept or chosen; RAX when none is free. */
  function Chosen(s: Alloc, v: Vreg): u8
    requires Consistent(s)
  {
    if s.vregs[v] != NONE then s.vregs[v]
    else var i := FirstFree(s.free, 0); if i < 16 then i else 0
  }

  function After(s: Alloc, v: Vreg): (s': Alloc)
    requires Consistent(s)
    ensures Consistent(s')
  {
    var i := FirstFree(s.free, 0);
    if s.vregs[v] != NONE || i == 16 then s
    else
      ClearBit(s.free, i, 0);
      var s' := Alloc(s.vregs[v := i], s.xregs[i := v], s.free - Pow2(i));
      assert forall k :: 0 <= k < 16 ==> (BitSet(s'.free, k) <==> BitSet(s.free, k) && k != i) by {
        forall k | 0 <= k < 16 ensures BitSet(s'.free, k) <==> BitSet(s.free, k) && k != i { ClearBit(s.free, i, k); }
      }
      s'
  }

  lemma AfterKeeps(s: Alloc, v: Vreg)
    requires Consistent(s) && (s.vregs[v] != NONE || FirstFree(s.free, 0) == 16)
    ensures After(s, v) == s && Chosen(s, v) == (if s.vregs[v] != NONE then s.vregs[v] else 0)
  { hide BitSet, Pow2; }

  /** What an allocating request writes. */
  lemma AfterTakes(s: Alloc, v: Vreg)
    requires Consistent(s) && s.vregs[v] == NONE && FirstFree(s.free, 0) < 16
    ensures var i := FirstFree(s.free, 0);
            s.free >= Pow2(i) && After(s, v) == Alloc(s.vregs[v := i], s.xregs[i := v], s.free - Pow2(i)) && Chosen(s, v) == i
  { ClearBit(s.free, FirstFree(s.free, 0), 0); }

  lemma AllFree(i: nat)
    requires i < 16
    ensures BitSet(ALL_FREE, i)
  {
    Pow16();
    MaskOnes(16, i);
  }

  lemma {:induction false} MaskOnes(n: nat, i: nat)
    requires i < n
    ensures BitSet(Pow2(n) - 1, i)
  { if i > 0 { assert (Pow2(n) - 1) / 2 == Pow2(n - 1) - 1; MaskOnes(n - 1, i - 1); } }

  lemma ResetConsistent()
    ensures Consistent(Reset)
  { forall i | 0 <= i < 16 ensures BitSet(ALL_FREE, i) { AllFree(i); } }

  lemma Pow16()
    ensures Pow2(16) == 0x1_0000
  { Pow2Byte(0); Pow2Byte(8); }

  // ----- the class -----

  class X86RegAlloc {
    var vregMap: seq<u8>
    var xregMap: seq<u16>
    var freeRegs: nat

    ghost function State(): Alloc
      reads this
    { Alloc(vregMap, xregMap, freeRegs) }

    constructor ()
      ensures State() == Reset
    {
      vregMap, xregMap, freeRegs := seq(256, i => NONE), seq(16, i => 0), ALL_FREE;
    }

    method ResetAll()
      modifies this
      ensures State() == Reset
    {
      vregMap, xregMap, freeRegs := seq(256, i => NONE), seq(16, i => 0), ALL_FREE;
    }

    /** `alloc_vreg`. A number of 256 and above gets RAX when no register is free; otherwise the source
        would write outside its table. */
    method AllocVreg(vreg: u16) returns (reg: u8)
      requires Consistent(State()) && (vreg < 256 || FirstFree(freeRegs, 0) == 16)
      modifies this
      ensures Consistent(State())
      ensures if vreg < 256 then State() == After(old(State()), vreg) && reg == Chosen(old(State()), vreg)
              else State() == old(State()) && reg == 0
    {
      assert |vregMap| == 256 && |xregMap| == 16;
      hide Consistent, BitSet, After, Pow2, FirstFree, Chosen;
      if vreg < 256 && vregMap[vreg] != NONE {
        AfterKeeps(State(), vreg);
        return vregMap[vreg];
      }
      var i := 0;
      while i < 16 && !BitSet(freeRegs, i)
        invariant i <= 16 && State() == old(State())
        invariant FirstFree(freeRegs, 0) == FirstFree(freeRegs, i)
      {
        FreeStep(freeRegs, i);
        i := i + 1;
      }
      Stopped(freeRegs, i);
      if i < 16 {
        AfterTakes(State(), vreg);
        freeRegs := freeRegs - Pow2(i);
        vregMap := vregMap[vreg := i];
        xregMap := xregMap[i := vreg];
        return i;
      }
      if vreg < 256 { AfterKeeps(State(), vreg); }
      return 0;
    }

    /** `get_vreg`: the register the virtual register owns, if any. */
    method GetVreg(vreg: u16) returns (reg: u8)
      requires Consistent(State())
      ensures reg < 16 ==> xregMap[reg] == vreg && !BitSet(freeRegs, reg)
      ensures reg >= 16 ==> reg == NONE && forall i :: 0 <= i < 16 && !BitSet(freeRegs, i) ==> xregMap[i] != vreg
    {
      return if vreg < 256 then vregMap[vreg] else NONE;
    }
  }

  // ----- sequences of requests -----

  /** The state after the requests `vs`. */
  function Serve(s: Alloc, vs: seq<Vreg>): (s': Alloc)
    requires Consistent(s)
    ensures Consistent(s')
  { if |vs| == 0 then s else After(Serve(s, vs[..|vs| - 1]), vs[|vs| - 1]) }

  /** No request moves a register that was given before. */
  lemma {:induction false} ServeStable(s: Alloc, vs: seq<Vreg>, v: Vreg)
    requires Consistent(s) && s.vregs[v] != NONE
    ensures Serve(s, vs).vregs[v] == s.vregs[v]
  { if |vs| > 0 { ServeStable(s, vs[..|vs| - 1], v); } }

  predicate Distinct(vs: seq<Vreg>) { forall i, j :: 0 <= i < j < |vs| ==> vs[i] != vs[j] }

  lemma {:induction false} FirstFreeIs(free: nat, i: nat, n: nat)
    requires i <= n < 16 && BitSet(free, n) && forall k :: i <= k < n ==> !BitSet(free, k)
    ensures FirstFree(free, i) == n
    decreases n - i
  { if i < n { FirstFreeIs(free, i + 1, n); } }

  /** The registers below `n` are given to `vs` in order, the others are free. */
  predicate InOrder(s: Alloc, vs: seq<Vreg>)
  {
    && Consistent(s)
    && (forall i :: 0 <= i < |vs| ==> s.vregs[vs[i]] == i)
    && (forall v: Vreg :: v !in vs ==> s.vregs[v] == NONE)
    && (forall i :: 0 <= i < 16 ==> (BitSet(s.free, i) <==> i >= |vs|))
  }

  lemma NextInOrder(s: Alloc, vs: seq<Vreg>, v: Vreg)
    requires InOrder(s, vs) && v !in vs && |vs| < 16
    ensures InOrder(After(s, v), vs + [v])
  {
    assert |s.vregs| == 256 && |s.xregs| == 16;
    hide Consistent, BitSet, After, FirstFree, Pow2;
    var n := |vs|;
    FirstFreeIs(s.free, 0, n);
    AfterTakes(s, v);
    var s', vs' := After(s, v), vs + [v];
    forall k | 0 <= k < 16 ensures BitSet(s'.free, k) <==> k >= |vs'| { ClearBit(s.free, n, k); }
    forall i | 0 <= i < |vs'| ensures s'.vregs[vs'[i]] == i {
      if i < n { assert vs'[i] == vs[i] && vs[i] in vs; }
    }
    forall u: Vreg | u !in vs' ensures s'.vregs[u] == NONE { assert u != v && u !in vs by { assert vs'[n] == v; } }
  }

  /** From a reset, the first sixteen distinct requests get the sixteen registers in order. */
  lemma {:induction false} FirstSixteen(vs: seq<Vreg>)
    requires |vs| <= 16 && Distinct(vs)
    ensures Consistent(Reset) && InOrder(Serve(Reset, vs), vs)
    decreases |vs|
  {
    ResetConsistent();
    if |vs| == 0 {
      forall i | 0 <= i < 16 ensures BitSet(ALL_FREE, i) { AllFree(i); }
    } else {
      hide InOrder, After;
      var n := |vs| - 1;
      FirstSixteen(vs[..n]);
      assert vs[n] !in vs[..n];
      NextInOrder(Serve(Reset, vs[..n]), vs[..n], vs[n]);
      assert vs[..n] + [vs[n]] == vs;
    }
  }

  /** The seventeenth distinct request is answered with RAX, which the first still owns. */
  lemma SeventeenthShares(vs: seq<Vreg>, v: Vreg)
    requires |vs| == 16 && Distinct(vs) && v !in vs
    ensures Consistent(Reset)
    ensures var s := Serve(Reset, vs); Chosen(s, v) == s.vregs[vs[0]] == 0 && After(s, v) == s
  { FirstSixteen(vs); }
}
