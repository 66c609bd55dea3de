/** The condition table of JMP_COND (src/backend/x86_64_lower.cpp:283-306) against the interpreter's
    `check_condition`, with the relation both stand for after a compare (section C1.2.4 of the Arm
    Architecture Reference Manual). */
module Conditions {
  import opened Words
  import opened X86
  import opened Interp
  import opened Lower

  /** What an ARM condition says about the operands of the compare before it. */
  predicate Relation(cond: u8, a: u64, b: u64)
  {
    match cond
    case 0 => a == b
    case 1 => a != b
    case 2 => a >= b
    case 3 => a < b
    case 4 => AsI64(U64(a - b)) < 0
    case 5 => AsI64(U64(a - b)) >= 0
    case 6 => !InI64(AsI64(a) - AsI64(b))
    case 7 => InI64(AsI64(a) - AsI64(b))
    case 8 => a > b
    case 9 => a <= b
    case 10 => AsI64(a) >= AsI64(b)
    case 11 => AsI64(a) < AsI64(b)
    case 12 => AsI64(a) > AsI64(b)
    case 13 => AsI64(a) <= AsI64(b)
    case _ => true
  }

  /** The four flags of a compare in words of the operands. */
  lemma CompareFlags(a: u64, b: u64)
    ensures var f := SubFlags(a, b);
            f.zf == (a == b) && f.cf == (a < b) && f.sf == (AsI64(U64(a - b)) < 0) &&
            f.of == !InI64(AsI64(a) - AsI64(b)) && (f.sf != f.of) == (AsI64(a) < AsI64(b))
  {
    hide EvenParity;
    SignedLess(a, b);
  }

  lemma SignedLess(a: u64, b: u64)
    ensures ((U64(a - b) >= TWO_63) != !InI64(AsI64(a) - AsI64(b))) == (AsI64(a) < AsI64(b))
    ensures U64(a - b) == 0 <==> a == b
  {}

  lemma PackedFlags(n: bool, z: bool, c: bool, v: bool)
    ensures var w := PackNzcv(n, z, c, v); FlagN(w) == n && FlagZ(w) == z && FlagC(w) == c && FlagV(w) == v
  {}

  /** The interpreter's flags of a compare: carry is the inverted borrow, the others as on the host. */
  lemma InterpreterFlags(a: u64, b: u64)
    ensures var w := CmpNzcv(a, b); var f := SubFlags(a, b);
            FlagN(w) == f.sf && FlagZ(w) == f.zf && FlagC(w) == !f.cf && FlagV(w) == f.of
  {
    var r := U64(a - b);
    PackedFlags(r >= TWO_63, r == 0, a >= b, (AsI64(r) < 0) != (AsI64(a) < AsI64(b)));
    CompareFlags(a, b);
  }

  /** For all operands and every condition 0..13: the chosen host condition on the flags of the host
      compare, the interpreter's check on its own flags, and the relation meant are one. */
  lemma ConditionTable(a: u64, b: u64, cond: u8)
    requires cond <= 13
    ensures Holds(HostCond(cond), SubFlags(a, b)) <==> Relation(cond, a, b)
    ensures CheckCondition(CmpNzcv(a, b), cond) <==> Relation(cond, a, b)
  {
    hide SubFlags, CmpNzcv, FlagN, FlagZ, FlagC, FlagV;
    CompareFlags(a, b);
    InterpreterFlags(a, b);
  }

  /** The jump over the taken exit uses `cc ^ 1`, which always negates. */
  lemma InvertedNegates(cc: u8, f: Flags)
    requires cc < 16
    ensures Inverted(cc) < 16 && Holds(Inverted(cc), f) == !Holds(cc, f)
  {}

  /** AL and NV are lowered to NZ and Z: they agree with the interpreter exactly on unequal operands. */
  lemma AlwaysAndNever(a: u64, b: u64)
    ensures (Holds(HostCond(14), SubFlags(a, b)) <==> CheckCondition(CmpNzcv(a, b), 14)) <==> a != b
    ensures (Holds(HostCond(15), SubFlags(a, b)) <==> CheckCondition(CmpNzcv(a, b), 15)) <==> a != b
  { CompareFlags(a, b); }

  /** After TST the host clears its carry, which the table reads as an ARM carry that is set: the
      carry conditions part from the interpreter, HS and LO always, HI and LS unless the result is zero;
      all others agree. */
  lemma TestTable(a: u64, b: u64, cond: u8, f: Flags)
    requires cond <= 13
    ensures (Holds(HostCond(cond), AluFlags(TEST, a, b, f)) <==> CheckCondition(TstNzcv(a, b), cond)) <==>
            !(cond in {2, 3} || (cond in {8, 9} && And64(a, b) != 0))
  {
    var r := And64(a, b);
    PackedFlags(r >= TWO_63, r == 0, false, false);
    hide And64, FlagN, FlagZ, FlagC, FlagV, PackNzcv;
  }

  // ----- the flags of the host, digit by digit -----

  /** The four flags of an addition in words of the operands. */
  lemma AddFlags(a: u64, b: u64, f: Flags)
    ensures var r := AluFlags(AluOp.ADD, a, b, f); var sum := AsI64(a) + AsI64(b);
            && (r.cf <==> a + b >= TWO_64) && (r.zf <==> a + b == 0 || a + b == TWO_64)
            && (r.of <==> sum < -TWO_63 || sum >= TWO_63) && ((r.sf != r.of) <==> sum < 0)
            && (r.af <==> U64(a + b) % 16 < a % 16)
  {
    hide EvenParity;
    SignedSum(a, b);
    LowCarry(a, b);
  }

  lemma SignedSum(a: u64, b: u64)
    ensures var sum := AsI64(a) + AsI64(b); ((U64(a + b) >= TWO_63) != !InI64(sum)) <==> sum < 0
    ensures U64(a + b) == 0 <==> a + b == 0 || a + b == TWO_64
  {}

  lemma LowCarry(a: u64, b: u64)
    ensures a % 16 + b % 16 >= 16 <==> U64(a + b) % 16 < a % 16
  {}

  /** A subtraction borrows into the low four bits. */
  lemma LowBorrow(a: u64, b: u64)
    ensures SubFlags(a, b).af <==> U64(a - b) % 16 > a % 16
  {
    hide EvenParity;
    NibbleBorrow(a, b);
    hide U64;
  }

  lemma NibbleBorrow(a: u64, b: u64)
    ensures a % 16 < b % 16 <==> U64(a - b) % 16 > a % 16
  {}

  /** The number of ones among the low `n` digits. */
  function Ones(x: nat, n: nat): nat { if n == 0 then 0 else x % 2 + Ones(x / 2, n - 1) }

  lemma {:induction false} ParityIs(x: nat, n: nat)
    ensures EvenParity(x, n) <==> Ones(x, n) % 2 == 0
    decreases n
  { if n > 0 { ParityIs(x / 2, n - 1); } }

  /** The parity flag looks at the low byte of the result. */
  lemma ParityFlag(a: u64, b: u64, f: Flags)
    ensures SubFlags(a, b).pf <==> Ones(U64(a - b) % 256, 8) % 2 == 0
    ensures AluFlags(AluOp.ADD, a, b, f).pf <==> Ones(U64(a + b) % 256, 8) % 2 == 0
  {
    hide EvenParity, Ones, U64, InI64, AsI64;
    ParityIs(U64(a - b) % 256, 8);
    ParityIs(U64(a + b) % 256, 8);
  }

  function One(b: bool): nat { if b then 1 else 0 }

  /** Digit at place `p` of a number split there. */
  lemma PlaceOf(r: nat, p: nat, low: nat, digit: nat, high: nat)
    requires r == low + p * (digit + 2 * high) && low < p && digit < 2
    ensures r / p % 2 == digit
  {
    DivUnique(r, p, digit + 2 * high, low);
  }

  lemma LowPlaces(r: nat, c: nat, p: nat, a: nat, h: nat)
    requires r == c + 2 + 4 * p + 16 * a + 64 * h && c < 2 && p < 2 && a < 2
    ensures r % 2 == c && r / 2 % 2 == 1 && r / 4 % 2 == p && r / 8 % 2 == 0 && r / 16 % 2 == a && r / 32 % 2 == 0
  {
    PlaceOf(r, 1, 0, c, 1 + 2 * p + 8 * a + 32 * h);
    PlaceOf(r, 2, c, 1, p + 4 * a + 16 * h);
    PlaceOf(r, 4, c + 2, p, 2 * a + 8 * h);
    PlaceOf(r, 8, c + 2 + 4 * p, 0, a + 4 * h);
    PlaceOf(r, 16, c + 2 + 4 * p, a, 2 * h);
    PlaceOf(r, 32, c + 2 + 4 * p + 16 * a, 0, h);
    assert r / 1 == r;
  }

  lemma HighPlaces(r: nat, low: nat, z: nat, s: nat, o: nat)
    requires r == low + 64 * z + 128 * s + 512 + 2048 * o && low < 64 && z < 2 && s < 2 && o < 2
    ensures r / 64 % 2 == z && r / 128 % 2 == s && r / 256 % 2 == 0 && r / 512 % 2 == 1 && r / 1024 % 2 == 0
    ensures r / 2048 % 2 == o && r < 4096
  {
    PlaceOf(r, 64, low, z, s + 4 + 16 * o);
    PlaceOf(r, 128, low + 64 * z, s, 2 + 8 * o);
    PlaceOf(r, 256, low + 64 * z + 128 * s, 0, 1 + 4 * o);
    PlaceOf(r, 512, low + 64 * z + 128 * s, 1, 2 * o);
    PlaceOf(r, 1024, low + 64 * z + 128 * s + 512, 0, o);
    PlaceOf(r, 2048, low + 64 * z + 128 * s + 512, o, 0);
  }

  /** The places of the flags in the word PUSHFQ stores (section 3.4.3 of the Intel SDM Vol. 1); bits 1 and 9 are
      set, the others clear. */
  lemma RflagsPlaces(f: Flags)
    ensures var r := Rflags(f);
            && (r % 2 == 1 <==> f.cf) && (r / 4 % 2 == 1 <==> f.pf) && (r / 16 % 2 == 1 <==> f.af)
            && (r / 64 % 2 == 1 <==> f.zf) && (r / 128 % 2 == 1 <==> f.sf) && (r / 2048 % 2 == 1 <==> f.of)
            && r / 2 % 2 == 1 && r / 512 % 2 == 1 && r < 4096
            && r / 8 % 2 == r / 32 % 2 == r / 256 % 2 == r / 1024 % 2 == 0
  {
    var c, p, a, z, s, o := One(f.cf), One(f.pf), One(f.af), One(f.zf), One(f.sf), One(f.of);
    var r, low: nat := Rflags(f), c + 2 + 4 * p + 16 * a;
    assert r == low + 64 * z + 128 * s + 512 + 2048 * o;
    hide Rflags;
    LowPlaces(r, c, p, a, z + 2 * s + 8 + 32 * o);
    HighPlaces(r, low, z, s, o);
  }
}
