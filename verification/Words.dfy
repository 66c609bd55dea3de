/** Fixed-width words, little-endian byte strings and a byte-addressed memory.

    C++ arithmetic on uint64_t is written out as arithmetic modulo TWO_64; a conversion to a
    signed type is `AsI64` or `AsI32`. */
module Words {
  const TWO_31: int := 0x8000_0000
  const TWO_32: int := 0x1_0000_0000
  const TWO_63: int := 0x8000_0000_0000_0000
  const TWO_64: int := 0x1_0000_0000_0000_0000

  type u8 = x: int | 0 <= x < 256
  type u16 = x: int | 0 <= x < 0x1_0000
  type u32 = x: int | 0 <= x < 0x1_0000_0000
  type u64 = x: int | 0 <= x < 0x1_0000_0000_0000_0000
  type i32 = x: int | -0x8000_0000 <= x < 0x8000_0000
  type i64 = x: int | -0x8000_0000_0000_0000 <= x < 0x8000_0000_0000_0000

  function U64(x: int): u64 { x % TWO_64 }

  function U32(x: int): u32 { x % TWO_32 }

  /** Two's-complement reading of a 64-bit word. */
  function AsI64(x: u64): i64 { if x < TWO_63 then x else x - TWO_64 }

  /** The conversion of an unsigned 64-bit word to int32_t: keep 32 bits, read them as signed. */
  function AsI32(x: u64): i32 { var y := x % TWO_32; if y < TWO_31 then y else y - TWO_32 }

  function Pow2(n: nat): (p: nat)
    ensures p >= 1
  { if n == 0 then 1 else 2 * Pow2(n - 1) }

  // ----- division by products -----

  lemma MulMono(a: nat, b: nat, c: nat)
    requires a <= b
    ensures a * c <= b * c
  { assert (b - a) * c >= 0; }

  lemma DivUnique(x: nat, d: nat, q: nat, r: nat)
    requires d > 0 && x == q * d + r && r < d
    ensures x / d == q && x % d == r
  {
    var q', r' := x / d, x % d;
    assert x == q' * d + r';
    if q < q' { MulMono(q + 1, q', d); } else if q > q' { MulMono(q' + 1, q, d); }
  }

  lemma NestArith(a: nat, b: nat, h: nat, s: nat, r: nat)
    requires r < a && s < b
    ensures (h * b + s) * a + r == h * (a * b) + (s * a + r) && s * a + r < a * b
  {
    assert (h * b + s) * a == h * b * a + s * a;
    assert h * b * a == h * (a * b);
    MulMono(s + 1, b, a);
  }

  /** Dividing by a product is dividing twice, and fields of fields are fields. */
  lemma Nest(x: nat, a: nat, b: nat)
    requires a > 0 && b > 0
    ensures a * b > 0 && x / (a * b) == x / a / b && x % (a * b) / a == x / a % b
  { Nest0(x, a, b, x / a, x % a); }

  lemma Nest0(x: nat, a: nat, b: nat, q: nat, r: nat)
    requires b > 0 && r < a && x == q * a + r
    ensures a * b > 0 && x / a == q && x / (a * b) == q / b && x % (a * b) / a == q % b
  { Nest1(x, a, b, q, r, q / b, q % b); }

  lemma Nest1(x: nat, a: nat, b: nat, q: nat, r: nat, h: nat, s: nat)
    requires r < a && x == q * a + r && s < b && q == h * b + s
    ensures a * b > 0 && x / a == q && q / b == h && q % b == s && x / (a * b) == h && x % (a * b) / a == s
  {
    NestArith(a, b, h, s, r);
    DivUnique(x, a, q, r);
    DivUnique(q, b, h, s);
    DivUnique(x, a * b, h, s * a + r);
    DivUnique(s * a + r, a, s, r);
  }

  lemma FloorOf(x: int, p: nat)
    requires p > 0
    ensures x / p * p <= x < (x / p + 1) * p
  {
    var q, r := x / p, x % p;
    assert x == p * q + r && 0 <= r < p;
    assert (q + 1) * p == q * p + p;
  }

  lemma Distribute(a: int, d: int, p: int)
    ensures (a + 1 + d) * p == a * p + p + d * p
  {}

  lemma MulOrder(a: int, b: int, p: nat)
    ensures a < b ==> a * p + p <= b * p
  {
    if a < b {
      MulMono(0, b - a - 1, p);
      Distribute(a, b - a - 1, p);
    }
  }

  lemma QuotientUnique(x: int, p: nat, q: int, r: int)
    requires p > 0 && q * p <= x < (q + 1) * p && r * p <= x < (r + 1) * p
    ensures q == r
  {
    MulOrder(q, r, p);
    MulOrder(r, q, p);
    assert (q + 1) * p == q * p + p && (r + 1) * p == r * p + p;
  }

  lemma QuotientOf(x: int, p: nat, q: int)
    requires p > 0 && q * p <= x < (q + 1) * p
    ensures x / p == q
  {
    FloorOf(x, p);
    QuotientUnique(x, p, q, x / p);
  }

  // ----- bitwise operations, defined bit by bit -----

  function BitAnd(n: nat, a: nat, b: nat): (r: nat)
    ensures r <= a
  { if n == 0 then 0 else (a % 2) * (b % 2) + 2 * BitAnd(n - 1, a / 2, b / 2) }

  function BitOr(n: nat, a: nat, b: nat): (r: nat)
    ensures r < Pow2(n)
  { if n == 0 then 0 else (if a % 2 + b % 2 > 0 then 1 else 0) + 2 * BitOr(n - 1, a / 2, b / 2) }

  function BitXor(n: nat, a: nat, b: nat): (r: nat)
    ensures r < Pow2(n)
  { if n == 0 then 0 else (a + b) % 2 + 2 * BitXor(n - 1, a / 2, b / 2) }

  lemma Pow2Byte(n: nat)
    ensures Pow2(n + 8) == 256 * Pow2(n)
  {
    assert Pow2(n + 2) == 4 * Pow2(n);
    assert Pow2(n + 4) == 4 * Pow2(n + 2);
    assert Pow2(n + 6) == 4 * Pow2(n + 4);
    assert Pow2(n + 8) == 4 * Pow2(n + 6);
  }

  lemma Pow2Words()
    ensures Pow2(32) == TWO_32 && Pow2(64) == TWO_64
  {
    Pow2Byte(0); Pow2Byte(8); Pow2Byte(16); Pow2Byte(24);
    Pow2Byte(32); Pow2Byte(40); Pow2Byte(48); Pow2Byte(56);
  }

  lemma {:induction false} BitAndSelf(n: nat, a: nat)
    requires a < Pow2(n)
    ensures BitAnd(n, a, a) == a && BitOr(n, a, a) == a
  { if n > 0 { BitAndSelf(n - 1, a / 2); } }

  lemma {:induction false} BitZero(n: nat, a: nat)
    ensures BitAnd(n, 0, a) == BitAnd(n, a, 0) == 0
  { if n > 0 { BitZero(n - 1, a / 2); } }

  lemma {:induction false} BitOrBelow(n: nat, a: nat, b: nat)
    requires a < Pow2(n) && b < Pow2(n)
    ensures BitOr(n, a, b) >= a && BitOr(n, a, b) >= b
  { if n > 0 { BitOrBelow(n - 1, a / 2, b / 2); } }

  lemma {:induction false} BitXorSelf(n: nat, a: nat)
    ensures BitXor(n, a, a) == 0
  { if n > 0 { BitXorSelf(n - 1, a / 2); } }

  lemma {:induction false} BitAndOnes(n: nat, b: nat)
    requires b < Pow2(n)
    ensures BitAnd(n, Pow2(n) - 1, b) == b
  { if n > 0 { assert (Pow2(n) - 1) / 2 == Pow2(n - 1) - 1; BitAndOnes(n - 1, b / 2); } }

  lemma BitAndStep(n: nat, p: nat, x: nat, y: nat)
    requires p < 2
    ensures BitAnd(n + 1, p + 2 * x, y) == p * (y % 2) + 2 * BitAnd(n, x, y / 2)
  { assert (p + 2 * x) % 2 == p && (p + 2 * x) / 2 == x; }

  lemma BitAndSkipTwo(n: nat, x: nat, y: nat)
    ensures BitAnd(n + 2, 4 * x, y) == 4 * BitAnd(n, x, y / 4)
  {
    BitAndStep(n + 1, 0, 2 * x, y);
    BitAndStep(n, 0, x, y / 2);
    hide BitAnd;
    Nest(y, 2, 2);
  }

  /** A mask that ends in four zeros. */
  lemma BitAndSkip(n: nat, x: nat, y: nat)
    ensures BitAnd(n + 4, 16 * x, y) == 16 * BitAnd(n, x, y / 16)
  {
    hide BitAnd;
    BitAndSkipTwo(n + 2, 4 * x, y);
    BitAndSkipTwo(n, x, y / 4);
    Nest(y, 4, 4);
  }

  /** A mask that ends in a one. */
  lemma BitAndKeep(n: nat, x: nat, y: nat)
    ensures BitAnd(n + 1, 1 + 2 * x, y) == y % 2 + 2 * BitAnd(n, x, y / 2)
  { BitAndStep(n, 1, x, y); }

  function And64(a: u64, b: u64): u64 { BitAnd(64, a, b) }
  function Or64(a: u64, b: u64): u64 { Pow2Words(); BitOr(64, a, b) }
  function Xor64(a: u64, b: u64): u64 { Pow2Words(); BitXor(64, a, b) }
  function Not64(a: u64): u64 { TWO_64 - 1 - a }

  // ----- little-endian byte strings -----

  /** The low `n` bytes of `v`, least significant first. */
  function Le(v: nat, n: nat): (s: seq<u8>)
    ensures |s| == n
  { if n == 0 then [] else [v % 256] + Le(v / 256, n - 1) }

  function UnLe(s: seq<u8>): nat
  { if |s| == 0 then 0 else s[0] + 256 * UnLe(s[1..]) }

  lemma {:induction false} UnLeBound(s: seq<u8>)
    ensures UnLe(s) < Pow2(8 * |s|)
  {
    if |s| > 0 {
      UnLeBound(s[1..]);
      Pow2Byte(8 * |s| - 8);
    }
  }

  lemma {:induction false} UnLeOfLe(v: nat, n: nat)
    ensures v < Pow2(8 * n) ==> UnLe(Le(v, n)) == v
  {
    if n > 0 {
      UnLeOfLe(v / 256, n - 1);
      Pow2Byte(8 * n - 8);
      assert Le(v, n)[1..] == Le(v / 256, n - 1);
    }
  }

  lemma Word64RoundTrip(v: u64)
    ensures UnLe(Le(v, 8)) == v
  { Pow2Words(); UnLeOfLe(v, 8); }

  lemma Word32RoundTrip(v: u32)
    ensures UnLe(Le(v, 4)) == v
  { Pow2Words(); UnLeOfLe(v, 4); }

  // ----- memory -----

  /** Host memory. An address outside the map is not mapped: touching it faults. Guest addresses
      are host addresses (src/core/memory_manager.cpp:91-96). */
  type Mem = map<int, u8>

  predicate Mapped(m: Mem, a: int, n: nat) { forall k :: a <= k < a + n ==> k in m }

  function ReadBytes(m: Mem, a: int, n: nat): (s: seq<u8>)
    requires Mapped(m, a, n)
    ensures |s| == n
  { seq(n, i requires 0 <= i < n => m[a + i]) }

  function WriteBytes(m: Mem, a: int, s: seq<u8>): (r: Mem)
    ensures r.Keys == m.Keys
  { map k | k in m :: if a <= k < a + |s| then s[k - a] else m[k] }

  function Read64(m: Mem, a: int): u64
    requires Mapped(m, a, 8)
  { UnLeBound(ReadBytes(m, a, 8)); Pow2Words(); UnLe(ReadBytes(m, a, 8)) }

  function Read32(m: Mem, a: int): u32
    requires Mapped(m, a, 4)
  { UnLeBound(ReadBytes(m, a, 4)); Pow2Words(); UnLe(ReadBytes(m, a, 4)) }

  function Write64(m: Mem, a: int, v: u64): (r: Mem)
    ensures r.Keys == m.Keys
  { WriteBytes(m, a, Le(v, 8)) }

  lemma ReadBack(m: Mem, a: int, v: u64)
    requires Mapped(m, a, 8)
    ensures Read64(Write64(m, a, v), a) == v
  { Word64RoundTrip(v); assert ReadBytes(Write64(m, a, v), a, 8) == Le(v, 8); }

  lemma ReadElsewhere(m: Mem, a: int, v: u64, b: int, n: nat)
    requires Mapped(m, b, n) && (b + n <= a || a + 8 <= b)
    ensures ReadBytes(Write64(m, a, v), b, n) == ReadBytes(m, b, n)
  {}
}
