/** How a CPU context and guest memory lie in host memory, and what 8-byte stores do to the view. */
module View {
  import opened Words
  import opened Guest

  const CTX_SIZE: int := 832

  predicate InContext(p: int, k: int) { p <= k < p + CTX_SIZE }

  function ContextAt(m: Mem, p: int): CPUContext
    requires Mapped(m, p, CTX_SIZE)
  {
    CPUContext(
      seq(32, i requires 0 <= i < 32 => Read64(m, p + 8 * i)),
      Read64(m, p + 256), Read64(m, p + 264), Read64(m, p + 272),
      ReadBytes(m, p + 280, 544), Read32(m, p + 824), Read32(m, p + 828))
  }

  function Outside(m: Mem, p: int): Mem { map k | k in m && !InContext(p, k) :: m[k] }

  /** The guest state held by host memory `m` when the context lies at `p`. */
  function ViewAt(m: Mem, p: int, regions: seq<MemRegion>): Guest
    requires Mapped(m, p, CTX_SIZE)
  { Guest(ContextAt(m, p), Outside(m, p), regions) }

  /** Writing the 64-bit word number `i` of the context. */
  function SetSlot(c: CPUContext, i: int, v: u64): CPUContext
    requires 0 <= i <= 34
  {
    if i < 32 then c.(x := c.x[i := v])
    else if i == 32 then c.(pc := v)
    else if i == 33 then c.(lr := v)
    else c.(nzcv := v)
  }

  lemma StoreSlot(m: Mem, p: int, i: int, v: u64)
    requires Mapped(m, p, CTX_SIZE) && 0 <= i <= 34
    ensures ContextAt(Write64(m, p + 8 * i, v), p) == SetSlot(ContextAt(m, p), i, v)
    ensures Outside(Write64(m, p + 8 * i, v), p) == Outside(m, p)
  {
    hide UnLe, Le;
    var m' := Write64(m, p + 8 * i, v);
    assert Mapped(m', p, CTX_SIZE);
    forall j | 0 <= j <= 34
      ensures Read64(m', p + 8 * j) == if j == i then v else Read64(m, p + 8 * j)
    {
      if j == i { ReadBack(m, p + 8 * i, v); } else { ReadElsewhere(m, p + 8 * i, v, p + 8 * j, 8); }
    }
    ReadElsewhere(m, p + 8 * i, v, p + 280, 544);
    ReadElsewhere(m, p + 8 * i, v, p + 824, 4);
    ReadElsewhere(m, p + 8 * i, v, p + 828, 4);
    var c, c' := ContextAt(m, p), ContextAt(m', p);
    assert forall j :: 0 <= j < 32 ==> c'.x[j] == if j == i then v else c.x[j];
    assert Read64(m', p + 8 * 32) == c'.pc && Read64(m', p + 8 * 33) == c'.lr && Read64(m', p + 8 * 34) == c'.nzcv;
    assert c'.x == SetSlot(c, i, v).x;
  }

  lemma StoreOutside(m: Mem, p: int, a: int, v: u64)
    requires Mapped(m, p, CTX_SIZE) && Mapped(Outside(m, p), a, 8)
    ensures ContextAt(Write64(m, a, v), p) == ContextAt(m, p)
    ensures Outside(Write64(m, a, v), p) == Write64(Outside(m, p), a, v)
  {
    var m' := Write64(m, a, v);
    hide UnLe, Le;
    Apart(m, p, a);
    forall j | 0 <= j <= 34
      ensures Read64(m', p + 8 * j) == Read64(m, p + 8 * j)
    { ReadElsewhere(m, a, v, p + 8 * j, 8); }
    ReadElsewhere(m, a, v, p + 280, 544);
    ReadElsewhere(m, a, v, p + 824, 4);
    ReadElsewhere(m, a, v, p + 828, 4);
    var c, c' := ContextAt(m, p), ContextAt(m', p);
    assert forall j :: 0 <= j < 32 ==> c'.x[j] == c.x[j];
    assert c'.x == c.x;
    assert Read64(m', p + 8 * 32) == c'.pc && Read64(m', p + 8 * 33) == c'.lr && Read64(m', p + 8 * 34) == c'.nzcv;
  }

  /** An access outside the context does not overlap it. */
  lemma Apart(m: Mem, p: int, a: int)
    requires Mapped(Outside(m, p), a, 8)
    ensures a + 8 <= p || p + CTX_SIZE <= a
  {
    forall k | a <= k < a + 8 ensures !InContext(p, k) { assert k in Outside(m, p); }
    assert InContext(p, p) && !InContext(p, a);
  }

  lemma LoadOutside(m: Mem, p: int, a: int)
    requires Mapped(Outside(m, p), a, 8)
    ensures Mapped(m, a, 8) && Read64(m, a) == Read64(Outside(m, p), a)
  {
    assert forall k :: a <= k < a + 8 ==> k in Outside(m, p) ==> k in m;
    assert ReadBytes(m, a, 8) == ReadBytes(Outside(m, p), a, 8);
  }
}
