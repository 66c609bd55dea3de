/** The host memory a block is called in: guest memory with the CPU context laid out at `p`
    (src/core/cpu_context.hpp). */
module HostImage {
  import opened Words
  import opened Guest
  import opened View
  import X86

  /** The 64-bit word number `i` of the context. */
  function Word(c: CPUContext, i: int): u64
    requires 0 <= i <= 34
  { if i < 32 then c.x[i] else if i == 32 then c.pc else if i == 33 then c.lr else c.nzcv }

  function ContextByte(c: CPUContext, o: int): u8
    requires 0 <= o < CTX_SIZE
  {
    if o < 280 then Le(Word(c, o / 8), 8)[o % 8]
    else if o < 824 then c.upper[o - 280]
    else if o < 828 then Le(c.stateFlags, 4)[o - 824]
    else Le(c.exitStatus, 4)[o - 828]
  }

  function Image(g: Guest, p: int): Mem
  { g.mem + map k | p <= k < p + CTX_SIZE && InContext(p, k) :: ContextByte(g.ctx, k - p) }

  /** No guest address lies in the context. */
  predicate ContextFree(g: Guest, p: int) { forall k :: k in g.mem ==> !InContext(p, k) }

  lemma WordBytes(g: Guest, p: int, i: int)
    requires 0 <= i <= 34
    ensures Mapped(Image(g, p), p + 8 * i, 8) && Read64(Image(g, p), p + 8 * i) == Word(g.ctx, i)
  {
    var m := Image(g, p);
    hide Le, UnLe;
    forall j | 0 <= j < 8 ensures p + 8 * i + j in m && m[p + 8 * i + j] == Le(Word(g.ctx, i), 8)[j] {
      assert InContext(p, p + 8 * i + j);
      assert (8 * i + j) / 8 == i && (8 * i + j) % 8 == j;
    }
    assert ReadBytes(m, p + 8 * i, 8) == Le(Word(g.ctx, i), 8);
    Word64RoundTrip(Word(g.ctx, i));
  }

  lemma TailBytes(g: Guest, p: int)
    ensures var m := Image(g, p);
            && Mapped(m, p + 280, 544) && ReadBytes(m, p + 280, 544) == g.ctx.upper
            && Mapped(m, p + 824, 4) && Read32(m, p + 824) == g.ctx.stateFlags
            && Mapped(m, p + 828, 4) && Read32(m, p + 828) == g.ctx.exitStatus
  {
    var m := Image(g, p);
    hide Le, UnLe;
    forall k | p <= k < p + CTX_SIZE ensures k in m && m[k] == ContextByte(g.ctx, k - p) { assert InContext(p, k); }
    assert ReadBytes(m, p + 280, 544) == g.ctx.upper;
    assert ReadBytes(m, p + 824, 4) == Le(g.ctx.stateFlags, 4);
    assert ReadBytes(m, p + 828, 4) == Le(g.ctx.exitStatus, 4);
    Word32RoundTrip(g.ctx.stateFlags);
    Word32RoundTrip(g.ctx.exitStatus);
  }

  lemma ImageOutside(g: Guest, p: int)
    requires ContextFree(g, p)
    ensures Mapped(Image(g, p), p, CTX_SIZE) && Outside(Image(g, p), p) == g.mem
  {
    hide ContextByte;
    forall k | p <= k < p + CTX_SIZE ensures k in Image(g, p) { assert InContext(p, k); }
  }

  /** Laying a guest state out and viewing it gives it back. */
  lemma ImageView(g: Guest, p: int)
    requires ContextFree(g, p)
    ensures Mapped(Image(g, p), p, CTX_SIZE) && ViewAt(Image(g, p), p, g.regions) == g
  {
    hide Image, Read64, Read32, ReadBytes, ContextFree, Outside;
    var m := Image(g, p);
    forall i | 0 <= i <= 34 ensures Mapped(m, p + 8 * i, 8) && Read64(m, p + 8 * i) == Word(g.ctx, i) { WordBytes(g, p, i); }
    TailBytes(g, p);
    ImageOutside(g, p);
    hide Mapped;
    var c := ContextAt(m, p);
    assert c.x == g.ctx.x;
    assert Read64(m, p + 8 * 32) == c.pc && Read64(m, p + 8 * 33) == c.lr && Read64(m, p + 8 * 34) == c.nzcv;
  }

  /** The host registers and flags a block is called with; RDI is the argument. */
  datatype Call = Call(regs: X86.RegFile, flags: X86.Flags)

  /** The machine in which a block is entered. */
  function Entry(g: Guest, p: u64, call: Call): X86.Machine
  { X86.Machine(call.regs[X86.RDI := p], call.flags, Image(g, p)) }
}
