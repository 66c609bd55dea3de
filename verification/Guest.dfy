/** Guest state: the CPU context (src/core/cpu_context.hpp), the region table with its permission
    check (src/core/memory_manager.cpp) and the bytes of guest memory. */
module Guest {
  import opened Words

  datatype Prot = Prot(read: bool, write: bool, exec: bool)

  datatype MemRegion = MemRegion(addr: u64, size: u64, perms: Prot)

  datatype Access = ReadAccess | WriteAccess

  predicate Contains(r: MemRegion, addr: u64, len: nat)
  { addr >= r.addr && U64(addr + len) <= U64(r.addr + r.size) }

  predicate Grants(p: Prot, needed: Access)
  { if needed.ReadAccess? then p.read || p.exec else p.write }

  /** `check_perms`: the first region holding the whole access decides. */
  predicate CheckPerms(regions: seq<MemRegion>, addr: u64, len: nat, needed: Access)
  {
    |regions| > 0 &&
    if Contains(regions[0], addr, len) then Grants(regions[0].perms, needed)
    else CheckPerms(regions[1..], addr, len, needed)
  }

  /** X0..X30 followed by SP. `sp` sits right behind the array `x`, so slot 31 of the register
      file is the stack pointer, for the interpreter and for emitted code alike. */
  type Regs = s: seq<u64> | |s| == 32 witness seq(32, i => 0)

  /** Offsets 280..823 of the context: eight bytes of padding, V0..V31, FPCR, FPSR, TPIDR_EL0 and the thread id. */
  type Upper = s: seq<u8> | |s| == 544 witness seq(544, i => 0)

  datatype CPUContext = CPUContext(
    x: Regs, pc: u64, lr: u64, nzcv: u64, upper: Upper, stateFlags: u32, exitStatus: u32)
  {
    /** A register read. The decoder only yields numbers below 32 for registers that are read. */
    function Reg(r: u8): u64 { if r < 32 then x[r] else 0 }

    function SetReg(r: u8, v: u64): CPUContext { if r < 32 then this.(x := x[r := v]) else this }

    function Next(): CPUContext { this.(pc := U64(pc + 4)) }

    function Crash(): CPUContext
    { if stateFlags / 4 % 2 == 1 then this else this.(stateFlags := stateFlags + 4) }

    predicate Crashed() { stateFlags / 4 % 2 == 1 }
    predicate Exited() { stateFlags / 8 % 2 == 1 }
  }

  const SP: u8 := 31

  datatype Guest = Guest(ctx: CPUContext, mem: Mem, regions: seq<MemRegion>)
  {
    /** A checked access: the region table allows it. `Mapped` says the host mapping behind the
        table is there. */
    predicate CanRead(a: u64, n: nat) { CheckPerms(regions, a, n, ReadAccess) && Mapped(mem, a, n) }

    predicate CanWrite(a: u64, n: nat) { CheckPerms(regions, a, n, WriteAccess) && Mapped(mem, a, n) }

    /** `write_u8/16/32/64`: a refused store is dropped without notice. */
    function Store(a: u64, n: nat, v: nat): Guest
    { if CanWrite(a, n) then this.(mem := WriteBytes(mem, a, Le(v, n))) else this }

    function Load(a: u64, n: nat): nat
      requires Mapped(mem, a, n)
    { UnLe(ReadBytes(mem, a, n)) }
  }
}
