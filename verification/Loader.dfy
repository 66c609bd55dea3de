/** The region table (src/core/memory_manager.cpp) and the ELF segment loader
    (src/elf/elf_loader.cpp:124-177). */
module Loader {
  import opened Words
  import opened Guest

  const PAGE: int := 4096
  const PT_LOAD: u32 := 1

  datatype Phdr = Phdr(kind: u32, flags: u32, offset: u64, vaddr: u64, filesz: u64, memsz: u64)

  /** PF_R, PF_W and PF_X as protection bits. */
  function ProtOf(flags: u32): Prot { Prot(flags / 4 % 2 == 1, flags / 2 % 2 == 1, flags % 2 == 1) }

  function PageDown(a: u64): u64 { a - a % PAGE }

  /** `(n + 4095) & ~4095` on 64 bits. */
  function RoundUp(n: int): u64 { PageDown(U64(n + 4095)) }

  function PageBase(ph: Phdr): u64 { PageDown(ph.vaddr) }
  function MapSize(ph: Phdr): u64 { RoundUp(ph.vaddr % PAGE + ph.memsz) }

  predicate InRange(a: int, n: int, k: int) { a <= k < a + n }

  /** A fresh anonymous mapping, in place of whatever was there. */
  function Zeroed(mem: Mem, a: int, n: nat): Mem { mem + map k | a <= k < a + n && InRange(a, n, k) :: 0 }

  function Zeros(n: nat): seq<u8> { seq(n, i => 0) }

  /** `mprotect` on the table: the first region that starts at `addr`. */
  function Reprotected(regions: seq<MemRegion>, addr: u64, prot: Prot): seq<MemRegion>
  {
    if |regions| == 0 then []
    else if regions[0].addr == addr then [regions[0].(perms := prot)] + regions[1..]
    else [regions[0]] + Reprotected(regions[1..], addr, prot)
  }

  /** The host maps a non-empty, aligned range below the end of the address space, if it wants to. */
  predicate Accepts(host: (u64, u64) -> bool, a: u64, n: u64)
  { n > 0 && a % PAGE == 0 && a + n < TWO_64 && host(a, n) }

  /** Memory, the region table, and the address the next mapping without a hint gets. */
  datatype Space = Space(mem: Mem, regions: seq<MemRegion>, next: u64)

  datatype MapResult = MapResult(addr: u64, space: Space)

  /** `mmap`, with `find_free_region`: address 0 means failure. */
  function MapAt(host: (u64, u64) -> bool, s: Space, size: u64, prot: Prot, hint: u64): MapResult
  {
    var n := RoundUp(size);
    var a := if hint != 0 then hint else s.next;
    var next := if hint != 0 then s.next else U64(s.next + n);
    if a != 0 && Accepts(host, a, n) then
      MapResult(a, Space(Zeroed(s.mem, a, n), s.regions + [MemRegion(a, n, prot)], next))
    else MapResult(0, s.(next := next))
  }

  class MemoryManager {
    var regions: seq<MemRegion>
    var mem: Mem
    var mmapBase: u64
    const host: (u64, u64) -> bool

    ghost function State(): Space
      reads this
    { Space(mem, regions, mmapBase) }

    constructor (host: (u64, u64) -> bool, base: u64, mem: Mem)
      ensures State() == Space(mem, [], base) && this.host == host
    { regions, this.mem, mmapBase, this.host := [], mem, base, host; }

    /** `mmap`, with `find_free_region` */
    method Mmap(size: u64, prot: Prot, hint: u64) returns (addr: u64)
      modifies this
      ensures MapResult(addr, State()) == MapAt(host, old(State()), size, prot, hint)
    {
      var n := RoundUp(size);
      var a := hint;
      if hint == 0 {
        a := mmapBase;
        mmapBase := U64(mmapBase + n);
      }
      if a == 0 || !Accepts(host, a, n) { return 0; }
      mem := Zeroed(mem, a, n);
      regions := regions + [MemRegion(a, n, prot)];
      return a;
    }

    /** `mprotect` */
    method Mprotect(addr: u64, prot: Prot)
      modifies this`regions
      ensures regions == Reprotected(old(regions), addr, prot)
    {
      var i := 0;
      while i < |regions|
        invariant i <= |regions| && regions == old(regions)
        invariant regions[..i] + Reprotected(regions[i..], addr, prot) == Reprotected(regions, addr, prot)
      {
        assert regions[i..][0] == regions[i] && regions[i..][1..] == regions[i + 1..];
        if regions[i].addr == addr {
          regions := regions[i := regions[i].(perms := prot)];
          assert regions == old(regions)[..i] + ([regions[i]] + old(regions)[i + 1..]);
          return;
        }
        assert regions[..i + 1] == regions[..i] + [regions[i]];
        i := i + 1;
      }
      assert regions[..i] == regions && regions[i..] == [];
    }

    /** `check_perms` */
    method Allowed(addr: u64, len: nat, needed: Access) returns (ok: bool)
      ensures ok == CheckPerms(regions, addr, len, needed)
    {
      var i := 0;
      while i < |regions|
        invariant i <= |regions|
        invariant CheckPerms(regions, addr, len, needed) == CheckPerms(regions[i..], addr, len, needed)
      {
        assert regions[i..][0] == regions[i] && regions[i..][1..] == regions[i + 1..];
        if Contains(regions[i], addr, len) {
          return if needed.ReadAccess? && regions[i].perms.exec then true
                 else if needed.ReadAccess? then regions[i].perms.read else regions[i].perms.write;
        }
        i := i + 1;
      }
      return false;
    }
  }

  // ----- one segment -----

  datatype CopyResult = Filled(mem: Mem) | Fault

  /** Writing `s` at `a`; a byte that is not mapped faults. */
  function Stored(m: Mem, a: int, s: seq<u8>): CopyResult
  { if Mapped(m, a, |s|) then Filled(WriteBytes(m, a, s)) else Fault }

  /** The file bytes of a segment, if the mapped file has them all. */
  predicate InFile(ph: Phdr, elf: seq<u8>) { ph.filesz > 0 ==> ph.offset + ph.filesz <= |elf| }

  function FileBytes(ph: Phdr, elf: seq<u8>): seq<u8>
    requires InFile(ph, elf)
  { if ph.filesz > 0 then elf[ph.offset..ph.offset + ph.filesz] else [] }

  /** The part of the segment behind its file bytes: where it starts, and its size. */
  function BssStart(ph: Phdr): u64 { U64(ph.vaddr + ph.filesz) }
  function BssSize(ph: Phdr): nat { if ph.memsz > ph.filesz then ph.memsz - ph.filesz else 0 }

  /** Copying the file bytes, zeroing the rest of the segment and the start of its first page. */
  function Copied(m1: Mem, ph: Phdr, elf: seq<u8>): CopyResult
  {
    if !InFile(ph, elf) then Fault else
    match Stored(m1, ph.vaddr, FileBytes(ph, elf))
    case Fault => Fault
    case Filled(m2) =>
      match Stored(m2, BssStart(ph), Zeros(BssSize(ph)))
      case Fault => Fault
      case Filled(m3) => Stored(m3, PageBase(ph), Zeros(ph.vaddr % PAGE))
  }

  /** The copying faults exactly when it reads past the file or writes where nothing is mapped. */
  lemma CopyFaults(m1: Mem, ph: Phdr, elf: seq<u8>)
    ensures Copied(m1, ph, elf).Filled? <==>
            && (ph.filesz > 0 ==> ph.offset + ph.filesz <= |elf|) && Mapped(m1, ph.vaddr, ph.filesz)
            && (ph.memsz > ph.filesz ==> Mapped(m1, (ph.vaddr + ph.filesz) % TWO_64, ph.memsz - ph.filesz))
            && Mapped(m1, ph.vaddr - ph.vaddr % 4096, ph.vaddr % 4096)
  { assert PageBase(ph) == ph.vaddr - ph.vaddr % 4096; hide PageDown; }

  /** A load that was carried out, one the host refused, or a fault in the loader itself. */
  datatype LoadResult = Loaded(space: Space) | Refused(space: Space) | Crashed

  /** One PT_LOAD header, whatever it says. */
  function LoadStep(host: (u64, u64) -> bool, s: Space, ph: Phdr, elf: seq<u8>): LoadResult
  {
    var prot := ProtOf(ph.flags);
    var r := MapAt(host, s, MapSize(ph), prot.(write := true), PageBase(ph));
    if r.addr == 0 then Refused(r.space) else
    match Copied(r.space.mem, ph, elf)
    case Fault => Crashed
    case Filled(m) =>
      var regions := r.space.regions;
      Loaded(Space(m, if prot.write then regions else Reprotected(regions, PageBase(ph), prot), r.space.next))
  }

  /** A well-formed header: file bytes inside the file and inside the segment, no wrap around the end of
      the address space, not on page 0. */
  predicate Loadable(ph: Phdr, elf: seq<u8>)
  {
    && ph.filesz <= ph.memsz && ph.offset + ph.filesz <= |elf|
    && ph.vaddr + ph.memsz + PAGE <= TWO_64 && PageBase(ph) != 0
  }

  /** The segment lies in the pages mapped for it. */
  lemma PagesCover(ph: Phdr, elf: seq<u8>)
    requires Loadable(ph, elf)
    ensures PageBase(ph) <= ph.vaddr && ph.vaddr + ph.memsz <= PageBase(ph) + MapSize(ph)
    ensures MapSize(ph) % PAGE == 0 && RoundUp(MapSize(ph)) == MapSize(ph)
  {}

  function MapSegment(s: Space, ph: Phdr, elf: seq<u8>): Space
    requires Loadable(ph, elf)
  {
    var prot := ProtOf(ph.flags);
    var added := s.regions + [MemRegion(PageBase(ph), MapSize(ph), prot.(write := true))];
    Space(Image(s.mem, ph, elf), if prot.write then added else Reprotected(added, PageBase(ph), prot), s.next)
  }

  /** Memory behind a well-formed segment. */
  function Image(mem: Mem, ph: Phdr, elf: seq<u8>): Mem
    requires Loadable(ph, elf)
  {
    ImageFits(mem, ph, elf);
    Copied(Zeroed(mem, PageBase(ph), MapSize(ph)), ph, elf).mem
  }

  lemma ImageFits(mem: Mem, ph: Phdr, elf: seq<u8>)
    requires Loadable(ph, elf)
    ensures Copied(Zeroed(mem, PageBase(ph), MapSize(ph)), ph, elf).Filled?
  {
    hide Copied, MapSize, Zeroed;
    PagesCover(ph, elf);
    assert PageBase(ph) + ph.vaddr % PAGE == ph.vaddr;
    hide PageDown;
    var m := Zeroed(mem, PageBase(ph), MapSize(ph));
    ZeroedMapped(mem, PageBase(ph), MapSize(ph));
    CopyFaults(m, ph, elf);
  }

  lemma ZeroedMapped(mem: Mem, a: int, n: nat)
    ensures Mapped(Zeroed(mem, a, n), a, n)
  {}

  /** A well-formed header never makes the loader fault: it is loaded if the host accepts its pages. */
  lemma LoadableStep(host: (u64, u64) -> bool, s: Space, ph: Phdr, elf: seq<u8>)
    requires Loadable(ph, elf)
    ensures LoadStep(host, s, ph, elf) ==
            if Accepts(host, PageBase(ph), MapSize(ph)) then Loaded(MapSegment(s, ph, elf)) else Refused(s)
  {
    hide Copied, MapSize, PageDown, Zeroed, RoundUp, Reprotected;
    PagesCover(ph, elf);
    ImageFits(s.mem, ph, elf);
  }

  /** The byte of the image at `k`: from the file inside the file part, zero elsewhere. */
  function ImageByte(ph: Phdr, elf: seq<u8>, k: int): u8
    requires Loadable(ph, elf)
  { if ph.vaddr <= k < ph.vaddr + ph.filesz then elf[ph.offset + k - ph.vaddr] else 0 }

  predicate InPages(ph: Phdr, k: int) { InRange(PageBase(ph), MapSize(ph), k) }

  lemma ZeroedBytes(mem: Mem, a: int, n: nat, k: int)
    ensures var m := Zeroed(mem, a, n);
            if InRange(a, n, k) then k in m && m[k] == 0 else (k in m <==> k in mem) && (k in m ==> m[k] == mem[k])
  {}

  lemma WrittenByte(m: Mem, a: int, s: seq<u8>, k: int)
    ensures var m' := WriteBytes(m, a, s);
            (k in m' <==> k in m) && (k in m ==> m'[k] == if a <= k < a + |s| then s[k - a] else m[k])
  {}

  lemma CopiedBytes(m1: Mem, ph: Phdr, elf: seq<u8>, k: int)
    requires Loadable(ph, elf) && Copied(m1, ph, elf).Filled?
    ensures var m := Copied(m1, ph, elf).mem;
            && (k in m <==> k in m1)
            && (k in m && InSegment(ph, k) ==> m[k] == ImageByte(ph, elf, k))
            && (k in m && PageBase(ph) <= k < ph.vaddr ==> m[k] == 0)
            && (k in m && !(PageBase(ph) <= k < ph.vaddr + ph.memsz) ==> m[k] == m1[k])
  {
    hide WriteBytes, Mapped;
    var f := FileBytes(ph, elf);
    var z1, z2 := Zeros(BssSize(ph)), Zeros(ph.vaddr % PAGE);
    var m2 := WriteBytes(m1, ph.vaddr, f);
    var m3 := WriteBytes(m2, BssStart(ph), z1);
    WrittenByte(m1, ph.vaddr, f, k);
    WrittenByte(m2, ph.vaddr + ph.filesz, z1, k);
    WrittenByte(m3, PageBase(ph), z2, k);
    assert ph.vaddr <= k < ph.vaddr + ph.filesz ==> f[k - ph.vaddr] == elf[ph.offset + k - ph.vaddr];
    assert PageBase(ph) + |z2| == ph.vaddr;
    hide PageDown;
  }

  predicate InSegment(ph: Phdr, k: int) { ph.vaddr <= k < ph.vaddr + ph.memsz }

  lemma FilledBytes(mem: Mem, ph: Phdr, elf: seq<u8>, k: int)
    requires Loadable(ph, elf)
    ensures var m := Image(mem, ph, elf);
            if InPages(ph, k) then k in m && m[k] == ImageByte(ph, elf, k)
            else (k in m <==> k in mem) && (k in m ==> m[k] == mem[k])
  {
    hide MapSize, PageDown, Zeroed, Copied;
    PagesCover(ph, elf);
    ImageFits(mem, ph, elf);
    ZeroedBytes(mem, PageBase(ph), MapSize(ph), k);
    CopiedBytes(Zeroed(mem, PageBase(ph), MapSize(ph)), ph, elf, k);
  }

  // ----- the loop -----

  /** `load_segments`: stops at the first segment the host refuses. */
  function LoadAll(host: (u64, u64) -> bool, s: Space, phs: seq<Phdr>, elf: seq<u8>): LoadResult
    decreases |phs|
  {
    if |phs| == 0 then Loaded(s)
    else if phs[0].kind != PT_LOAD then LoadAll(host, s, phs[1..], elf)
    else
      match LoadStep(host, s, phs[0], elf)
      case Loaded(s1) => LoadAll(host, s1, phs[1..], elf)
      case Refused(s1) => Refused(s1)
      case Crashed => Crashed
  }

  datatype Status = Done | Failed | Fatal

  /** What a caller sees: a fault leaves nobody to see the space. */
  function Seen(status: Status, s: Space): LoadResult
  { match status case Done => Loaded(s) case Failed => Refused(s) case Fatal => Crashed }

  /** `ELFLoader::load_segments`; `elfData` holds the bytes that can be read from the mapped file on. */
  method LoadSegments(mem: MemoryManager, phdrs: seq<Phdr>, elfData: seq<u8>) returns (status: Status)
    modifies mem
    ensures Seen(status, mem.State()) == LoadAll(mem.host, old(mem.State()), phdrs, elfData)
  {
    hide LoadStep;
    var i := 0;
    while i < |phdrs|
      invariant i <= |phdrs|
      invariant LoadAll(mem.host, mem.State(), phdrs[i..], elfData) == LoadAll(mem.host, old(mem.State()), phdrs, elfData)
    {
      assert phdrs[i..][0] == phdrs[i] && phdrs[i..][1..] == phdrs[i + 1..];
      var ph := phdrs[i];
      i := i + 1;
      if ph.kind != PT_LOAD { continue; }
      var one := LoadOne(mem, ph, elfData);
      if !one.Done? { return one; }
    }
    return Done;
  }

  /** The body of the loop for one PT_LOAD header. */
  method LoadOne(mem: MemoryManager, ph: Phdr, elfData: seq<u8>) returns (status: Status)
    modifies mem
    ensures Seen(status, mem.State()) == LoadStep(mem.host, old(mem.State()), ph, elfData)
  {
    hide Zeroed, Reprotected, RoundUp, Accepts, ProtOf, MapSize, Copied, PageDown, MapAt;
    var prot := ProtOf(ph.flags);
    var loadProt := prot.(write := true);
    var mapped := mem.Mmap(MapSize(ph), loadProt, PageBase(ph));
    if mapped == 0 { return Failed; }
    var copied := CopySegment(mem, ph, elfData);
    if !copied { return Fatal; }
    if prot != loadProt { mem.Mprotect(PageBase(ph), prot); }
    return Done;
  }

  /** The copying, with false for a fault. */
  method CopySegment(mem: MemoryManager, ph: Phdr, elfData: seq<u8>) returns (ok: bool)
    modifies mem`mem
    ensures match Copied(old(mem.mem), ph, elfData) case Fault => !ok case Filled(m) => ok && mem.mem == m
  {
    hide Stored, PageDown;
    ghost var m1 := mem.mem;
    EmptyStore(m1, ph.vaddr);
    ok := true;
    if ph.filesz > 0 {
      if ph.offset + ph.filesz > |elfData| { return false; }
      ok := Write(mem, ph.vaddr, elfData[ph.offset..ph.offset + ph.filesz]);
    }
    ghost var m2 := mem.mem;
    assert match Stored(m1, ph.vaddr, FileBytes(ph, elfData)) case Fault => !ok case Filled(m) => ok && m2 == m;
    EmptyStore(m2, BssStart(ph));
    if ok && ph.memsz > ph.filesz { ok := Write(mem, U64(ph.vaddr + ph.filesz), Zeros(ph.memsz - ph.filesz)); }
    EmptyStore(mem.mem, PageBase(ph));
    if ok && ph.vaddr % PAGE > 0 { ok := Write(mem, PageBase(ph), Zeros(ph.vaddr % PAGE)); }
  }

  lemma EmptyStore(m: Mem, a: int)
    ensures Stored(m, a, []) == Filled(m) && Zeros(0) == []
  {}

  /** `memcpy` and `memset` into guest memory. */
  method Write(mem: MemoryManager, a: int, s: seq<u8>) returns (ok: bool)
    modifies mem`mem
    ensures match Stored(old(mem.mem), a, s) case Fault => !ok case Filled(m) => ok && mem.mem == m
  {
    if !(forall k :: a <= k < a + |s| ==> k in mem.mem) { return false; }
    mem.mem := WriteBytes(mem.mem, a, s);
    return true;
  }

  // ----- the image -----

  predicate Apart(a: int, n: int, b: int, m: int) { a + n <= b || b + m <= a }

  /** No page belongs to two segments. */
  predicate PageDisjoint(phs: seq<Phdr>)
  {
    forall i, j :: 0 <= i < j < |phs| && phs[i].kind == PT_LOAD && phs[j].kind == PT_LOAD ==>
      Apart(PageBase(phs[i]), MapSize(phs[i]), PageBase(phs[j]), MapSize(phs[j]))
  }

  /** The region `r` is an ordinary range and shares no byte with the pages of `ph`. */
  predicate Clear(r: MemRegion, ph: Phdr)
  { r.size > 0 && r.addr + r.size < TWO_64 && Apart(r.addr, r.size, PageBase(ph), MapSize(ph)) }

  predicate AllClear(regions: seq<MemRegion>, phs: seq<Phdr>)
  { forall r, ph :: r in regions && ph in phs && ph.kind == PT_LOAD ==> Clear(r, ph) }

  /** The regions of the segments, in order. */
  function SegmentRegions(phs: seq<Phdr>): seq<MemRegion>
  {
    if |phs| == 0 then []
    else if phs[0].kind != PT_LOAD then SegmentRegions(phs[1..])
    else [RegionOf(phs[0])] + SegmentRegions(phs[1..])
  }

  function RegionOf(ph: Phdr): MemRegion { MemRegion(PageBase(ph), MapSize(ph), ProtOf(ph.flags)) }

  lemma {:induction false} ReprotectLast(regions: seq<MemRegion>, r: MemRegion, prot: Prot)
    requires forall q :: q in regions ==> q.addr != r.addr
    ensures Reprotected(regions + [r], r.addr, prot) == regions + [r.(perms := prot)]
    decreases |regions|
  {
    var all := regions + [r];
    if |regions| == 0 {
      assert all == [r] && all[1..] == [];
    } else {
      assert regions[0] in regions;
      ReprotectLast(regions[1..], r, prot);
      assert all[1..] == regions[1..] + [r];
    }
  }

  /** One segment adds exactly its own region. */
  lemma SegmentRegion(s: Space, ph: Phdr, elf: seq<u8>)
    requires Loadable(ph, elf) && MapSize(ph) > 0
    requires forall r :: r in s.regions ==> Clear(r, ph)
    ensures MapSegment(s, ph, elf).regions == s.regions + [RegionOf(ph)]
  {
    hide PageDown, RoundUp, Image;
    var prot := ProtOf(ph.flags);
    var r := MemRegion(PageBase(ph), MapSize(ph), prot.(write := true));
    forall q | q in s.regions ensures q.addr != r.addr { assert Clear(q, ph); }
    ReprotectLast(s.regions, r, prot);
  }

  /** Segment `i` is the last one whose pages hold address `k`. */
  predicate LastHolder(phs: seq<Phdr>, i: int, k: int)
  { 0 <= i < |phs| && Holds(phs[i], k) && forall j :: i < j < |phs| ==> !Holds(phs[j], k) }

  predicate Holds(ph: Phdr, k: int) { ph.kind == 1 && InPages(ph, k) }

  predicate Untouched(phs: seq<Phdr>, k: int) { forall i :: 0 <= i < |phs| ==> !Holds(phs[i], k) }

  /** The byte at `k` is that of the last segment whose pages hold it, or the one that was there. */
  ghost predicate Pictured(m: Mem, m': Mem, phs: seq<Phdr>, elf: seq<u8>)
    requires forall ph :: ph in phs && ph.kind == PT_LOAD ==> Loadable(ph, elf)
  {
    && (forall i, k :: LastHolder(phs, i, k) ==> k in m' && m'[k] == ImageByte(phs[i], elf, k))
    && (forall k :: Untouched(phs, k) ==> (k in m' <==> k in m) && (k in m ==> m'[k] == m[k]))
  }

  /** Loader image: for any number of well-formed segments, also ones that share pages, every byte of their
      pages is what the last segment that maps its page says: its file byte inside its file part, zero
      elsewhere, even where an earlier segment had put a file byte. Everything else is untouched. */
  lemma {:induction false} ImageLoaded(host: (u64, u64) -> bool, s: Space, phs: seq<Phdr>, elf: seq<u8>)
    requires forall ph :: ph in phs && ph.kind == PT_LOAD ==> Loadable(ph, elf)
    requires LoadAll(host, s, phs, elf).Loaded?
    ensures Pictured(s.mem, LoadAll(host, s, phs, elf).space.mem, phs, elf)
    decreases |phs|
  {
    hide Loadable, MapSegment, LoadStep, Accepts, Pictured;
    if |phs| == 0 {
      EmptyPictured(s.mem, elf);
    } else {
      var ph, rest := phs[0], phs[1..];
      assert ph in phs && phs == [ph] + rest;
      if ph.kind != PT_LOAD {
        ImageLoaded(host, s, rest, elf);
        SkippedPictured(s.mem, LoadAll(host, s, rest, elf).space.mem, phs, elf);
      } else {
        LoadableStep(host, s, ph, elf);
        var s1 := MapSegment(s, ph, elf);
        ImageLoaded(host, s1, rest, elf);
        SegmentMemory(s, ph, elf);
        MorePictured(s.mem, LoadAll(host, s1, rest, elf).space.mem, phs, elf);
      }
    }
  }

  lemma SegmentMemory(s: Space, ph: Phdr, elf: seq<u8>)
    requires Loadable(ph, elf)
    ensures MapSegment(s, ph, elf).mem == Image(s.mem, ph, elf)
  {}

  lemma EmptyPictured(m: Mem, elf: seq<u8>)
    ensures Pictured(m, m, [], elf)
  {}

  /** Where a list goes on, holders and untouched addresses move by one. */
  lemma HolderShift(phs: seq<Phdr>, k: int)
    requires |phs| > 0
    ensures forall i :: i > 0 ==> (LastHolder(phs, i, k) <==> LastHolder(phs[1..], i - 1, k))
    ensures LastHolder(phs, 0, k) <==> Holds(phs[0], k) && Untouched(phs[1..], k)
    ensures Untouched(phs, k) <==> !Holds(phs[0], k) && Untouched(phs[1..], k)
  {
    hide Holds;
    var rest := phs[1..];
    assert forall j :: 0 <= j < |rest| ==> rest[j] == phs[j + 1];
    assert forall j :: 0 < j < |phs| ==> phs[j] == rest[j - 1];
  }

  lemma SkippedPictured(m: Mem, m': Mem, phs: seq<Phdr>, elf: seq<u8>)
    requires |phs| > 0 && phs[0].kind != PT_LOAD
    requires forall ph :: ph in phs && ph.kind == PT_LOAD ==> Loadable(ph, elf)
    requires Pictured(m, m', phs[1..], elf)
    ensures Pictured(m, m', phs, elf)
  {
    hide Loadable, InPages, ImageByte, LastHolder, Untouched;
    forall i, k { HolderInside(phs, i, k); }
    forall i, k | 0 <= i < |phs| && Holds(phs[i], k) && LastHolder(phs, i, k)
      ensures k in m' && m'[k] == ImageByte(phs[i], elf, k)
    {
      HolderShift(phs, k);
      if i > 0 { assert LastHolder(phs[1..], i - 1, k) && phs[1..][i - 1] == phs[i]; }
    }
    forall k | Untouched(phs, k) ensures Untouched(phs[1..], k) { HolderShift(phs, k); }
  }

  lemma HolderInside(phs: seq<Phdr>, i: int, k: int)
    ensures LastHolder(phs, i, k) ==> 0 <= i < |phs| && Holds(phs[i], k)
  {}

  lemma MorePictured(m: Mem, m2: Mem, phs: seq<Phdr>, elf: seq<u8>)
    requires |phs| > 0 && phs[0].kind == PT_LOAD
    requires forall ph :: ph in phs && ph.kind == PT_LOAD ==> Loadable(ph, elf)
    requires Pictured(Image(m, phs[0], elf), m2, phs[1..], elf)
    ensures Pictured(m, m2, phs, elf)
  {
    hide Loadable, ImageByte, Image, InPages, LastHolder, Untouched;
    var ph, rest := phs[0], phs[1..];
    var m1 := Image(m, ph, elf);
    forall k ensures if InPages(ph, k) then k in m1 && m1[k] == ImageByte(ph, elf, k)
                     else (k in m1 <==> k in m) && (k in m1 ==> m1[k] == m[k])
    { FilledBytes(m, ph, elf, k); }
    forall i, k { HolderInside(phs, i, k); }
    forall i, k | 0 <= i < |phs| && Holds(phs[i], k) && LastHolder(phs, i, k)
      ensures k in m2 && m2[k] == ImageByte(phs[i], elf, k)
    {
      HolderShift(phs, k);
      if i > 0 { assert LastHolder(rest, i - 1, k) && rest[i - 1] == phs[i]; } else { assert Untouched(rest, k); }
    }
    forall k | Untouched(phs, k) ensures (k in m2 <==> k in m) && (k in m ==> m2[k] == m[k]) {
      HolderShift(phs, k);
      assert Untouched(rest, k) && !InPages(ph, k);
    }
  }

  /** The table gets exactly one region per segment, with the segment's own permissions, when no page belongs
      to two of them. */
  lemma {:induction false} RegionsLoaded(host: (u64, u64) -> bool, s: Space, phs: seq<Phdr>, elf: seq<u8>)
    requires forall ph :: ph in phs && ph.kind == PT_LOAD ==> Loadable(ph, elf)
    requires PageDisjoint(phs) && AllClear(s.regions, phs) && LoadAll(host, s, phs, elf).Loaded?
    ensures LoadAll(host, s, phs, elf).space.regions == s.regions + SegmentRegions(phs)
    decreases |phs|
  {
    hide Loadable, MapSegment, LoadStep, PageDown, RoundUp;
    if |phs| > 0 {
      var ph, rest := phs[0], phs[1..];
      assert ph in phs && phs == [ph] + rest;
      assert PageDisjoint(rest);
      if ph.kind != PT_LOAD {
        RegionsLoaded(host, s, rest, elf);
      } else {
        LoadableStep(host, s, ph, elf);
        var s1 := MapSegment(s, ph, elf);
        assert forall r :: r in s.regions ==> Clear(r, ph);
        SegmentRegion(s, ph, elf);
        NextClear(s.regions, phs);
        RegionsLoaded(host, s1, rest, elf);
        assert s.regions + [RegionOf(ph)] + SegmentRegions(rest) == s.regions + ([RegionOf(ph)] + SegmentRegions(rest));
      }
    }
  }

  lemma NextClear(regions: seq<MemRegion>, phs: seq<Phdr>)
    requires |phs| > 0 && phs[0].kind == PT_LOAD && MapSize(phs[0]) > 0 && PageBase(phs[0]) + MapSize(phs[0]) < TWO_64
    requires PageDisjoint(phs) && AllClear(regions, phs)
    ensures AllClear(regions + [RegionOf(phs[0])], phs[1..])
  {
    hide PageDown, RoundUp;
    forall r, ph | r in regions + [RegionOf(phs[0])] && ph in phs[1..] && ph.kind == PT_LOAD ensures Clear(r, ph) {
      var j :| 0 <= j < |phs[1..]| && phs[1..][j] == ph;
      assert phs[j + 1] == ph;
    }
  }

  // ----- permissions -----

  /** PF_R is 4, PF_W 2 and PF_X 1, whatever the bits above. */
  lemma ProtMeans(r: bool, w: bool, x: bool, high: nat)
    requires high < 0x2000_0000
    ensures ProtOf(8 * high + (if r then 4 else 0) + (if w then 2 else 0) + if x then 1 else 0) == Prot(r, w, x)
  {
    var p, q, s := if r then 1 else 0, if w then 1 else 0, if x then 1 else 0;
    var flags := 8 * high + 4 * p + 2 * q + s;
    DivUnique(flags, 4, 2 * high + p, 2 * q + s);
    DivUnique(flags, 2, 4 * high + 2 * p + q, s);
    DivUnique(2 * high + p, 2, high, p);
    DivUnique(4 * high + 2 * p + q, 2, 2 * high + p, q);
  }

  lemma {:induction false} FirstMatch(regions: seq<MemRegion>, r: MemRegion, a: u64, n: nat, needed: Access)
    requires r in regions && Contains(r, a, n)
    requires forall q :: q in regions && Contains(q, a, n) ==> q.perms == r.perms
    ensures CheckPerms(regions, a, n, needed) == Grants(r.perms, needed)
    decreases |regions|
  {
    hide Contains;
    if !Contains(regions[0], a, n) {
      assert r in regions[1..];
      FirstMatch(regions[1..], r, a, n, needed);
    } else {
      assert regions[0] in regions;
    }
  }

  lemma {:induction false} SegmentRegionsAre(phs: seq<Phdr>, r: MemRegion)
    ensures r in SegmentRegions(phs) <==> exists ph :: ph in phs && ph.kind == PT_LOAD && r == RegionOf(ph)
    decreases |phs|
  {
    hide RegionOf;
    if |phs| > 0 {
      SegmentRegionsAre(phs[1..], r);
      assert phs == [phs[0]] + phs[1..];
      if phs[0].kind == PT_LOAD && r == RegionOf(phs[0]) { assert phs[0] in phs; }
    }
  }

  /** A region other than the segment's own does not hold an access inside the segment's pages. */
  lemma NoOther(r: MemRegion, ph: Phdr, a: u64, n: nat)
    requires Clear(r, ph) && n > 0 && PageBase(ph) <= a && a + n <= PageBase(ph) + MapSize(ph) < TWO_64
    ensures !Contains(r, a, n)
  { hide PageDown, RoundUp; }

  /** After loading, every access inside the pages of a segment is answered by the segment's p_flags:
      readable if PF_R or PF_X, writable if PF_W. */
  lemma PermissionsByFlags(host: (u64, u64) -> bool, s: Space, phs: seq<Phdr>, elf: seq<u8>, ph: Phdr, a: u64, n: nat, needed: Access)
    requires forall q :: q in phs && q.kind == PT_LOAD ==> Loadable(q, elf)
    requires PageDisjoint(phs) && AllClear(s.regions, phs) && LoadAll(host, s, phs, elf).Loaded?
    requires ph in phs && ph.kind == PT_LOAD
    requires n > 0 && PageBase(ph) <= a && a + n <= PageBase(ph) + MapSize(ph) < TWO_64
    ensures CheckPerms(LoadAll(host, s, phs, elf).space.regions, a, n, needed) ==
            (if needed.ReadAccess? then ph.flags / 4 % 2 == 1 || ph.flags % 2 == 1 else ph.flags / 2 % 2 == 1)
  {
    hide Loadable, LoadAll, PageDown, RoundUp, CheckPerms;
    RegionsLoaded(host, s, phs, elf);
    var regions := LoadAll(host, s, phs, elf).space.regions;
    assert regions == s.regions + SegmentRegions(phs);
    SegmentRegionsAre(phs, RegionOf(ph));
    forall q | q in regions && Contains(q, a, n) ensures q.perms == ProtOf(ph.flags) {
      if q in s.regions { NoOther(q, ph, a, n); }
      SegmentRegionsAre(phs, q);
      var other :| other in phs && other.kind == PT_LOAD && q == RegionOf(other);
      SameSegment(phs, other, ph, a, n);
    }
    FirstMatch(regions, RegionOf(ph), a, n, needed);
  }

  lemma SameSegment(phs: seq<Phdr>, other: Phdr, ph: Phdr, a: u64, n: nat)
    requires PageDisjoint(phs) && other in phs && ph in phs && other.kind == PT_LOAD && ph.kind == PT_LOAD
    requires n > 0 && PageBase(ph) <= a && a + n <= PageBase(ph) + MapSize(ph) < TWO_64
    requires Contains(RegionOf(other), a, n)
    ensures other == ph
  {
    hide PageDown, RoundUp;
    var i :| 0 <= i < |phs| && phs[i] == other;
    var j :| 0 <= j < |phs| && phs[j] == ph;
  }

  /** The search order over any table, overlapping regions included: the first region that holds the whole access
      decides, and an access that none holds is refused. */
  lemma {:induction false} FirstDecides(regions: seq<MemRegion>, i: nat, a: u64, n: nat, needed: Access)
    requires i <= |regions| && forall j :: 0 <= j < i ==> !Contains(regions[j], a, n)
    requires i < |regions| ==> Contains(regions[i], a, n)
    ensures CheckPerms(regions, a, n, needed) <==>
            i < |regions| && (needed == WriteAccess ==> regions[i].perms.write)
            && (needed == ReadAccess ==> regions[i].perms.read || regions[i].perms.exec)
    decreases i
  {
    hide Contains;
    if i > 0 { FirstDecides(regions[1..], i - 1, a, n, needed); }
  }

  /** An access lies in a region that does not reach the end of the address space when all its bytes do, or when
      it runs around the end of the address space and stops in front of the region's end. */
  lemma ContainsMeans(r: MemRegion, a: u64, n: nat)
    requires r.addr + r.size < TWO_64 && n <= TWO_64
    ensures Contains(r, a, n) <==>
            r.addr <= a && (a + n <= r.addr + r.size || TWO_64 <= a + n <= TWO_64 + r.addr + r.size)
  {}

  /** `mprotect` changes the first region that starts at the address, and no other. */
  lemma {:induction false} FirstReprotected(regions: seq<MemRegion>, i: nat, addr: u64, prot: Prot)
    requires i <= |regions| && forall j :: 0 <= j < i ==> regions[j].addr != addr
    requires i < |regions| ==> regions[i].addr == addr
    ensures Reprotected(regions, addr, prot) ==
            if i < |regions| then regions[i := regions[i].(perms := prot)] else regions
    decreases i
  {
    if i > 0 {
      FirstReprotected(regions[1..], i - 1, addr, prot);
      assert regions == [regions[0]] + regions[1..];
    }
  }

  // ----- mappings without a hint -----

  datatype MapCall = MapCall(size: u64, prot: Prot, hint: u64)

  /** The space after a sequence of mappings. */
  function MapAll(host: (u64, u64) -> bool, s: Space, calls: seq<MapCall>): Space
    decreases |calls|
  {
    if |calls| == 0 then s
    else
      var c := calls[|calls| - 1];
      MapAt(host, MapAll(host, s, calls[..|calls| - 1]), c.size, c.prot, c.hint).space
  }

  /** The bytes asked for without a hint. */
  function Unhinted(calls: seq<MapCall>): nat
    decreases |calls|
  {
    if |calls| == 0 then 0
    else Unhinted(calls[..|calls| - 1]) + if calls[|calls| - 1].hint == 0 then RoundUp(calls[|calls| - 1].size) else 0
  }

  lemma {:induction false} NextMoves(host: (u64, u64) -> bool, s: Space, calls: seq<MapCall>)
    requires s.next + Unhinted(calls) < TWO_64
    ensures MapAll(host, s, calls).next == s.next + Unhinted(calls)
    decreases |calls|
  {
    hide RoundUp, Accepts, Zeroed;
    if |calls| > 0 { NextMoves(host, s, calls[..|calls| - 1]); }
  }

  lemma {:induction false} UnhintedPrefix(calls: seq<MapCall>, i: nat)
    requires i <= |calls|
    ensures Unhinted(calls[..i]) <= Unhinted(calls)
    ensures i < |calls| && calls[i].hint == 0 ==> Unhinted(calls[..i]) + RoundUp(calls[i].size) <= Unhinted(calls)
    decreases |calls|
  {
    hide RoundUp;
    if i < |calls| {
      var front := calls[..|calls| - 1];
      UnhintedPrefix(front, if i < |front| then i else |front|);
      if i < |front| { assert front[..i] == calls[..i] && front[i] == calls[i]; } else { assert calls[..i] == front; }
    } else {
      assert calls[..i] == calls;
    }
  }

  /** Where the mapping number `i` goes. */
  function PlacedAt(host: (u64, u64) -> bool, s: Space, calls: seq<MapCall>, i: nat): u64
    requires i < |calls|
  { MapAt(host, MapAll(host, s, calls[..i]), calls[i].size, calls[i].prot, calls[i].hint).addr }

  /** Mappings without a hint that succeed never overlap, as long as the addresses handed out do not reach the end
      of the address space. */
  lemma FreshRanges(host: (u64, u64) -> bool, s: Space, calls: seq<MapCall>, i: nat, j: nat)
    requires i < j < |calls| && calls[i].hint == 0 && calls[j].hint == 0 && s.next + Unhinted(calls) < TWO_64
    requires PlacedAt(host, s, calls, i) != 0 && PlacedAt(host, s, calls, j) != 0
    ensures PlacedAt(host, s, calls, i) + RoundUp(calls[i].size) <= PlacedAt(host, s, calls, j)
  {
    hide RoundUp, Accepts, Zeroed;
    UnhintedPrefix(calls, i);
    UnhintedPrefix(calls, j);
    UnhintedPrefix(calls[..j], i);
    assert calls[..j][..i] == calls[..i] && calls[..j][i] == calls[i];
    NextMoves(host, s, calls[..i]);
    NextMoves(host, s, calls[..j]);
  }

  // ----- pages -----

  /** `RoundUp` gives the least number of whole pages that hold `n` bytes. */
  lemma RoundUpLeast(n: nat, k: nat)
    requires n + 4096 <= TWO_64
    ensures RoundUp(n) % 4096 == 0 && n <= RoundUp(n)
    ensures k % 4096 == 0 && n <= k ==> RoundUp(n) <= k
  {}

  /** The pages of a segment are the least range of whole pages that holds it. */
  lemma PagesLeast(ph: Phdr, elf: seq<u8>, a: nat, n: nat)
    requires Loadable(ph, elf) && a % 4096 == 0 && n % 4096 == 0 && a <= ph.vaddr && ph.vaddr + ph.memsz <= a + n
    ensures a <= PageBase(ph) && PageBase(ph) + MapSize(ph) <= a + n
    ensures PageBase(ph) % 4096 == 0 && PageBase(ph) <= ph.vaddr < PageBase(ph) + 4096
  {
    Alignment(ph.vaddr, a);
    PageSplit(ph);
    hide RoundUp, PageDown, PageBase, MapSize;
    var base: int := PageBase(ph);
    var room: nat := a + n - base;
    assert room % 4096 == 0;
    RoundUpLeast(ph.vaddr % 4096 + ph.memsz, room);
  }

  lemma PageSplit(ph: Phdr)
    ensures PageBase(ph) == ph.vaddr - ph.vaddr % 4096 && MapSize(ph) == RoundUp(ph.vaddr % 4096 + ph.memsz)
  { hide RoundUp; }

  lemma Alignment(v: nat, a: nat)
    requires a % 4096 == 0 && a <= v
    ensures a <= v - v % 4096 && (v - v % 4096) % 4096 == 0
    ensures forall n: nat :: n % 4096 == 0 && a + n >= v - v % 4096 ==> (a + n - (v - v % 4096)) % 4096 == 0
  {}
}
