/** The translation cache (src/cache/translation_cache.cpp): lookup, insertion, invalidation, LRU
    eviction, hot promotion and the bump-allocated code pool. */
module Cache {
  import opened Words

  const HOT_THRESHOLD: nat := 100
  const POOL_SIZE: nat := 0x400_0000
  const UINT64_MAX: int := TWO_64 - 1

  /** `hostCode` is an offset into the pool. */
  datatype BlockInfo = BlockInfo(
    armPc: u64, hostCode: nat, hostCodeSize: nat, armInstrCount: nat,
    hitCount: nat, lastAccess: nat, isValid: bool, isHot: bool)

  datatype CacheState = CacheState(blocks: map<u64, BlockInfo>, used: nat, counter: nat, capacity: nat)

  datatype Option<T> = None | Some(value: T)

  // ----- the operations on values -----

  predicate Hit(c: CacheState, pc: u64) { pc in c.blocks && c.blocks[pc].isValid }

  function Touched(b: BlockInfo, now: nat): BlockInfo
  { b.(hitCount := b.hitCount + 1, lastAccess := now, isHot := b.isHot || b.hitCount + 1 >= HOT_THRESHOLD) }

  function AfterLookup(c: CacheState, pc: u64): CacheState
  {
    if Hit(c, pc) then c.(blocks := c.blocks[pc := Touched(c.blocks[pc], c.counter + 1)], counter := c.counter + 1)
    else c
  }

  function NewBlock(pc: u64, host: nat, size: nat, count: nat, now: nat): BlockInfo
  { BlockInfo(pc, host, size, count, 0, now, true, false) }

  /** What eviction may remove. */
  predicate Cold(b: BlockInfo) { b.isValid && !b.isHot }

  predicate Coldest(blocks: map<u64, BlockInfo>, k: u64)
  {
    k in blocks && Cold(blocks[k]) &&
    forall j :: j in blocks && Cold(blocks[j]) ==> blocks[k].lastAccess <= blocks[j].lastAccess
  }

  ghost function Evict(c: CacheState): CacheState
  {
    if exists k: u64 :: Coldest(c.blocks, k) then
      var k: u64 :| Coldest(c.blocks, k);
      c.(blocks := c.blocks - {k})
    else c
  }

  ghost function AfterInsert(c: CacheState, pc: u64, host: nat, size: nat, count: nat): CacheState
  {
    var c1 := if |c.blocks| >= c.capacity then Evict(c) else c;
    c1.(blocks := c1.blocks[pc := NewBlock(pc, host, size, count, c.counter + 1)], counter := c.counter + 1)
  }

  function AfterInvalidate(c: CacheState, pc: u64): CacheState
  { if pc in c.blocks then c.(blocks := c.blocks[pc := c.blocks[pc].(isValid := false)]) else c }

  function AfterInvalidateRange(c: CacheState, start: u64, end: u64): CacheState
  {
    c.(blocks := map k | k in c.blocks ::
         if start <= k < end then c.blocks[k].(isValid := false) else c.blocks[k])
  }

  function AfterPromote(c: CacheState, pc: u64): CacheState
  {
    if pc in c.blocks then c.(blocks := c.blocks[pc := c.blocks[pc].(isHot := true, hitCount := HOT_THRESHOLD)])
    else c
  }

  predicate PoolFits(c: CacheState, size: nat) { c.used + size <= POOL_SIZE }

  /** An exhausted pool still costs the coldest block its entry: eviction frees no pool space. */
  ghost function AfterAlloc(c: CacheState, size: nat): CacheState
  { if PoolFits(c, size) then c.(used := c.used + size) else Evict(c) }

  // ----- any sequence of calls -----

  datatype Op =
    | Lookup(pc: u64) | Insert(pc: u64, host: nat, size: nat, count: nat)
    | Invalidate(pc: u64) | InvalidateRange(start: u64, end: u64)
    | Alloc(bytes: nat) | Promote(pc: u64) | EvictCold

  ghost function Apply(c: CacheState, op: Op): CacheState
  {
    match op
    case Lookup(pc) => AfterLookup(c, pc)
    case Insert(pc, host, size, count) => AfterInsert(c, pc, host, size, count)
    case Invalidate(pc) => AfterInvalidate(c, pc)
    case InvalidateRange(start, end) => AfterInvalidateRange(c, start, end)
    case Alloc(bytes) => AfterAlloc(c, bytes)
    case Promote(pc) => AfterPromote(c, pc)
    case EvictCold => Evict(c)
  }

  function Fresh(capacity: nat): CacheState { CacheState(map[], 0, 0, capacity) }

  /** The state a fresh cache reaches with the calls `ops`. */
  ghost function After(capacity: nat, ops: seq<Op>): CacheState
  { if |ops| == 0 then Fresh(capacity) else Apply(After(capacity, ops[..|ops| - 1]), ops[|ops| - 1]) }

  // ----- eviction -----

  lemma {:induction false} ColdestAmong(blocks: map<u64, BlockInfo>, keys: set<u64>) returns (k: u64)
    requires keys <= blocks.Keys && keys != {} && forall j :: j in keys ==> Cold(blocks[j])
    ensures k in keys && forall j :: j in keys ==> blocks[k].lastAccess <= blocks[j].lastAccess
    decreases |keys|
  {
    k :| k in keys;
    var rest := keys - {k};
    if rest != {} {
      var r := ColdestAmong(blocks, rest);
      if blocks[r].lastAccess < blocks[k].lastAccess { k := r; }
    }
  }

  lemma ColdestExists(blocks: map<u64, BlockInfo>, j: u64) returns (k: u64)
    requires j in blocks && Cold(blocks[j])
    ensures Coldest(blocks, k)
  {
    var keys := set i | i in blocks && Cold(blocks[i]);
    assert j in keys;
    k := ColdestAmong(blocks, keys);
  }

  /** What `Evict` does, without the choice. */
  lemma EvictFacts(c: CacheState) returns (k: u64)
    ensures Coldest(c.blocks, k) || ((forall j :: j in c.blocks ==> !Cold(c.blocks[j])) && Evict(c) == c)
    ensures Coldest(c.blocks, k) ==> Evict(c) == c.(blocks := c.blocks - {k})
  {
    if exists j :: j in c.blocks && Cold(c.blocks[j]) {
      var j :| j in c.blocks && Cold(c.blocks[j]);
      var i := ColdestExists(c.blocks, j);
      k :| Coldest(c.blocks, k) && Evict(c) == c.(blocks := c.blocks - {k});
    } else {
      k := 0;
      assert forall i: u64 :: !Coldest(c.blocks, i);
    }
  }

  /** Eviction changes no entry it keeps. */
  lemma EvictKeeps(c: CacheState)
    ensures forall k :: k in Evict(c).blocks ==> k in c.blocks && Evict(c).blocks[k] == c.blocks[k]
    ensures Evict(c) == c.(blocks := Evict(c).blocks)
  { var e := EvictFacts(c); }

  // ----- recency: the stamps are positions in the history of uses -----

  /** The pcs used by the calls, in order: every insertion and every lookup that hits. */
  ghost function Uses(capacity: nat, ops: seq<Op>): seq<u64>
  {
    if |ops| == 0 then [] else
    var front, op := ops[..|ops| - 1], ops[|ops| - 1];
    var c := After(capacity, front);
    Uses(capacity, front) + (if op.Insert? || (op.Lookup? && Hit(c, op.pc)) then [op.pc] else [])
  }

  /** The counter is the length of the history and every stamp the place of the last use. */
  predicate Recency(c: CacheState, uses: seq<u64>)
  {
    |uses| == c.counter &&
    forall k :: k in c.blocks ==> LastUsed(uses, k, c.blocks[k].lastAccess)
  }

  predicate LastUsed(uses: seq<u64>, k: u64, n: nat)
  { 1 <= n <= |uses| && uses[n - 1] == k && forall i :: n <= i < |uses| ==> uses[i] != k }

  lemma LastUsedLater(uses: seq<u64>, k: u64, n: nat, pc: u64)
    requires LastUsed(uses, k, n) && pc != k
    ensures LastUsed(uses + [pc], k, n)
  {}

  /** A use puts one entry at the end and keeps or drops the others. */
  lemma RecencyUse(c: CacheState, uses: seq<u64>, c': CacheState, pc: u64)
    requires Recency(c, uses) && c'.counter == c.counter + 1
    requires pc in c'.blocks && c'.blocks[pc].lastAccess == c'.counter
    requires forall k :: k in c'.blocks && k != pc ==> k in c.blocks && c'.blocks[k].lastAccess == c.blocks[k].lastAccess
    ensures Recency(c', uses + [pc])
  {
    forall k | k in c'.blocks ensures LastUsed(uses + [pc], k, c'.blocks[k].lastAccess) {
      if k != pc { LastUsedLater(uses, k, c.blocks[k].lastAccess, pc); }
    }
  }

  lemma RecencyStep(c: CacheState, uses: seq<u64>, op: Op)
    requires Recency(c, uses)
    ensures Recency(Apply(c, op), uses + (if op.Insert? || (op.Lookup? && Hit(c, op.pc)) then [op.pc] else []))
  {
    hide LastUsed, Evict;
    EvictKeeps(c);
    if op.Insert? || (op.Lookup? && Hit(c, op.pc)) {
      RecencyUse(c, uses, Apply(c, op), op.pc);
    } else {
      assert uses + [] == uses;
    }
  }

  lemma {:induction false} RecencyHolds(capacity: nat, ops: seq<Op>)
    ensures Recency(After(capacity, ops), Uses(capacity, ops))
    decreases |ops|
  {
    hide Apply;
    if |ops| > 0 {
      var front, op := ops[..|ops| - 1], ops[|ops| - 1];
      RecencyHolds(capacity, front);
      RecencyStep(After(capacity, front), Uses(capacity, front), op);
    }
  }

  /** Stamps are pairwise distinct and never exceed the counter. */
  predicate Stamped(c: CacheState)
  {
    && (forall k :: k in c.blocks ==> 1 <= c.blocks[k].lastAccess <= c.counter)
    && (forall j, k :: j in c.blocks && k in c.blocks && j != k ==> c.blocks[j].lastAccess != c.blocks[k].lastAccess)
  }

  lemma StampsDistinct(capacity: nat, ops: seq<Op>)
    ensures Stamped(After(capacity, ops))
  { RecencyHolds(capacity, ops); }

  /** Eviction, allocation, lookup and insertion keep the stamps apart. */
  lemma StampedAlloc(c: CacheState, size: nat)
    requires Stamped(c)
    ensures Stamped(AfterAlloc(c, size)) && AfterAlloc(c, size).counter == c.counter
  {
    EvictKeeps(c);
    hide Evict;
  }

  lemma StampedLookup(c: CacheState, pc: u64)
    requires Stamped(c)
    ensures Stamped(AfterLookup(c, pc)) && AfterLookup(c, pc).counter <= c.counter + 1 && AfterLookup(c, pc).used == c.used
  {}

  lemma StampedInsert(c: CacheState, pc: u64, host: nat, size: nat, count: nat)
    requires Stamped(c)
    ensures var c' := AfterInsert(c, pc, host, size, count);
            Stamped(c') && c'.counter == c.counter + 1 && c'.used == c.used
  {
    EvictKeeps(c);
    hide Evict;
  }

  /** The place of the last use of `k` in a history, from 1; 0 when there is none. */
  function LastUse(uses: seq<u64>, k: u64): nat
  { if |uses| == 0 then 0 else if uses[|uses| - 1] == k then |uses| else LastUse(uses[..|uses| - 1], k) }

  lemma {:induction false} LastUseIs(uses: seq<u64>, k: u64, n: nat)
    requires LastUsed(uses, k, n)
    ensures LastUse(uses, k) == n
    decreases |uses|
  { if uses[|uses| - 1] != k { LastUseIs(uses[..|uses| - 1], k, n); } }

  /** True LRU: eviction removes exactly the valid, non-hot block whose last insertion or hit is the
      oldest in the history of calls; every other entry, and everything else, stays. */
  lemma EvictsLeastRecent(capacity: nat, ops: seq<Op>)
    ensures var c := After(capacity, ops); var uses := Uses(capacity, ops); var c' := Evict(c);
            && (forall k :: k in c.blocks ==>
                 (k !in c'.blocks <==>
                   && c.blocks[k].isValid && !c.blocks[k].isHot
                   && forall j :: j in c.blocks && c.blocks[j].isValid && !c.blocks[j].isHot ==>
                        LastUse(uses, k) <= LastUse(uses, j)))
            && (forall k :: k in c'.blocks ==> k in c.blocks && c'.blocks[k] == c.blocks[k])
            && c' == c.(blocks := c'.blocks)
  {
    var c, uses := After(capacity, ops), Uses(capacity, ops);
    RecencyHolds(capacity, ops);
    forall k | k in c.blocks ensures LastUse(uses, k) == c.blocks[k].lastAccess { LastUseIs(uses, k, c.blocks[k].lastAccess); }
    StampsDistinct(capacity, ops);
    hide After, Uses, LastUse, Recency;
    var e := EvictFacts(c);
  }

  // ----- hotness -----

  predicate HotAtHundred(c: CacheState)
  { forall k :: k in c.blocks ==> (c.blocks[k].isHot <==> c.blocks[k].hitCount >= HOT_THRESHOLD) }

  lemma HotStep(c: CacheState, op: Op)
    requires HotAtHundred(c)
    ensures HotAtHundred(Apply(c, op))
  { EvictKeeps(c); }

  /** In every reachable state a block is hot exactly when it has 100 hits. */
  lemma {:induction false} HotMeansHundredHits(capacity: nat, ops: seq<Op>)
    ensures HotAtHundred(After(capacity, ops))
    decreases |ops|
  {
    hide Apply, HotAtHundred;
    if |ops| > 0 {
      HotMeansHundredHits(capacity, ops[..|ops| - 1]);
      HotStep(After(capacity, ops[..|ops| - 1]), ops[|ops| - 1]);
    } else {
      FreshHot(capacity);
    }
  }

  lemma FreshHot(capacity: nat)
    ensures HotAtHundred(Fresh(capacity))
  {}

  /** The hits of `pc` since its last insertion, in the history of calls; a promotion counts for a hundred. */
  ghost function Hits(capacity: nat, ops: seq<Op>, pc: u64): nat
  {
    if |ops| == 0 then 0 else
    var front, op := ops[..|ops| - 1], ops[|ops| - 1];
    var c := After(capacity, front);
    if op.Insert? && op.pc == pc then 0
    else if op == Lookup(pc) && Hit(c, pc) then Hits(capacity, front, pc) + 1
    else if op == Promote(pc) && pc in c.blocks then 100
    else Hits(capacity, front, pc)
  }

  lemma {:induction false} HitsCounted(capacity: nat, ops: seq<Op>, pc: u64)
    requires pc in After(capacity, ops).blocks
    ensures After(capacity, ops).blocks[pc].hitCount == Hits(capacity, ops, pc)
    decreases |ops|
  {
    hide Evict;
    var front, op := ops[..|ops| - 1], ops[|ops| - 1];
    var c := After(capacity, front);
    EvictKeeps(c);
    if !(op.Insert? && op.pc == pc) { HitsCounted(capacity, front, pc); }
  }

  /** After any sequence of calls the hit count of an entry is the number of its hits in the history, and it is
      hot exactly when that number has reached a hundred. */
  lemma HotByHistory(capacity: nat, ops: seq<Op>)
    ensures forall pc :: pc in After(capacity, ops).blocks ==>
              var b := After(capacity, ops).blocks[pc]; var n := Hits(capacity, ops, pc);
              b.hitCount == n && (b.isHot <==> n >= 100)
  {
    HotMeansHundredHits(capacity, ops);
    hide After, Hits;
    forall pc | pc in After(capacity, ops).blocks { HitsCounted(capacity, ops, pc); }
  }

  // ----- coherence -----

  /** The call `op`, made in state `c`, drops a valid block of `pc`. */
  ghost predicate Drops(c: CacheState, op: Op, pc: u64)
  {
    match op
    case Invalidate(p) => p == pc
    case InvalidateRange(start, end) => start <= pc < end
    case Insert(p, _, _, _) => p != pc && |c.blocks| >= c.capacity && pc in c.blocks && pc !in Evict(c).blocks
    case Alloc(bytes) => !PoolFits(c, bytes) && pc in c.blocks && pc !in Evict(c).blocks
    case EvictCold => pc in c.blocks && pc !in Evict(c).blocks
    case _ => false
  }

  /** Call number `i` inserted (host, size, count) for `pc`; since then `pc` was neither inserted
      again, nor covered by an invalidation, nor evicted. */
  ghost predicate Current(capacity: nat, ops: seq<Op>, i: nat, pc: u64, host: nat, size: nat, count: nat)
  {
    && i < |ops| && ops[i] == Insert(pc, host, size, count)
    && forall j {:trigger ops[j]} :: i < j < |ops| ==>
         !(ops[j].Insert? && ops[j].pc == pc) && !Drops(After(capacity, ops[..j]), ops[j], pc)
  }

  predicate Holds(c: CacheState, pc: u64, host: nat, size: nat, count: nat)
  {
    Hit(c, pc) && var b := c.blocks[pc];
    b.armPc == pc && b.hostCode == host && b.hostCodeSize == size && b.armInstrCount == count
  }

  /** One call keeps a valid block or drops it. */
  lemma StepCoherent(c: CacheState, op: Op, pc: u64, host: nat, size: nat, count: nat)
    requires forall k :: k in c.blocks ==> c.blocks[k].armPc == k
    ensures op == Insert(pc, host, size, count) ==> Holds(Apply(c, op), pc, host, size, count)
    ensures !(op.Insert? && op.pc == pc) ==>
              (Holds(Apply(c, op), pc, host, size, count) <==> Holds(c, pc, host, size, count) && !Drops(c, op, pc))
    ensures op.Insert? && op.pc == pc && op != Insert(pc, host, size, count) ==> !Holds(Apply(c, op), pc, host, size, count)
    ensures forall k :: k in Apply(c, op).blocks ==> Apply(c, op).blocks[k].armPc == k
  { var e := EvictFacts(c); }

  lemma {:induction false} OwnPc(capacity: nat, ops: seq<Op>)
    ensures forall k :: k in After(capacity, ops).blocks ==> After(capacity, ops).blocks[k].armPc == k
    decreases |ops|
  {
    if |ops| > 0 {
      OwnPc(capacity, ops[..|ops| - 1]);
      StepCoherent(After(capacity, ops[..|ops| - 1]), ops[|ops| - 1], 0, 0, 0, 0);
    }
  }

  /** `Current` one call later. */
  lemma CurrentStep(capacity: nat, ops: seq<Op>, i: nat, pc: u64, host: nat, size: nat, count: nat)
    requires |ops| > 0
    ensures var n := |ops| - 1;
            Current(capacity, ops, i, pc, host, size, count) <==>
              if i == n then ops[n] == Insert(pc, host, size, count)
              else && Current(capacity, ops[..n], i, pc, host, size, count)
                   && !(ops[n].Insert? && ops[n].pc == pc) && !Drops(After(capacity, ops[..n]), ops[n], pc)
  {
    hide Drops, After;
    var n := |ops| - 1;
    forall j | 0 <= j < n ensures ops[..n][..j] == ops[..j] && ops[..n][j] == ops[j] {}
    if i < n && Current(capacity, ops, i, pc, host, size, count) {
      assert ops[n] == ops[|ops| - 1];
      forall j | i < j < n
        ensures !(ops[..n][j].Insert? && ops[..n][j].pc == pc) && !Drops(After(capacity, ops[..n][..j]), ops[..n][j], pc)
      { assert ops[..n][j] == ops[j]; }
      assert Current(capacity, ops[..n], i, pc, host, size, count);
    }
    if i < n && Current(capacity, ops[..n], i, pc, host, size, count) && !(ops[n].Insert? && ops[n].pc == pc)
       && !Drops(After(capacity, ops[..n]), ops[n], pc) {
      forall j | i < j < |ops|
        ensures !(ops[j].Insert? && ops[j].pc == pc) && !Drops(After(capacity, ops[..j]), ops[j], pc)
      { if j < n { assert ops[..n][j] == ops[j]; } }
      assert ops[..n][i] == ops[i];
    }
  }

  /** Coherence over any sequence of calls: a lookup of `pc` would hit and give (host, size, count)
      exactly when some insertion of just that is still current. A miss therefore means: never
      inserted, invalidated since, or evicted since. */
  lemma {:induction false} Coherent(capacity: nat, ops: seq<Op>, pc: u64, host: nat, size: nat, count: nat)
    ensures Holds(After(capacity, ops), pc, host, size, count) <==>
            exists i: nat :: Current(capacity, ops, i, pc, host, size, count)
    decreases |ops|
  {
    hide Drops, Holds, Apply, Current;
    if |ops| == 0 {
      NothingHeld(capacity, pc, host, size, count);
    } else {
      var n := |ops| - 1;
      var c := After(capacity, ops[..n]);
      OwnPc(capacity, ops[..n]);
      Coherent(capacity, ops[..n], pc, host, size, count);
      StepCoherent(c, ops[n], pc, host, size, count);
      forall i: nat
        ensures Current(capacity, ops, i, pc, host, size, count) <==>
                if i == n then ops[n] == Insert(pc, host, size, count)
                else && Current(capacity, ops[..n], i, pc, host, size, count)
                     && !(ops[n].Insert? && ops[n].pc == pc) && !Drops(c, ops[n], pc)
      { CurrentStep(capacity, ops, i, pc, host, size, count); }
      forall i: nat ensures Current(capacity, ops[..n], i, pc, host, size, count) ==> i < n {
        CurrentBefore(capacity, ops[..n], i, pc, host, size, count);
      }
      assert Current(capacity, ops, n, pc, host, size, count) <==> ops[n] == Insert(pc, host, size, count);
    }
  }

  lemma CurrentBefore(capacity: nat, ops: seq<Op>, i: nat, pc: u64, host: nat, size: nat, count: nat)
    ensures Current(capacity, ops, i, pc, host, size, count) ==> i < |ops|
  {}

  lemma NothingHeld(capacity: nat, pc: u64, host: nat, size: nat, count: nat)
    ensures !Holds(Fresh(capacity), pc, host, size, count)
    ensures forall i: nat :: !Current(capacity, [], i, pc, host, size, count)
  {}

  // ----- bounded growth -----

  /** The entries eviction cannot remove: hot or invalidated ones. */
  function Pinned(c: CacheState): set<u64> { set k | k in c.blocks && !Cold(c.blocks[k]) }

  function ColdKeys(c: CacheState): set<u64> { set k | k in c.blocks && Cold(c.blocks[k]) }

  /** At most one cold entry above capacity. */
  predicate Bounded(c: CacheState) { |c.blocks| <= c.capacity || |ColdKeys(c)| <= 1 }

  lemma Partition(c: CacheState)
    ensures |c.blocks| == |Pinned(c)| + |ColdKeys(c)|
  {
    assert c.blocks.Keys == Pinned(c) + ColdKeys(c);
    assert Pinned(c) !! ColdKeys(c);
  }

  lemma Subset(a: set<u64>, b: set<u64>)
    requires a <= b
    ensures |a| <= |b|
  { assert b == a + (b - a); }

  lemma EvictRoom(c: CacheState)
    requires Bounded(c) && |c.blocks| >= c.capacity
    ensures var c' := Evict(c);
            |c'.blocks| < c.capacity || ColdKeys(c') == {}
    ensures Evict(c).capacity == c.capacity && Evict(c).blocks.Keys <= c.blocks.Keys
  {
    var k := EvictFacts(c);
    if Coldest(c.blocks, k) {
      assert (c.blocks - {k}).Keys == c.blocks.Keys - {k};
      assert ColdKeys(Evict(c)) == ColdKeys(c) - {k};
      assert |ColdKeys(c) - {k}| == |ColdKeys(c)| - 1;
      assert |ColdKeys(c)| <= 1 ==> ColdKeys(c) - {k} == {};
    } else {
      assert ColdKeys(c) == {};
    }
  }

  /** One new entry is at most one more cold one. */
  lemma OneMoreCold(c: CacheState, c': CacheState, pc: u64)
    requires forall k :: k in c'.blocks && k != pc ==> k in c.blocks && c'.blocks[k] == c.blocks[k]
    requires ColdKeys(c) == {}
    ensures |ColdKeys(c')| <= 1
  {
    assert forall k :: k in c.blocks ==> !Cold(c.blocks[k]) by {
      forall k | k in c.blocks ensures !Cold(c.blocks[k]) { assert k !in ColdKeys(c); }
    }
    Subset(ColdKeys(c'), {pc});
  }

  lemma InsertBounded(c: CacheState, pc: u64, host: nat, size: nat, count: nat)
    requires Bounded(c)
    ensures Bounded(AfterInsert(c, pc, host, size, count))
  {
    if |c.blocks| >= c.capacity { EvictRoom(c); }
    hide Evict, ColdKeys;
    var c1 := if |c.blocks| >= c.capacity then Evict(c) else c;
    var c' := AfterInsert(c, pc, host, size, count);
    if |c1.blocks| < c.capacity {
      assert c'.blocks.Keys == c1.blocks.Keys + {pc};
      Subset(c'.blocks.Keys, c1.blocks.Keys + {pc});
    } else {
      OneMoreCold(c1, c', pc);
    }
  }

  /** Every other call only removes entries or pins them. */
  lemma OthersPin(c: CacheState, op: Op)
    requires Bounded(c) && !op.Insert?
    ensures Bounded(Apply(c, op))
  {
    EvictKeeps(c);
    hide Evict;
    var c' := Apply(c, op);
    assert c'.capacity == c.capacity;
    Subset(c'.blocks.Keys, c.blocks.Keys);
    Subset(ColdKeys(c'), ColdKeys(c));
  }

  lemma {:induction false} StaysBounded(capacity: nat, ops: seq<Op>)
    ensures Bounded(After(capacity, ops)) && After(capacity, ops).capacity == capacity
    decreases |ops|
  {
    hide Bounded, ColdKeys, Evict;
    if |ops| > 0 {
      var front, op := ops[..|ops| - 1], ops[|ops| - 1];
      StaysBounded(capacity, front);
      var c := After(capacity, front);
      EvictKeeps(c);
      if op.Insert? { InsertBounded(c, op.pc, op.host, op.size, op.count); } else { OthersPin(c, op); }
    } else {
      FreshBounded(capacity);
    }
  }

  lemma FreshBounded(capacity: nat)
    ensures Bounded(Fresh(capacity))
  {}

  /** Bounded growth: never more entries than the capacity or one more than the pinned ones. */
  lemma GrowthBound(capacity: nat, ops: seq<Op>)
    ensures var c := After(capacity, ops);
            |c.blocks| <= if capacity >= |Pinned(c)| + 1 then capacity else |Pinned(c)| + 1
  {
    StaysBounded(capacity, ops);
    Partition(After(capacity, ops));
  }

  // ----- the class -----

  class TranslationCache {
    var blockMap: map<u64, BlockInfo>
    var capacity: nat
    const codePool: array<u8>
    var codePoolUsed: nat
    var accessCounter: nat

    ghost function State(): CacheState
      reads this
    { CacheState(blockMap, codePoolUsed, accessCounter, capacity) }

    constructor (initialCapacity: nat)
      ensures State() == Fresh(initialCapacity) && fresh(codePool) && codePool.Length == POOL_SIZE
    {
      blockMap, capacity, codePoolUsed, accessCounter := map[], initialCapacity, 0, 0;
      codePool := new u8[POOL_SIZE];
    }

    /** `lookup`: a copy of the entry instead of a pointer to it. */
    method LookupBlock(armPc: u64) returns (r: Option<BlockInfo>)
      modifies this
      ensures State() == AfterLookup(old(State()), armPc)
      ensures r == if Hit(old(State()), armPc) then Some(blockMap[armPc]) else None
    {
      if armPc in blockMap && blockMap[armPc].isValid {
        var info := blockMap[armPc];
        info := info.(hitCount := info.hitCount + 1);
        accessCounter := accessCounter + 1;
        info := info.(lastAccess := accessCounter);
        if info.hitCount >= HOT_THRESHOLD { info := info.(isHot := true); }
        blockMap := blockMap[armPc := info];
        return Some(info);
      }
      return None;
    }

    /** `evict_cold`: a scan with a running minimum, in whatever order the map is iterated. */
    method EvictOne()
      requires accessCounter < UINT64_MAX && Stamped(State())
      modifies this`blockMap
      ensures State() == Evict(old(State()))
    {
      var minAccess, evictPc: u64, found := UINT64_MAX, 0, false;
      var keys := blockMap.Keys;
      while keys != {}
        invariant keys <= blockMap.Keys
        invariant minAccess <= UINT64_MAX
        invariant found ==> evictPc in blockMap && evictPc !in keys && Cold(blockMap[evictPc])
        invariant minAccess == if found then blockMap[evictPc].lastAccess else UINT64_MAX
        invariant forall k :: k in blockMap && k !in keys && Cold(blockMap[k]) ==> found && minAccess <= blockMap[k].lastAccess
        decreases |keys|
      {
        var pc :| pc in keys;
        keys := keys - {pc};
        var info := blockMap[pc];
        if !info.isHot && info.isValid && info.lastAccess < minAccess {
          minAccess, evictPc, found := info.lastAccess, pc, true;
        }
      }
      ghost var e := EvictFacts(State());
      if found {
        assert Coldest(blockMap, evictPc) && Coldest(blockMap, e);
        blockMap := blockMap - {evictPc};
      }
    }

    /** `insert` */
    method InsertBlock(armPc: u64, hostCode: nat, hostCodeSize: nat, armInstrCount: nat)
      requires accessCounter < UINT64_MAX && Stamped(State())
      modifies this
      ensures State() == AfterInsert(old(State()), armPc, hostCode, hostCodeSize, armInstrCount)
    {
      if |blockMap| >= capacity { EvictOne(); }
      accessCounter := accessCounter + 1;
      blockMap := blockMap[armPc := BlockInfo(armPc, hostCode, hostCodeSize, armInstrCount, 0, accessCounter, true, false)];
    }

    method InvalidateBlock(armPc: u64)
      modifies this`blockMap
      ensures State() == AfterInvalidate(old(State()), armPc)
    {
      if armPc in blockMap { blockMap := blockMap[armPc := blockMap[armPc].(isValid := false)]; }
    }

    /** `invalidate_range`, in whatever order the map is iterated. */
    method InvalidateBlocks(start: u64, end: u64)
      modifies this`blockMap
      ensures State() == AfterInvalidateRange(old(State()), start, end)
    {
      ghost var was := blockMap;
      var keys := blockMap.Keys;
      while keys != {}
        invariant keys <= blockMap.Keys == was.Keys
        invariant forall k :: k in was ==>
          blockMap[k] == if k !in keys && start <= k < end then was[k].(isValid := false) else was[k]
        decreases |keys|
      {
        var pc :| pc in keys;
        keys := keys - {pc};
        if pc >= start && pc < end { blockMap := blockMap[pc := blockMap[pc].(isValid := false)]; }
      }
      assert blockMap == AfterInvalidateRange(old(State()), start, end).blocks;
    }

    /** `alloc_host_code`: an offset into the pool. */
    method AllocHostCode(size: nat) returns (r: Option<nat>)
      requires accessCounter < UINT64_MAX && Stamped(State())
      modifies this
      ensures State() == AfterAlloc(old(State()), size)
      ensures r == if PoolFits(old(State()), size) then Some(old(codePoolUsed)) else None
    {
      if codePoolUsed + size > POOL_SIZE {
        EvictOne();
        ghost var e := EvictFacts(old(State()));
        if codePoolUsed + size > POOL_SIZE { return None; }
      }
      r := Some(codePoolUsed);
      codePoolUsed := codePoolUsed + size;
    }

    method PromoteHot(armPc: u64)
      modifies this`blockMap
      ensures State() == AfterPromote(old(State()), armPc)
    {
      if armPc in blockMap {
        blockMap := blockMap[armPc := blockMap[armPc].(isHot := true, hitCount := HOT_THRESHOLD)];
      }
    }
  }
}
