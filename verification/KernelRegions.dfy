/** The kernel's virtual address allocator: a doubly linked list of regions, first fit with split and merge,
    proved against the list of regions it stands for. */
module KernelRegions {
  import opened Layout

  const VMM_BASE: nat := 0xFFFF_9000_0000_0000
  const VMM_LIMIT: nat := 0xFFFF_F000_0000_0000

  datatype Block = Block(base: nat, size: nat, flags: Flags) {
    predicate Live() { Used in flags }
    function End(): nat { base + size }
  }

  type Blocks = seq<Block>

  datatype Stats = Stats(total: Word, used: Word, free: Word, regions: Word, usedRegions: Word)

  function Add64(x: int, y: int): Word { (x + y) % U64 }
  function Sub64(x: int, y: int): Word { (x - y) % U64 }

  /** `PAGE_ALIGN_UP` on 64-bit words: it wraps for the last 4095 of them. */
  function RoundUp(size: nat): nat { (size + 0xFFF) % U64 / 0x1000 * 0x1000 }

  lemma RoundUpMeans(size: nat)
    requires size < U64
    ensures RoundUp(size) % 0x1000 == 0
    ensures size <= U64 - 0x1000 ==> size <= RoundUp(size) < size + 0x1000
    ensures size > U64 - 0x1000 ==> RoundUp(size) == 0
  {
  }

  // ---------- what the calls do to the list ----------

  /** The first free block that is large enough. */
  function FirstFit(bs: Blocks, size: nat): (r: Option<nat>)
    ensures r.Some? ==> r.value < |bs| && !bs[r.value].Live() && bs[r.value].size >= size
    ensures r.Some? ==> forall i :: 0 <= i < r.value ==> bs[i].Live() || bs[i].size < size
    ensures r.None? ==> forall i :: 0 <= i < |bs| ==> bs[i].Live() || bs[i].size < size
  {
    if bs == [] then None
    else if !bs[0].Live() && bs[0].size >= size then Some(0)
    else match FirstFit(bs[1..], size)
      case None => None
      case Some(k) => Some(k + 1)
  }

  function Rest(b: Block, size: nat): Blocks
    requires size <= b.size
  {
    if b.size - size >= 0x1000 then [Block(b.base + size, b.size - size, {})] else []
  }

  function Carve(bs: Blocks, k: nat, size: nat, flags: Flags): Blocks
    requires k < |bs| && size <= bs[k].size
  {
    bs[..k] + [Block(bs[k].base, size, flags + {Used})] + Rest(bs[k], size) + bs[k + 1..]
  }

  function CarveStats(st: Stats, b: Block, size: nat): Stats
    requires size <= b.size
  {
    Stats(st.total, Add64(st.used, size), Sub64(st.free, size), Add64(st.regions, |Rest(b, size)|),
        Add64(st.usedRegions, 1))
  }

  /** The used block with this base. */
  function FindLive(bs: Blocks, base: nat): (r: Option<nat>)
    ensures r.Some? ==> r.value < |bs| && bs[r.value].base == base && bs[r.value].Live()
    ensures r.Some? ==> forall i :: 0 <= i < r.value ==> !(bs[i].base == base && bs[i].Live())
    ensures r.None? ==> forall i :: 0 <= i < |bs| ==> !(bs[i].base == base && bs[i].Live())
  {
    if bs == [] then None
    else if bs[0].base == base && bs[0].Live() then Some(0)
    else match FindLive(bs[1..], base)
      case None => None
      case Some(k) => Some(k + 1)
  }

  predicate Mergeable(bs: Blocks, i: nat) {
    i + 1 < |bs| && !bs[i].Live() && !bs[i + 1].Live() && bs[i].End() == bs[i + 1].base
  }

  function MergeAt(bs: Blocks, i: nat): Blocks {
    if Mergeable(bs, i) then bs[..i] + [bs[i].(size := bs[i].size + bs[i + 1].size)] + bs[i + 2..] else bs
  }

  function Cleared(bs: Blocks, k: nat): Blocks
    requires k < |bs|
  {
    bs[k := bs[k].(flags := {})]
  }

  function Release(bs: Blocks, k: nat): Blocks
    requires k < |bs|
  {
    var ms := MergeAt(Cleared(bs, k), k);
    if k > 0 then MergeAt(ms, k - 1) else ms
  }

  function ReleaseStats(st: Stats, bs: Blocks, k: nat): Stats
    requires k < |bs|
  {
    Stats(st.total, Sub64(st.used, bs[k].size), Add64(st.free, bs[k].size),
          Sub64(st.regions, |bs| - |Release(bs, k)|), Sub64(st.usedRegions, 1))
  }

  // ---------- invariants of the list ----------

  predicate Tiles(bs: Blocks) {
    && bs != [] && bs[0].base == VMM_BASE && bs[|bs| - 1].End() == VMM_LIMIT
    && forall i :: 0 <= i < |bs| - 1 ==> bs[i].End() == bs[i + 1].base
  }

  predicate Sized(bs: Blocks) {
    forall i :: 0 <= i < |bs| ==> bs[i].size > 0 && bs[i].size % 0x1000 == 0
  }

  /** Free blocks carry no flags. */
  predicate Plain(bs: Blocks) {
    forall i :: 0 <= i < |bs| ==> bs[i].Live() || bs[i].flags == {}
  }

  /** No two neighbours are both free, except possibly pair `i` for `lo <= i < hi`. */
  predicate CanonicalBut(bs: Blocks, lo: int, hi: int) {
    forall i :: 0 <= i < |bs| - 1 && !(lo <= i < hi) ==> bs[i].Live() || bs[i + 1].Live()
  }

  predicate Good(bs: Blocks) {
    Tiles(bs) && Sized(bs) && Plain(bs) && CanonicalBut(bs, 0, 0)
  }

  function Bytes(bs: Blocks, live: bool): nat {
    if bs == [] then 0
    else Bytes(bs[..|bs| - 1], live) + if bs[|bs| - 1].Live() == live then bs[|bs| - 1].size else 0
  }

  function LiveCount(bs: Blocks): nat {
    if bs == [] then 0 else LiveCount(bs[..|bs| - 1]) + if bs[|bs| - 1].Live() then 1 else 0
  }

  /** The five statistics say what the list says. */
  predicate StatsOk(bs: Blocks, st: Stats) {
    && st.total == VMM_LIMIT - VMM_BASE && st.used == Bytes(bs, true) && st.free == Bytes(bs, false)
    && st.regions == |bs| && st.usedRegions == LiveCount(bs)
  }

  const WHOLE: Block := Block(VMM_BASE, VMM_LIMIT - VMM_BASE, {})

  /** The allocations in force. */
  function LiveSet(bs: Blocks): set<Block> {
    set b | b in bs && b.Live()
  }

  // ---------- sums ----------

  lemma {:induction false} BytesConcat(a: Blocks, b: Blocks, live: bool)
    ensures Bytes(a + b, live) == Bytes(a, live) + Bytes(b, live)
    ensures LiveCount(a + b) == LiveCount(a) + LiveCount(b)
  {
    if b == [] {
      assert a + b == a;
    } else {
      BytesConcat(a, b[..|b| - 1], live);
      assert (a + b)[..|a + b| - 1] == a + b[..|b| - 1];
    }
  }

  lemma OneBlock(b: Block, live: bool)
    ensures Bytes([b], live) == if b.Live() == live then b.size else 0
    ensures LiveCount([b]) == if b.Live() then 1 else 0
  {
    assert [b][..0] == [];
  }

  /** Blocks in the middle of a list are swapped for others. */
  lemma SwapBytes(a: Blocks, was: Blocks, now: Blocks, z: Blocks, live: bool)
    ensures Bytes(a + now + z, live) + Bytes(was, live) == Bytes(a + was + z, live) + Bytes(now, live)
    ensures LiveCount(a + now + z) + LiveCount(was) == LiveCount(a + was + z) + LiveCount(now)
  {
    BytesConcat(a, now, live);
    BytesConcat(a + now, z, live);
    BytesConcat(a, was, live);
    BytesConcat(a + was, z, live);
  }

  lemma PairBytes(b: Block, c: Block, live: bool)
    ensures Bytes([b, c], live) == Bytes([b], live) + Bytes([c], live)
    ensures LiveCount([b, c]) == LiveCount([b]) + LiveCount([c])
  {
    assert [b, c] == [b] + [c];
    BytesConcat([b], [c], live);
  }

  lemma CarveBytes(bs: Blocks, k: nat, size: nat, flags: Flags, live: bool)
    requires k < |bs| && size <= bs[k].size && !bs[k].Live() && (bs[k].size - size) % 0x1000 == 0
    ensures Bytes(Carve(bs, k, size, flags), live) == if live then Bytes(bs, live) + size else Bytes(bs, live) - size
    ensures LiveCount(Carve(bs, k, size, flags)) == LiveCount(bs) + 1
  {
    var b := bs[k];
    var c := Block(b.base, size, flags + {Used});
    assert bs == bs[..k] + [b] + bs[k + 1..];
    assert Carve(bs, k, size, flags) == bs[..k] + ([c] + Rest(b, size)) + bs[k + 1..];
    SwapBytes(bs[..k], [b], [c] + Rest(b, size), bs[k + 1..], live);
    BytesConcat([c], Rest(b, size), live);
    OneBlock(b, live);
    OneBlock(c, live);
    if Rest(b, size) != [] {
      OneBlock(Rest(b, size)[0], live);
    }
  }

  lemma ClearedBytes(bs: Blocks, k: nat, live: bool)
    requires k < |bs| && bs[k].Live()
    ensures Bytes(Cleared(bs, k), live) == if live then Bytes(bs, live) - bs[k].size else Bytes(bs, live) + bs[k].size
    ensures LiveCount(Cleared(bs, k)) == LiveCount(bs) - 1
  {
    var b, c := bs[k], bs[k].(flags := {});
    assert bs == bs[..k] + [b] + bs[k + 1..];
    assert Cleared(bs, k) == bs[..k] + [c] + bs[k + 1..];
    SwapBytes(bs[..k], [b], [c], bs[k + 1..], live);
    OneBlock(b, live);
    OneBlock(c, live);
  }

  lemma MergeBytes(bs: Blocks, i: nat, live: bool)
    ensures Bytes(MergeAt(bs, i), live) == Bytes(bs, live) && LiveCount(MergeAt(bs, i)) == LiveCount(bs)
  {
    hide Bytes, LiveCount;
    if Mergeable(bs, i) {
      var b, c := bs[i], bs[i + 1];
      var m := b.(size := b.size + c.size);
      assert bs == bs[..i] + [b, c] + bs[i + 2..];
      SwapBytes(bs[..i], [b, c], [m], bs[i + 2..], live);
      PairBytes(b, c, live);
      OneBlock(b, live);
      OneBlock(c, live);
      OneBlock(m, live);
    }
  }

  // ---------- allocation keeps the list good ----------

  lemma CarveIndex(bs: Blocks, k: nat, size: nat, flags: Flags, i: nat)
    requires k < |bs| && size <= bs[k].size && i < |Carve(bs, k, size, flags)|
    ensures var d := |Rest(bs[k], size)|;
            |Carve(bs, k, size, flags)| == |bs| + d && d <= 1
            && Carve(bs, k, size, flags)[i]
               == if i < k then bs[i] else if i == k then Block(bs[k].base, size, flags + {Used})
                  else if i == k + d then Block(bs[k].base + size, bs[k].size - size, {}) else bs[i - d]
  {
  }

  lemma CarveGood(bs: Blocks, k: nat, size: nat, flags: Flags)
    requires Good(bs) && k < |bs| && size <= bs[k].size && !bs[k].Live() && size > 0 && size % 0x1000 == 0
    ensures Good(Carve(bs, k, size, flags))
  {
    var cs := Carve(bs, k, size, flags);
    forall i: nat | i < |cs|
      ensures cs[i].size > 0 && cs[i].size % 0x1000 == 0 && (cs[i].Live() || cs[i].flags == {})
      ensures i + 1 < |cs| ==> cs[i].End() == cs[i + 1].base && (cs[i].Live() || cs[i + 1].Live())
    {
      CarveIndex(bs, k, size, flags, i);
      if i + 1 < |cs| {
        CarveIndex(bs, k, size, flags, i + 1);
      }
    }
    CarveIndex(bs, k, size, flags, 0);
    CarveIndex(bs, k, size, flags, |cs| - 1);
  }

  lemma CarveLive(bs: Blocks, k: nat, size: nat, flags: Flags)
    requires k < |bs| && size <= bs[k].size && !bs[k].Live()
    ensures LiveSet(Carve(bs, k, size, flags)) == LiveSet(bs) + {Block(bs[k].base, size, flags + {Used})}
  {
    var cs := Carve(bs, k, size, flags);
    var c := Block(bs[k].base, size, flags + {Used});
    assert cs[k] == c;
    forall b: Block | b.Live()
      ensures b in cs <==> b in bs || b == c
    {
      if b in cs {
        var i: nat :| i < |cs| && cs[i] == b;
        CarveIndex(bs, k, size, flags, i);
      }
      if b in bs {
        var i: nat :| i < |bs| && bs[i] == b;
        var j := if i < k then i else i + |Rest(bs[k], size)|;
        CarveIndex(bs, k, size, flags, j);
      }
    }
  }

  // ---------- release keeps the list good ----------

  lemma MergeIndex(bs: Blocks, k: nat, i: nat)
    requires i < |MergeAt(bs, k)|
    ensures Mergeable(bs, k) ==> |MergeAt(bs, k)| == |bs| - 1
    ensures Mergeable(bs, k) ==>
      MergeAt(bs, k)[i] == if i < k then bs[i] else if i == k then bs[k].(size := bs[k].size + bs[k + 1].size)
          else bs[i + 1]
    ensures !Mergeable(bs, k) ==> MergeAt(bs, k) == bs
  {
  }

  lemma MergeGood(bs: Blocks, k: nat, lo: int)
    requires Tiles(bs) && Sized(bs) && Plain(bs) && CanonicalBut(bs, lo, k + 1) && k < |bs| && lo <= k
    ensures var ms := MergeAt(bs, k);
            Tiles(ms) && Sized(ms) && Plain(ms) && CanonicalBut(ms, lo, k) && |ms| >= |bs| - 1
  {
    var ms := MergeAt(bs, k);
    if Mergeable(bs, k) {
      forall i: nat | i < |ms|
        ensures ms[i].size > 0 && ms[i].size % 0x1000 == 0 && (ms[i].Live() || ms[i].flags == {})
        ensures i + 1 < |ms| ==> ms[i].End() == ms[i + 1].base && (lo <= i < k || ms[i].Live() || ms[i + 1].Live())
      {
        MergeIndex(bs, k, i);
        if i + 1 < |ms| {
          MergeIndex(bs, k, i + 1);
        }
      }
      MergeIndex(bs, k, 0);
      MergeIndex(bs, k, |ms| - 1);
    }
  }

  lemma ReleaseGood(bs: Blocks, k: nat)
    requires Good(bs) && k < |bs|
    ensures Good(Release(bs, k))
  {
    ClearedGood(bs, k);
    hide Tiles, Sized, Plain, MergeAt, Cleared;
    MergeGood(Cleared(bs, k), k, k - 1);
    if k > 0 {
      MergeGood(MergeAt(Cleared(bs, k), k), k - 1, k - 1);
    }
  }

  lemma ClearedGood(bs: Blocks, k: nat)
    requires Good(bs) && k < |bs|
    ensures var cs := Cleared(bs, k);
            Tiles(cs) && Sized(cs) && Plain(cs) && CanonicalBut(cs, k - 1, k + 1) && |cs| == |bs|
  {
  }

  lemma MergeLive(bs: Blocks, k: nat)
    ensures LiveSet(MergeAt(bs, k)) == LiveSet(bs)
  {
    var ms := MergeAt(bs, k);
    forall b: Block | b.Live()
      ensures b in ms <==> b in bs
    {
      if b in ms {
        var i: nat :| i < |ms| && ms[i] == b;
        MergeIndex(bs, k, i);
      }
      if b in bs && Mergeable(bs, k) {
        var i: nat :| i < |bs| && bs[i] == b;
        MergeIndex(bs, k, if i < k then i else i - 1);
      }
    }
  }

  /** Blocks of a tiling lie one behind the other. */
  lemma {:induction false} Ordered(bs: Blocks, i: nat, j: nat)
    requires Tiles(bs) && Sized(bs) && i < j < |bs|
    ensures bs[i].End() <= bs[j].base
    decreases j
  {
    if i < j - 1 {
      Ordered(bs, i, j - 1);
    }
    assert bs[j - 1].End() == bs[j].base;
  }

  lemma Apart(bs: Blocks, i: nat, k: nat)
    requires Good(bs) && i < |bs| && k < |bs| && i != k
    ensures bs[i].End() <= bs[k].base || bs[k].End() <= bs[i].base
  {
    if i < k {
      Ordered(bs, i, k);
    } else {
      Ordered(bs, k, i);
    }
  }

  /** A used block occurs once, so clearing it takes it out of the allocations in force. */
  lemma ClearedLive(bs: Blocks, k: nat)
    requires Good(bs) && k < |bs| && bs[k].Live()
    ensures LiveSet(Cleared(bs, k)) == LiveSet(bs) - {bs[k]}
  {
    hide Tiles, Plain, CanonicalBut;
    var cs := Cleared(bs, k);
    forall b: Block | b in bs && b.Live() && b != bs[k]
      ensures b in cs
    {
      var i: nat :| i < |bs| && bs[i] == b;
      assert cs[i] == b;
    }
    forall b: Block | b in cs && b.Live()
      ensures b in bs && b != bs[k]
    {
      var i: nat :| i < |cs| && cs[i] == b;
      assert bs[i] == b;
      Apart(bs, i, k);
      assert bs[i].size > 0;
    }
  }

  lemma ReleaseLive(bs: Blocks, k: nat)
    requires Good(bs) && k < |bs| && bs[k].Live()
    ensures LiveSet(Release(bs, k)) == LiveSet(bs) - {bs[k]}
  {
    hide Good, MergeAt, LiveSet, Cleared;
    ClearedLive(bs, k);
    MergeLive(Cleared(bs, k), k);
    if k > 0 {
      MergeLive(MergeAt(Cleared(bs, k), k), k - 1);
    }
  }

  // ---------- statistics ----------

  lemma {:induction false} BytesBound(bs: Blocks, hi: nat)
    requires hi <= |bs| && hi > 0 && Sized(bs) && forall i :: 0 <= i < |bs| - 1 ==> bs[i].End() == bs[i + 1].base
    ensures Bytes(bs[..hi], true) + Bytes(bs[..hi], false) == bs[hi - 1].End() - bs[0].base
    ensures hi <= bs[hi - 1].End() - bs[0].base && LiveCount(bs[..hi]) <= hi
  {
    assert bs[..hi][..hi - 1] == bs[..hi - 1];
    if hi > 1 {
      BytesBound(bs, hi - 1);
    } else {
      assert bs[..0] == [];
    }
  }

  /** The whole range is accounted for, and no counter can overflow. */
  lemma Conserved(bs: Blocks)
    requires Good(bs)
    ensures Bytes(bs, true) + Bytes(bs, false) == VMM_LIMIT - VMM_BASE
    ensures |bs| <= VMM_LIMIT - VMM_BASE && LiveCount(bs) <= |bs|
  {
    assert bs[..|bs|] == bs;
    BytesBound(bs, |bs|);
  }

  lemma {:induction false} LiveIn(bs: Blocks, k: nat)
    requires k < |bs| && bs[k].Live()
    ensures LiveCount(bs) >= 1 && Bytes(bs, true) >= bs[k].size
  {
    if k < |bs| - 1 {
      LiveIn(bs[..|bs| - 1], k);
    }
  }

  lemma {:induction false} FreeIn(bs: Blocks, k: nat)
    requires k < |bs| && !bs[k].Live()
    ensures Bytes(bs, false) >= bs[k].size
  {
    if k < |bs| - 1 {
      FreeIn(bs[..|bs| - 1], k);
    }
  }

  lemma CarveStatsOk(bs: Blocks, st: Stats, k: nat, size: nat, flags: Flags)
    requires Good(bs) && StatsOk(bs, st) && k < |bs| && size <= bs[k].size && !bs[k].Live() && size > 0
             && size % 0x1000 == 0
    ensures StatsOk(Carve(bs, k, size, flags), CarveStats(st, bs[k], size))
  {
    hide Bytes, LiveCount, Tiles, Sized, Plain, CanonicalBut;
    CarveGood(bs, k, size, flags);
    Conserved(bs);
    Conserved(Carve(bs, k, size, flags));
    FreeIn(bs, k);
    Aligned(bs, k);
    CarveBytes(bs, k, size, flags, true);
    CarveBytes(bs, k, size, flags, false);
  }

  lemma Aligned(bs: Blocks, k: nat)
    requires Sized(bs) && k < |bs|
    ensures bs[k].size % 0x1000 == 0
  {
  }

  lemma ReleaseStatsOk(bs: Blocks, st: Stats, k: nat)
    requires Good(bs) && StatsOk(bs, st) && k < |bs| && bs[k].Live()
    ensures StatsOk(Release(bs, k), ReleaseStats(st, bs, k))
  {
    hide Bytes, LiveCount, Tiles, Sized, Plain, CanonicalBut, Mergeable;
    ReleaseGood(bs, k);
    Conserved(bs);
    Conserved(Release(bs, k));
    LiveIn(bs, k);
    ReleaseBytes(bs, k, true);
    ReleaseBytes(bs, k, false);
  }

  lemma ReleaseBytes(bs: Blocks, k: nat, live: bool)
    requires k < |bs| && bs[k].Live()
    ensures Bytes(Release(bs, k), live) == if live then Bytes(bs, live) - bs[k].size else Bytes(bs, live) + bs[k].size
    ensures LiveCount(Release(bs, k)) == LiveCount(bs) - 1 && |Release(bs, k)| <= |bs|
  {
    ClearedBytes(bs, k, live);
    MergeBytes(Cleared(bs, k), k, live);
    if k > 0 {
      MergeBytes(MergeAt(Cleared(bs, k), k), k - 1, live);
    }
  }

  // ---------- the calls, and runs of them ----------

  datatype Arena = Arena(blocks: Blocks, stats: Stats)

  function Boot(): Arena {
    Arena([WHOLE], Stats(VMM_LIMIT - VMM_BASE, 0, VMM_LIMIT - VMM_BASE, 1, 0))
  }

  /** `vmm_alloc`: `node` says whether a list node could be allocated for the rest of a split block. */
  function AllocStep(a: Arena, size: nat, flags: Flags, node: bool): (Arena, nat) {
    var n := RoundUp(size);
    var k := FirstFit(a.blocks, n);
    if size == 0 || k.None? then (a, 0)
    else
      var b := a.blocks[k.value];
      if Rest(b, n) != [] && !node then (a, 0)
      else (Arena(Carve(a.blocks, k.value, n, flags), CarveStats(a.stats, b, n)), b.base)
  }

  /** `vmm_free`. */
  function FreeStep(a: Arena, base: nat): Arena {
    var k := FindLive(a.blocks, base);
    if base == 0 || k.None? then a
    else Arena(Release(a.blocks, k.value), ReleaseStats(a.stats, a.blocks, k.value))
  }

  ghost predicate Sane(a: Arena) {
    Good(a.blocks) && StatsOk(a.blocks, a.stats)
  }

  /** An allocation adds one page-aligned block, apart from all others, and changes nothing else; it fails
      only for size 0, without a node, or if no free block is large enough. */
  lemma AllocKeepsSane(a: Arena, size: nat, flags: Flags, node: bool)
    requires Sane(a) && size <= U64 - 0x1000
    ensures var (b, base) := AllocStep(a, size, flags, node);
            && Sane(b)
            && (base == 0 ==> b == a)
            && (base != 0 ==> LiveSet(b.blocks) == LiveSet(a.blocks) + {Block(base, RoundUp(size), flags + {Used})}
                              && forall c :: c in LiveSet(a.blocks) ==>
                                 c.End() <= base || base + RoundUp(size) <= c.base)
            && (base != 0 ==> size <= RoundUp(size) < size + 0x1000 && RoundUp(size) % 0x1000 == 0
                              && forall c :: c in a.blocks && !c.Live() && c.size >= RoundUp(size) ==> base <= c.base)
            && (!node ==> |b.blocks| == |a.blocks|)
            && (base == 0 && size > 0 && node ==> forall c :: c in a.blocks ==> c.Live() || c.size < RoundUp(size))
  {
    hide Bytes, LiveCount;
    RoundUpMeans(size);
    var k := FirstFit(a.blocks, RoundUp(size));
    if size > 0 && k.Some? {
      CarveGood(a.blocks, k.value, RoundUp(size), flags);
      CarveStatsOk(a.blocks, a.stats, k.value, RoundUp(size), flags);
      CarveLive(a.blocks, k.value, RoundUp(size), flags);
      BaseBound(a.blocks, k.value);
      forall c | c in LiveSet(a.blocks)
        ensures c.End() <= a.blocks[k.value].base || a.blocks[k.value].base + RoundUp(size) <= c.base
      {
        var i: nat :| i < |a.blocks| && a.blocks[i] == c;
        Apart(a.blocks, i, k.value);
      }
      Lowest(a.blocks, RoundUp(size));
    }
  }

  /** The first block that fits is the lowest that does. */
  lemma Lowest(bs: Blocks, size: nat)
    requires Good(bs) && FirstFit(bs, size).Some?
    ensures forall c :: c in bs && !c.Live() && c.size >= size ==> bs[FirstFit(bs, size).value].base <= c.base
  {
    var k := FirstFit(bs, size).value;
    forall c | c in bs && !c.Live() && c.size >= size
      ensures bs[k].base <= c.base
    {
      var i: nat :| i < |bs| && bs[i] == c;
      if k < i {
        Ordered(bs, k, i);
      }
    }
  }

  lemma BaseBound(bs: Blocks, k: nat)
    requires Good(bs) && k < |bs|
    ensures bs[k].base >= VMM_BASE
  {
    if k > 0 {
      Ordered(bs, 0, k);
    }
  }

  /** Sizes whose rounding wraps to 0 are the only ones that spoil the list, and they do as soon as anything
      is free: a used block of size 0 appears. */
  lemma AllocSaneIff(a: Arena, size: nat, flags: Flags)
    requires Sane(a) && size < U64
    ensures Good(AllocStep(a, size, flags, true).0.blocks) <==> size <= U64 - 0x1000 || FirstFit(a.blocks, 0).None?
  {
    RoundUpMeans(size);
    if size <= U64 - 0x1000 {
      AllocKeepsSane(a, size, flags, true);
    } else {
      var k := FirstFit(a.blocks, 0);
      if k.Some? {
        CarveIndex(a.blocks, k.value, 0, flags, k.value);
      }
    }
  }

  /** Freeing takes exactly the named block out of the allocations in force. */
  lemma FreeKeepsSane(a: Arena, base: nat)
    requires Sane(a)
    ensures Sane(FreeStep(a, base))
    ensures LiveSet(FreeStep(a, base).blocks) == set b | b in LiveSet(a.blocks) && b.base != base
  {
    var k := FindLive(a.blocks, base);
    if base != 0 && k.Some? {
      ReleaseGood(a.blocks, k.value);
      ReleaseStatsOk(a.blocks, a.stats, k.value);
      ReleaseLive(a.blocks, k.value);
      forall b | b in LiveSet(a.blocks) && b.base == base
        ensures b == a.blocks[k.value]
      {
        var i: nat :| i < |a.blocks| && a.blocks[i] == b;
        if i != k.value {
          Apart(a.blocks, i, k.value);
        }
      }
    } else {
      NoneAt(a.blocks, base);
    }
  }

  lemma NoneAt(bs: Blocks, base: nat)
    requires Good(bs) && (base == 0 || FindLive(bs, base).None?)
    ensures forall b :: b in LiveSet(bs) ==> b.base != base
  {
    forall b | b in LiveSet(bs)
      ensures b.base != base
    {
      var i: nat :| i < |bs| && bs[i] == b;
      BaseBound(bs, i);
    }
  }

  /** A successful allocation, freed again, leaves list and statistics as they were. */
  lemma AllocThenFree(a: Arena, size: nat, flags: Flags, node: bool)
    requires Sane(a) && size <= U64 - 0x1000 && AllocStep(a, size, flags, node).1 != 0
    ensures FreeStep(AllocStep(a, size, flags, node).0, AllocStep(a, size, flags, node).1) == a
  {
    AllocKeepsSane(a, size, flags, node);
    RoundUpMeans(size);
    var (b, base) := AllocStep(a, size, flags, node);
    var n, k := RoundUp(size), FirstFit(a.blocks, RoundUp(size)).value;
    FoundAgain(a.blocks, k, n, flags);
    CarveRelease(a.blocks, k, n, flags);
    FreeKeepsSane(b, base);
    SameStats(a.blocks, a.stats, FreeStep(b, base).stats);
  }

  lemma SameStats(bs: Blocks, s: Stats, t: Stats)
    requires StatsOk(bs, s) && StatsOk(bs, t)
    ensures s == t
  {
  }

  lemma FoundAgain(bs: Blocks, k: nat, n: nat, flags: Flags)
    requires Good(bs) && k < |bs| && n <= bs[k].size && !bs[k].Live() && n > 0 && n % 0x1000 == 0
    ensures FindLive(Carve(bs, k, n, flags), bs[k].base) == Some(k)
  {
    CarveGood(bs, k, n, flags);
    var cs := Carve(bs, k, n, flags);
    assert cs[k].base == bs[k].base && cs[k].Live();
    var j := FindLive(cs, bs[k].base);
    if j.value != k {
      Apart(cs, j.value, k);
    }
  }

  lemma CarveRelease(bs: Blocks, k: nat, n: nat, flags: Flags)
    requires Good(bs) && k < |bs| && n <= bs[k].size && !bs[k].Live() && n > 0 && n % 0x1000 == 0
    ensures k < |Carve(bs, k, n, flags)| && Release(Carve(bs, k, n, flags), k) == bs
  {
    var cs := Carve(bs, k, n, flags);
    var ds := Cleared(cs, k);
    assert bs[k].flags == {};
    if Rest(bs[k], n) == [] {
      assert ds == bs;
    } else {
      assert ds == bs[..k] + [Block(bs[k].base, n, {}), Rest(bs[k], n)[0]] + bs[k + 1..];
      assert MergeAt(ds, k) == bs;
    }
    assert MergeAt(bs, k) == bs;
    if k > 0 {
      assert bs[k - 1].Live();
    }
  }

  function FreeAll(a: Arena, bases: seq<nat>): Arena
    decreases |bases|
  {
    if bases == [] then a else FreeAll(FreeStep(a, bases[0]), bases[1..])
  }

  lemma {:induction false} FreeAllLeaves(a: Arena, bases: seq<nat>)
    requires Sane(a)
    ensures Sane(FreeAll(a, bases))
    ensures LiveSet(FreeAll(a, bases).blocks) == set b | b in LiveSet(a.blocks) && b.base !in bases
    decreases |bases|
  {
    if bases != [] {
      FreeKeepsSane(a, bases[0]);
      FreeAllLeaves(FreeStep(a, bases[0]), bases[1..]);
      assert forall x :: x in bases <==> x == bases[0] || x in bases[1..];
    }
  }

  lemma LiveIsIn(bs: Blocks, i: nat)
    requires i < |bs| && bs[i].Live()
    ensures LiveSet(bs) != {}
  {
    assert bs[i] in LiveSet(bs);
  }

  lemma Neighbours(bs: Blocks)
    requires Good(bs) && |bs| > 1
    ensures LiveSet(bs) != {}
  {
    assert bs[0].Live() || bs[1].Live();
    LiveIsIn(bs, if bs[0].Live() then 0 else 1);
  }

  /** With nothing allocated the list is the one region it started as. */
  lemma NothingLive(a: Arena)
    requires Sane(a) && LiveSet(a.blocks) == {}
    ensures a == Boot()
  {
    var bs := a.blocks;
    if |bs| > 1 {
      Neighbours(bs);
    }
    if bs[0].Live() {
      LiveIsIn(bs, 0);
    }
    assert bs == [WHOLE];
    OneBlock(WHOLE, true);
    OneBlock(WHOLE, false);
  }

  /** Freeing every allocation, in any order and with any repetition, gives back the initial state. */
  lemma FreeEverything(a: Arena, bases: seq<nat>)
    requires Sane(a) && forall b :: b in LiveSet(a.blocks) ==> b.base in bases
    ensures FreeAll(a, bases) == Boot()
  {
    FreeAllLeaves(a, bases);
    NothingLive(FreeAll(a, bases));
  }

  datatype Call = AllocCall(size: nat, flags: Flags, node: bool) | FreeCall(base: nat)

  function Apply(a: Arena, c: Call): Arena {
    match c
    case AllocCall(size, flags, node) => AllocStep(a, size, flags, node).0
    case FreeCall(base) => FreeStep(a, base)
  }

  function RunCalls(a: Arena, cs: seq<Call>): Arena
    decreases |cs|
  {
    if cs == [] then a else RunCalls(Apply(a, cs[0]), cs[1..])
  }

  lemma {:induction false} RunKeepsSane(a: Arena, cs: seq<Call>)
    requires Sane(a) && forall i :: 0 <= i < |cs| && cs[i].AllocCall? ==> cs[i].size <= U64 - 0x1000
    ensures Sane(RunCalls(a, cs))
    decreases |cs|
  {
    if cs != [] {
      match cs[0] {
        case AllocCall(size, flags, node) =>
          AllocKeepsSane(a, size, flags, node);
        case FreeCall(base) =>
          FreeKeepsSane(a, base);
      }
      RunKeepsSane(Apply(a, cs[0]), cs[1..]);
    }
  }

  /** From boot, after any calls: the regions tile the range, are canonical, agree with the statistics. */
  lemma AlwaysSane(cs: seq<Call>)
    requires forall i :: 0 <= i < |cs| && cs[i].AllocCall? ==> cs[i].size <= U64 - 0x1000
    ensures Sane(RunCalls(Boot(), cs))
  {
    OneBlock(WHOLE, true);
    OneBlock(WHOLE, false);
    RunKeepsSane(Boot(), cs);
  }
}
