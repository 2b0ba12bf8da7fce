/** The kernel heap in place: headers at their addresses, linked both ways, payload bytes in between. A header
    that is written destroys the bytes under it; the bytes of every block in use survive every call. */
module KernelHeap {
  import opened Layout
  import opened HeapBlocks

  const HEADER: nat := 40
  const HEAP_START: nat := 0xFFFF_8800_0000_0000
  const HEAP_SIZE: nat := 2 * 4096 * 4096
  const HEAP_END: nat := HEAP_START + HEAP_SIZE

  /** `kheap_block_t`; null is 0. A header of the list has the right magic number. */
  datatype Header = Header(size: nat, next: nat, prev: nat, used: bool)

  datatype Stats = Stats(total: int, used: int, free: int, blocks: int, usedBlocks: int)

  /** `(size + 7) & ~7` on 64-bit words. */
  function RoundUp(size: nat): nat { (size + 7) % U64 / 8 * 8 }

  predicate GoodHeap(bs: Blocks) { Good(bs, HEAP_START, HEAP_END, HEADER) }

  /** The statistics are those of the list; in particular nothing is lost. */
  predicate StatsOk(bs: Blocks, st: Stats) {
    && st.total == HEAP_SIZE && st.used == Bytes(bs, true) && st.blocks == |bs| && st.usedBlocks == UsedCount(bs)
    && st.used + st.free + HEADER * st.blocks == HEAP_SIZE
  }

  /** The count of free bytes is right because nothing is lost. */
  lemma FreeBytes(bs: Blocks, st: Stats)
    requires GoodHeap(bs) && StatsOk(bs, st)
    ensures st.free == Bytes(bs, false)
  {
    Conserved(bs, HEAP_START, HEAP_END, HEADER);
  }

  datatype Heap = Heap(blocks: Blocks, stats: Stats)

  function Boot(): Heap {
    Heap([Block(HEAP_START, HEAP_SIZE - HEADER, false)], Stats(HEAP_SIZE, 0, HEAP_SIZE - HEADER, 1, 0))
  }

  function Split(b: Block, size: nat): nat { if Splits(b, size, HEADER) then 1 else 0 }

  function TakenSize(b: Block, size: nat): nat { if Splits(b, size, HEADER) then size else b.size }

  /** `kmalloc`. */
  function MallocStep(a: Heap, size: nat): (Heap, nat) {
    var n := RoundUp(size);
    var k := FirstFit(a.blocks, n);
    if size == 0 || k.None? then (a, 0)
    else
      var b := a.blocks[k.value];
      var d, taken := Split(b, n), TakenSize(b, n);
      (Heap(Take(a.blocks, k.value, n, HEADER),
            Stats(a.stats.total, a.stats.used + taken, a.stats.free - HEADER * d - taken, a.stats.blocks + d,
                a.stats.usedBlocks + 1)),
       Payload(b, HEADER))
  }

  /** The block whose payload starts at `ptr`. */
  function FindPayload(bs: Blocks, ptr: nat): (r: Option<nat>)
    ensures r.Some? ==> r.value < |bs| && Payload(bs[r.value], HEADER) == ptr
    ensures r.None? ==> forall i :: 0 <= i < |bs| ==> Payload(bs[i], HEADER) != ptr
  {
    if bs == [] then None
    else if Payload(bs[0], HEADER) == ptr then Some(0)
    else match FindPayload(bs[1..], ptr)
      case None => None
      case Some(k) => Some(k + 1)
  }

  /** `kfree` of a block of the list; freeing a free block does nothing. */
  function FreeStep(a: Heap, k: nat): Heap
    requires k < |a.blocks|
  {
    if !a.blocks[k].used then a
    else
      var bs, size := Release(a.blocks, k, HEADER), a.blocks[k].size;
      var gone := |a.blocks| - |bs|;
      Heap(bs, Stats(a.stats.total, a.stats.used - size, a.stats.free + size + HEADER * gone, a.stats.blocks - gone,
          a.stats.usedBlocks - 1))
  }

  ghost predicate Sane(a: Heap) { GoodHeap(a.blocks) && StatsOk(a.blocks, a.stats) }

  /** A successful `kmalloc` adds one block apart from all others, the lowest that is large enough and no larger than
      rounding and an unusable rest make it; it fails only for size 0 or if nothing fits. */
  lemma MallocSane(a: Heap, size: nat)
    requires Sane(a) && size <= U64 - 8
    ensures var (b, ptr) := MallocStep(a, size);
            && Sane(b)
            && (ptr == 0 ==> b == a)
            && (ptr != 0 ==>
                  exists c: Block ::
                    c.used && Payload(c, HEADER) == ptr && size <= c.size < size + 8 + HEADER + MIN_REST
                    && c !in Live(a.blocks) && Live(b.blocks) == Live(a.blocks) + {c}
                    && forall d :: d in a.blocks && !d.used && d.size >= size + 7 ==> c.addr <= d.addr)
            && (ptr == 0 && size > 0 ==> forall c :: c in a.blocks ==> c.used || c.size < size)
  {
    hide Bytes, UsedCount, Take;
    var n := RoundUp(size);
    assert size <= n < size + 8;
    var k := FirstFit(a.blocks, n);
    if size > 0 && k.Some? {
      var b := a.blocks[k.value];
      TakeGood(a.blocks, HEAP_START, HEAP_END, HEADER, k.value, n);
      TakeUsed(a.blocks, k.value, n, HEADER);
      TakeLive(a.blocks, k.value, n, HEADER);
      Count(a.blocks, k.value, n);
      var c := Block(b.addr, TakenSize(b, n), true);
      NotInUse(a.blocks, HEAP_START, HEAP_END, HEADER, k.value, c);
      InHeap(a.blocks, HEAP_START, HEAP_END, HEADER, k.value);
      Lowest(a.blocks, HEAP_START, HEAP_END, HEADER, n);
      assert c.used && Payload(c, HEADER) == Payload(b, HEADER);
      assert forall d :: d in a.blocks && !d.used && d.size >= size + 7 ==> c.addr <= d.addr;
    }
  }

  lemma Count(bs: Blocks, k: nat, n: nat)
    requires k < |bs| && bs[k].size >= n
    ensures |Take(bs, k, n, HEADER)| == |bs| + Split(bs[k], n)
  {
  }

  /** Sizes whose rounding wraps to 0 are the only ones that spoil the heap, and they do if the first free block
      is large enough to be split: a block of size 0 appears. */
  lemma MallocSaneIff(a: Heap, size: nat)
    requires Sane(a) && size < U64
    ensures GoodHeap(MallocStep(a, size).0.blocks) <==>
              size <= U64 - 8 || FirstFit(a.blocks, 0).None?
                  || a.blocks[FirstFit(a.blocks, 0).value].size < HEADER + MIN_REST
  {
    hide Bytes, UsedCount;
    if size <= U64 - 8 {
      MallocSane(a, size);
    } else {
      assert RoundUp(size) == 0;
      var k := FirstFit(a.blocks, 0);
      if k.Some? {
        ZeroTake(a.blocks, HEAP_START, HEAP_END, HEADER, k.value);
      }
    }
  }

  /** Freeing takes exactly that block out of use. */
  lemma FreeSane(a: Heap, k: nat)
    requires Sane(a) && k < |a.blocks|
    ensures Sane(FreeStep(a, k)) && Live(FreeStep(a, k).blocks) == Live(a.blocks) - {a.blocks[k]}
  {
    hide Bytes, UsedCount;
    if a.blocks[k].used {
      ReleaseGood(a.blocks, HEAP_START, HEAP_END, HEADER, k);
      FreedUsed(a.blocks, k);
      MergedUsed(a.blocks, k);
    }
  }

  lemma MergedUsed(bs: Blocks, k: nat)
    requires GoodHeap(bs) && k < |bs|
    ensures Bytes(Release(bs, k, HEADER), true) == Bytes(Freed(bs, k), true)
    ensures UsedCount(Release(bs, k, HEADER)) == UsedCount(Freed(bs, k))
  {
    UpUsed(Freed(bs, k), k);
    DownUsed(MergeUp(Freed(bs, k), k, HEADER), k);
  }

  lemma {:induction false} UpUsed(bs: Blocks, k: nat)
    requires k < |bs| && !bs[k].used
    ensures var us := MergeUp(bs, k, HEADER);
            k < |us| && !us[k].used && Bytes(us, true) == Bytes(bs, true) && UsedCount(us) == UsedCount(bs)
    decreases |bs|
  {
    hide Bytes, UsedCount;
    if k + 1 < |bs| && !bs[k + 1].used {
      SwallowUsed(bs, k, HEADER);
      SwallowAt(bs, k, HEADER, k);
      UpUsed(Swallow(bs, k, HEADER), k);
    }
  }

  lemma {:induction false} DownUsed(bs: Blocks, k: nat)
    requires k < |bs| && !bs[k].used
    ensures var ds := MergeDown(bs, k, HEADER); Bytes(ds, true) == Bytes(bs, true) && UsedCount(ds) == UsedCount(bs)
    decreases k
  {
    hide Bytes, UsedCount;
    if k > 0 && !bs[k - 1].used {
      SwallowUsed(bs, k - 1, HEADER);
      SwallowAt(bs, k - 1, HEADER, k - 1);
      DownUsed(Swallow(bs, k - 1, HEADER), k - 1);
    }
  }

  // ---------- runs ----------

  datatype Call = MallocCall(size: nat) | FreeCall(ptr: nat)

  function Apply(a: Heap, c: Call): Heap {
    match c
    case MallocCall(size) => MallocStep(a, size).0
    case FreeCall(ptr) => var k := FindPayload(a.blocks, ptr); if k.None? then a else FreeStep(a, k.value)
  }

  function RunCalls(a: Heap, cs: seq<Call>): Heap
    decreases |cs|
  {
    if cs == [] then a else RunCalls(Apply(a, cs[0]), cs[1..])
  }

  lemma {:induction false} RunSane(a: Heap, cs: seq<Call>)
    requires Sane(a) && forall i :: 0 <= i < |cs| && cs[i].MallocCall? ==> cs[i].size <= U64 - 8
    ensures Sane(RunCalls(a, cs))
    decreases |cs|
  {
    hide Sane;
    if cs != [] {
      match cs[0] {
        case MallocCall(size) =>
          MallocSane(a, size);
        case FreeCall(ptr) =>
          if FindPayload(a.blocks, ptr).Some? {
            FreeSane(a, FindPayload(a.blocks, ptr).value);
          }
      }
      RunSane(Apply(a, cs[0]), cs[1..]);
    }
  }

  lemma BootSane()
    ensures Sane(Boot())
  {
    Few(Boot().blocks[0], Boot().blocks[0]);
  }

  /** After any calls: the blocks tile the heap, no two free ones adjoin, and used, free and header bytes add up to
      it; with nothing in use the heap is as it was at boot. */
  lemma AlwaysSane(cs: seq<Call>)
    requires forall i :: 0 <= i < |cs| && cs[i].MallocCall? ==> cs[i].size <= U64 - 8
    ensures var a := RunCalls(Boot(), cs);
            && Sane(a) && Bytes(a.blocks, true) + Bytes(a.blocks, false) + HEADER * |a.blocks| == HEAP_SIZE
            && a.stats.free == Bytes(a.blocks, false) && (Live(a.blocks) == {} ==> a == Boot())
  {
    BootSane();
    RunSane(Boot(), cs);
    var a := RunCalls(Boot(), cs);
    Conserved(a.blocks, HEAP_START, HEAP_END, HEADER);
    FreeBytes(a.blocks, a.stats);
    if Live(a.blocks) == {} {
      NothingUsed(a.blocks, HEAP_START, HEAP_END, HEADER);
      Few(a.blocks[0], a.blocks[0]);
      assert a.blocks == [a.blocks[0]];
    }
  }

  // ---------- in place ----------

  function AddrAt(bs: Blocks, i: int): nat { if 0 <= i < |bs| then bs[i].addr else 0 }

  function HeaderOf(bs: Blocks, i: nat): Header
    requires i < |bs|
  {
    Header(bs[i].size, AddrAt(bs, i + 1), AddrAt(bs, i - 1), bs[i].used)
  }

  type Headers = map<nat, Header>

  ghost predicate HasHeader(hs: Headers, bs: Blocks, i: nat)
    requires i < |bs|
  {
    bs[i].addr in hs && hs[bs[i].addr] == HeaderOf(bs, i)
  }

  /** The headers in memory are those of the list. */
  ghost predicate Linked(hs: Headers, bs: Blocks) {
    forall i: nat :: i < |bs| ==> HasHeader(hs, bs, i)
  }

  lemma AddressesDiffer(bs: Blocks, i: nat, j: nat)
    requires GoodHeap(bs) && i < |bs| && j < |bs| && i != j
    ensures bs[i].addr != bs[j].addr
  {
    Apart(bs, HEAP_START, HEAP_END, HEADER, i, j);
  }

  /** No block starts inside another. */
  lemma InsideDiffers(bs: Blocks, k: nat, x: nat, i: nat)
    requires GoodHeap(bs) && k < |bs| && i < |bs| && bs[k].addr < x < Stop(bs[k], HEADER)
    ensures bs[i].addr != x
  {
    if i != k {
      Apart(bs, HEAP_START, HEAP_END, HEADER, i, k);
    }
  }

  /** The headers as `kmalloc` leaves them when block `k` is cut to `n` bytes. */
  function CutHeaders(hs: Headers, bs: Blocks, k: nat, n: nat): Headers
    requires k < |bs| && Splits(bs[k], n, HEADER) && (k + 1 < |bs| ==> bs[k + 1].addr in hs)
  {
    var a, rest := bs[k].addr, bs[k].addr + HEADER + n;
    var h1 := hs[rest := Header(bs[k].size - n - HEADER, AddrAt(bs, k + 1), a, false)];
    var h2 := if k + 1 < |bs| then h1[bs[k + 1].addr := hs[bs[k + 1].addr].(prev := rest)] else h1;
    h2[a := Header(n, rest, AddrAt(bs, k - 1), true)]
  }

  lemma CutLinked(hs: Headers, bs: Blocks, k: nat, n: nat)
    requires GoodHeap(bs) && Linked(hs, bs) && k < |bs| && Splits(bs[k], n, HEADER)
    ensures k + 1 < |bs| ==> HasHeader(hs, bs, k + 1)
    ensures Linked(CutHeaders(hs, bs, k, n), Take(bs, k, n, HEADER))
  {
    assert k + 1 < |bs| ==> HasHeader(hs, bs, k + 1);
    var ts, us := Take(bs, k, n, HEADER), CutHeaders(hs, bs, k, n);
    forall i: nat | i < |ts|
      ensures HasHeader(us, ts, i)
    {
      CutHeader(hs, bs, k, n, i);
    }
  }

  lemma CutLength(bs: Blocks, k: nat, n: nat)
    requires k < |bs| && Splits(bs[k], n, HEADER)
    ensures |Take(bs, k, n, HEADER)| == |bs| + 1
  {
  }

  lemma HeaderThere(hs: Headers, bs: Blocks, i: nat)
    requires Linked(hs, bs) && i < |bs|
    ensures HasHeader(hs, bs, i)
  {
  }

  lemma CutHeader(hs: Headers, bs: Blocks, k: nat, n: nat, i: nat)
    requires GoodHeap(bs) && Linked(hs, bs) && k < |bs| && Splits(bs[k], n, HEADER) && i < |bs| + 1
    requires k + 1 < |bs| ==> HasHeader(hs, bs, k + 1)
    ensures |Take(bs, k, n, HEADER)| == |bs| + 1 && HasHeader(CutHeaders(hs, bs, k, n), Take(bs, k, n, HEADER), i)
  {
    hide Take, Good, Linked;
    CutLength(bs, k, n);
    TakeAt(bs, k, n, HEADER, i);
    if i > 0 {
      TakeAt(bs, k, n, HEADER, i - 1);
    }
    if i < |bs| {
      TakeAt(bs, k, n, HEADER, i + 1);
    }
    if i < k || i > k + 1 {
      var j := if i < k then i else i - 1;
      HeaderThere(hs, bs, j);
      AddressesDiffer(bs, j, k);
      InsideDiffers(bs, k, bs[k].addr + HEADER + n, j);
      if j != k + 1 && k + 1 < |bs| {
        AddressesDiffer(bs, j, k + 1);
      }
    } else if k + 1 < |bs| {
      AddressesDiffer(bs, k, k + 1);
      InsideDiffers(bs, k, bs[k].addr + HEADER + n, k + 1);
    }
  }

  lemma WholeLinked(hs: Headers, bs: Blocks, k: nat, used: bool)
    requires GoodHeap(bs) && Linked(hs, bs) && k < |bs|
    ensures HasHeader(hs, bs, k)
    ensures Linked(hs[bs[k].addr := HeaderOf(bs, k).(used := used)], bs[k := bs[k].(used := used)])
  {
    assert HasHeader(hs, bs, k);
    var ts, us := bs[k := bs[k].(used := used)], hs[bs[k].addr := HeaderOf(bs, k).(used := used)];
    forall i: nat | i < |ts|
      ensures HasHeader(us, ts, i)
    {
      assert HasHeader(hs, bs, i);
      if i != k {
        AddressesDiffer(bs, i, k);
      }
    }
  }

  /** The headers when block `k` has swallowed the next one. The header of the one swallowed stays behind. */
  function SwallowHeaders(hs: Headers, bs: Blocks, k: nat): Headers
    requires k + 1 < |bs| && (k + 2 < |bs| ==> bs[k + 2].addr in hs)
  {
    var a := bs[k].addr;
    var h1 := hs[a := Header(bs[k].size + HEADER + bs[k + 1].size, AddrAt(bs, k + 2), AddrAt(bs, k - 1), bs[k].used)];
    if k + 2 < |bs| then h1[bs[k + 2].addr := hs[bs[k + 2].addr].(prev := a)] else h1
  }

  /** Tiling is all the links need; neighbours may be free while merging is under way. */
  ghost predicate Merging(bs: Blocks) { Tiles(bs, HEAP_START, HEAP_END, HEADER) && Sized(bs) }

  lemma MergingDiffer(bs: Blocks, i: nat, j: nat)
    requires Merging(bs) && i < |bs| && j < |bs| && i != j
    ensures bs[i].addr != bs[j].addr
  {
    Apart(bs, HEAP_START, HEAP_END, HEADER, i, j);
  }

  lemma SwallowLinked(hs: Headers, bs: Blocks, k: nat)
    requires Merging(bs) && Linked(hs, bs) && k + 1 < |bs|
    ensures HasHeader(hs, bs, k) && HasHeader(hs, bs, k + 1) && (k + 2 < |bs| ==> HasHeader(hs, bs, k + 2))
    ensures Linked(SwallowHeaders(hs, bs, k), Swallow(bs, k, HEADER))
  {
    assert HasHeader(hs, bs, k) && HasHeader(hs, bs, k + 1) && (k + 2 < |bs| ==> HasHeader(hs, bs, k + 2));
    forall i: nat | i < |bs| - 1
      ensures HasHeader(SwallowHeaders(hs, bs, k), Swallow(bs, k, HEADER), i)
    {
      SwallowHeader(hs, bs, k, i);
    }
  }

  lemma SwallowHeader(hs: Headers, bs: Blocks, k: nat, i: nat)
    requires Merging(bs) && Linked(hs, bs) && k + 1 < |bs| && i < |bs| - 1
    requires k + 2 < |bs| ==> HasHeader(hs, bs, k + 2)
    ensures HasHeader(SwallowHeaders(hs, bs, k), Swallow(bs, k, HEADER), i)
  {
    SwallowAt(bs, k, HEADER, i);
    if i > 0 {
      SwallowAt(bs, k, HEADER, i - 1);
    }
    if i + 1 < |bs| - 1 {
      SwallowAt(bs, k, HEADER, i + 1);
    }
    var j := if i <= k then i else i + 1;
    assert HasHeader(hs, bs, j);
    if j != k {
      MergingDiffer(bs, j, k);
    }
    if k + 2 < |bs| && j != k + 2 {
      MergingDiffer(bs, j, k + 2);
    }
  }

  // ---------- payload ----------

  /** Address `x` holds a byte of a block in use. */
  predicate InUse(live: set<Block>, x: nat) {
    exists b :: b in live && Payload(b, HEADER) <= x < Stop(b, HEADER)
  }

  /** The bytes in use did not change. */
  ghost predicate Kept(live: set<Block>, was: seq<Byte>, now: seq<Byte>) {
    |was| == |now| == HEAP_SIZE && forall x: nat :: x < HEAP_SIZE && InUse(live, HEAP_START + x) ==> now[x] == was[x]
  }

  /** A header of the list covers no byte in use; neither does one inside a free block. */
  lemma HeaderSafe(bs: Blocks, k: nat, a: nat, x: nat)
    requires Merging(bs) && k < |bs| && InUse(Live(bs), x)
    requires a == bs[k].addr || (!bs[k].used && bs[k].addr <= a && a + HEADER <= Stop(bs[k], HEADER))
    ensures !(a <= x < a + HEADER)
  {
    var b :| b in Live(bs) && Payload(b, HEADER) <= x < Stop(b, HEADER);
    var i: nat :| i < |bs| && bs[i] == b;
    if i != k {
      Apart(bs, HEAP_START, HEAP_END, HEADER, i, k);
    }
  }

  class KernelHeap {
    var headers: Headers
    const mem: array<Byte>
    var stats: Stats
    ghost var blocks: Blocks

    ghost predicate Valid()
      reads this
    {
      mem.Length == HEAP_SIZE && GoodHeap(blocks) && Linked(headers, blocks)
    }

    ghost function View(): Heap
      reads this
    {
      Heap(blocks, stats)
    }

    /** `kheap_init`. */
    constructor ()
      ensures Valid() && View() == Boot() && fresh(mem)
    {
      headers := map[HEAP_START := Header(HEAP_SIZE - HEADER, 0, 0, false)];
      mem := new Byte[HEAP_SIZE](_ => 0);
      stats, blocks := Boot().stats, Boot().blocks;
    }

    /** A header is written: its place in memory holds nobody's bytes any more. */
    method Store(a: nat, hd: Header)
      requires mem.Length == HEAP_SIZE && HEAP_START <= a && a + HEADER <= HEAP_END
      modifies this`headers, mem
      ensures headers == old(headers)[a := hd]
      ensures forall x: nat :: x < HEAP_SIZE && !(a <= HEAP_START + x < a + HEADER) ==> mem[..][x] == old(mem[..])[x]
    {
      headers := headers[a := hd];
      var junk: seq<Byte> := *;
      forall i | 0 <= i < HEADER && i < |junk| {
        mem[a - HEAP_START + i] := junk[i];
      }
    }

    /** A header of block `k`, or one in the middle of it if it is free, is written. */
    method StoreIn(ghost bs: Blocks, ghost k: nat, a: nat, hd: Header)
      requires mem.Length == HEAP_SIZE && Merging(bs) && k < |bs|
      requires a == bs[k].addr || (!bs[k].used && bs[k].addr <= a && a + HEADER <= Stop(bs[k], HEADER))
      modifies this`headers, mem
      ensures headers == old(headers)[a := hd] && Kept(Live(bs), old(mem[..]), mem[..])
    {
      InHeap(bs, HEAP_START, HEAP_END, HEADER, k);
      Store(a, hd);
      forall x: nat | x < HEAP_SIZE && InUse(Live(bs), HEAP_START + x)
        ensures mem[..][x] == old(mem[..])[x]
      {
        HeaderSafe(bs, k, a, HEAP_START + x);
      }
    }

    /** The search of `kmalloc`: the index and address of the first block that fits. */
    method Search(n: nat) returns (a: nat, ghost k: nat)
      requires Valid()
      ensures a == 0 <==> FirstFit(blocks, n).None?
      ensures a != 0 ==> FirstFit(blocks, n) == Some(k) && k < |blocks| && blocks[k].addr == a
    {
      IsMerging(blocks);
      a, k := HEAP_START, 0;
      while a != 0
        invariant k <= |blocks| && a == AddrAt(blocks, k)
        invariant forall i :: 0 <= i < k ==> !Fits(blocks[i], n)
        decreases |blocks| - k
      {
        Nonzero(blocks, k);
        HeaderThere(headers, blocks, k);
        if !headers[a].used && headers[a].size >= n {
          FitIs(blocks, n, k);
          return;
        }
        a := headers[a].next;
        k := k + 1;
        if k < |blocks| {
          Nonzero(blocks, k);
        }
      }
      if k < |blocks| {
        Nonzero(blocks, k);
      }
    }

    /** `kmalloc`: every byte in use stays. */
    method KMalloc(size: nat) returns (ptr: nat, ghost c: Block)
      requires Valid() && size < U64 - 7
      modifies this, mem
      ensures Valid() && (View(), ptr) == MallocStep(old(View()), size)
      ensures ptr == 0 ==> View() == old(View())
      ensures ptr != 0 ==>
                c !in Live(old(blocks)) && Payload(c, HEADER) == ptr && c.size >= size
                && Live(blocks) == Live(old(blocks)) + {c}
      ensures Kept(Live(old(blocks)), old(mem[..]), mem[..])
    {
      hide Good, Take, CutHeaders, Kept;
      c := Block(0, 0, false);
      KeptSame(Live(blocks), mem[..]);
      if size == 0 {
        return 0, c;
      }
      var n := RoundUp(size);
      ghost var k;
      var best;
      best, k := Search(n);
      if best == 0 {
        return 0, c;
      }
      c := Block(best, TakenSize(blocks[k], n), true);
      IsMerging(blocks);
      NotInUse(blocks, HEAP_START, HEAP_END, HEADER, k, c);
      TakeLive(blocks, k, n, HEADER);
      TakeGood(blocks, HEAP_START, HEAP_END, HEADER, k, n);
      HeaderThere(headers, blocks, k);
      var taken := headers[best].size;
      if headers[best].size >= n + HEADER + MIN_REST {
        Cut(best, k, n);
        taken := n;
      } else {
        Whole(best, k, n);
      }
      stats := Stats(stats.total, stats.used + taken, stats.free - taken, stats.blocks, stats.usedBlocks + 1);
      return best + HEADER, c;
    }

    /** The split of `kmalloc`. */
    method Cut(best: nat, ghost k: nat, n: nat)
      requires Valid() && k < |blocks| && blocks[k].addr == best && !blocks[k].used && Splits(blocks[k], n, HEADER)
      requires GoodHeap(Take(blocks, k, n, HEADER))
      modifies this, mem
      ensures Valid() && blocks == Take(old(blocks), k, n, HEADER) && Kept(Live(old(blocks)), old(mem[..]), mem[..])
      ensures stats == old(stats).(blocks := old(stats.blocks) + 1, free := old(stats.free) - HEADER)
    {
      hide Good, Take, Kept;
      ghost var bs, hs, m0 := blocks, headers, mem[..];
      IsMerging(bs);
      CutLinked(hs, bs, k, n);
      HeaderThere(hs, bs, k);
      var rest := best + HEADER + n;
      var hd := headers[best];
      StoreIn(bs, k, rest, Header(hd.size - n - HEADER, hd.next, best, false));
      ghost var m1 := mem[..];
      if hd.next != 0 {
        NextIs(bs, k);
        InsideDiffers(bs, k, rest, k + 1);
        StoreIn(bs, k + 1, hd.next, headers[hd.next].(prev := rest));
      }
      ghost var m2 := mem[..];
      NextIs(bs, k);
      StoreIn(bs, k, best, Header(n, rest, hd.prev, true));
      KeptThree(Live(bs), m0, m1, m2, mem[..]);
      stats := stats.(blocks := stats.blocks + 1, free := stats.free - HEADER);
      blocks := Take(bs, k, n, HEADER);
    }

    /** A block that is taken whole. */
    method Whole(best: nat, ghost k: nat, n: nat)
      requires Valid() && k < |blocks| && blocks[k].addr == best && Fits(blocks[k], n) && !Splits(blocks[k], n, HEADER)
      requires GoodHeap(Take(blocks, k, n, HEADER))
      modifies this`headers, this`blocks, mem
      ensures Valid() && blocks == Take(old(blocks), k, n, HEADER) && Kept(Live(old(blocks)), old(mem[..]), mem[..])
    {
      hide Good, Kept;
      ghost var bs := blocks;
      IsMerging(bs);
      WholeLinked(headers, bs, k, true);
      StoreIn(bs, k, best, headers[best].(used := true));
      blocks := bs[k := bs[k].(used := true)];
      assert blocks == Take(bs, k, n, HEADER);
    }

    /** Block `k` swallows the next one; both are free. */
    method SwallowNext(cur: nat, ghost k: nat)
      requires mem.Length == HEAP_SIZE && Merging(blocks) && Linked(headers, blocks)
      requires k + 1 < |blocks| && blocks[k].addr == cur && !blocks[k].used && !blocks[k + 1].used
      modifies this, mem
      ensures blocks == Swallow(old(blocks), k, HEADER) && Merging(blocks) && Linked(headers, blocks)
      ensures Live(blocks) == Live(old(blocks)) && Kept(Live(blocks), old(mem[..]), mem[..])
      ensures stats == old(stats).(blocks := old(stats.blocks) - 1, free := old(stats.free) + HEADER)
      ensures k < |blocks| && blocks[k].addr == cur && !blocks[k].used
    {
      hide Swallow, Kept, Merging, Linked;
      ghost var bs, hs, m0 := blocks, headers, mem[..];
      SwallowMerging(bs, k);
      SwallowLinked(hs, bs, k);
      SwallowLive(bs, k, HEADER);
      SwallowAt(bs, k, HEADER, k);
      var hd, nx := headers[cur], headers[headers[cur].next];
      StoreIn(bs, k, cur, Header(hd.size + HEADER + nx.size, nx.next, hd.prev, hd.used));
      ghost var m1 := mem[..];
      NextIs(bs, k + 1);
      KeptSame(Live(bs), m1);
      if nx.next != 0 {
        MergingDiffer(bs, k, k + 2);
        StoreIn(bs, k + 2, nx.next, headers[nx.next].(prev := cur));
      }
      KeptThree(Live(bs), m0, m0, m1, mem[..]);
      stats := stats.(blocks := stats.blocks - 1, free := stats.free + HEADER);
      blocks := Swallow(bs, k, HEADER);
    }

    /** `kheap_merge_free_blocks`. */
    method MergeFree(block: nat, ghost k: nat)
      requires mem.Length == HEAP_SIZE && Merging(blocks) && Linked(headers, blocks)
      requires k < |blocks| && blocks[k].addr == block && !blocks[k].used
      modifies this, mem
      ensures Linked(headers, blocks) && blocks == MergeDown(MergeUp(old(blocks), k, HEADER), k, HEADER)
      ensures Kept(Live(old(blocks)), old(mem[..]), mem[..])
      ensures var gone := |old(blocks)| - |blocks|;
              stats == old(stats).(blocks := old(stats.blocks) - gone, free := old(stats.free) + HEADER * gone)
    {
      hide Kept, Merging, Linked;
      ghost var live := Live(blocks);
      KeptSame(live, mem[..]);
      var cur := block;
      NextLink(headers, blocks, k);
      while headers[cur].next != 0 && !headers[headers[cur].next].used
        invariant Merging(blocks) && Linked(headers, blocks) && Live(blocks) == live
                  && Kept(live, old(mem[..]), mem[..])
        invariant k < |blocks| && blocks[k].addr == cur && !blocks[k].used && NextLinked(headers, blocks, k)
        invariant MergeUp(blocks, k, HEADER) == MergeUp(old(blocks), k, HEADER)
        invariant Shrunk(old(stats), |old(blocks)|, stats, |blocks|)
        decreases |blocks|
      {
        ghost var m, st, n := mem[..], stats, |blocks|;
        SwallowNext(cur, k);
        KeptThree(live, old(mem[..]), m, m, mem[..]);
        NextLink(headers, blocks, k);
      }
      ghost var j: nat := k;
      while headers[cur].prev != 0 && !headers[headers[cur].prev].used
        invariant Merging(blocks) && Linked(headers, blocks) && Live(blocks) == live
                  && Kept(live, old(mem[..]), mem[..])
        invariant j < |blocks| && blocks[j].addr == cur && !blocks[j].used && NextLinked(headers, blocks, j)
        invariant MergeDown(blocks, j, HEADER) == MergeDown(MergeUp(old(blocks), k, HEADER), k, HEADER)
        invariant Shrunk(old(stats), |old(blocks)|, stats, |blocks|)
        decreases j
      {
        ghost var m := mem[..];
        cur := headers[cur].prev;
        SwallowNext(cur, j - 1);
        KeptThree(live, old(mem[..]), m, m, mem[..]);
        j := j - 1;
        NextLink(headers, blocks, j);
      }
    }

    /** `kfree`: every byte in use stays, except those of the block that is freed. */
    method KFree(ptr: nat)
      requires Valid() && (ptr == 0 || FindPayload(blocks, ptr).Some?)
      modifies this, mem
      ensures Valid()
      ensures View() == if ptr == 0 then old(View()) else FreeStep(old(View()), FindPayload(old(blocks), ptr).value)
      ensures Live(blocks) == Live(old(blocks)) - (if ptr == 0 then {}
              else {old(blocks)[FindPayload(old(blocks), ptr).value]})
      ensures Kept(Live(blocks), old(mem[..]), mem[..])
    {
      hide Good, Kept, Merging, Linked, MergeUp, MergeDown;
      ghost var bs := blocks;
      KeptSame(Live(blocks), mem[..]);
      if ptr == 0 {
        return;
      }
      ghost var k := FindPayload(blocks, ptr).value;
      var a := ptr - HEADER;
      HeaderThere(headers, blocks, k);
      if !headers[a].used {
        return;
      }
      var size := headers[a].size;
      IsMerging(bs);
      FreedMerging(bs, k);
      WholeLinked(headers, bs, k, false);
      StoreIn(bs, k, a, headers[a].(used := false));
      ghost var m := mem[..];
      blocks := Freed(bs, k);
      stats := Stats(stats.total, stats.used - size, stats.free + size, stats.blocks, stats.usedBlocks - 1);
      MergeFree(a, k);
      ReleaseGood(bs, HEAP_START, HEAP_END, HEADER, k);
      FreedLiveOf(bs, k);
      KeptSome(Live(bs), Live(Freed(bs, k)), old(mem[..]), m);
      KeptThree(Live(Freed(bs, k)), old(mem[..]), m, m, mem[..]);
    }

    /** `memcpy` between two payloads. */
    method Copy(from: nat, to: nat, n: nat)
      requires mem.Length == HEAP_SIZE && HEAP_START <= from && from + n <= HEAP_END && HEAP_START <= to
               && to + n <= HEAP_END
      requires from + n <= to || to + n <= from
      modifies mem
      ensures SameBytes(old(mem[..]), from, mem[..], to, n)
      ensures forall x: nat :: x < HEAP_SIZE && !(to <= HEAP_START + x < to + n) ==> mem[..][x] == old(mem[..])[x]
    {
      forall i | 0 <= i < n {
        mem[to - HEAP_START + i] := mem[from - HEAP_START + i];
      }
    }

    /** `krealloc`: of null it is `kmalloc`, to size 0 it is `kfree`. */
    method KRealloc(ptr: nat, size: nat) returns (r: nat)
      requires Valid() && size < U64 - 7
               && (ptr != 0 ==> FindPayload(blocks, ptr).Some? && blocks[FindPayload(blocks, ptr).value].used)
      modifies this, mem
      ensures Valid()
      ensures ptr == 0 ==> (View(), r) == MallocStep(old(View()), size)
      ensures ptr != 0 && size == 0 ==> r == 0 && View() == FreeStep(old(View()), FindPayload(old(blocks), ptr).value)
      ensures ptr != 0 && size > 0 && r == 0 ==> View() == old(View())
      ensures ptr != 0 && size > 0 && r != 0 ==>
        exists c0, c1 :: c0 in Live(old(blocks)) && Resized(c0, c1, ptr, r, size)
            && Live(blocks) == Live(old(blocks)) - {c0} + {c1}
                         && SameBytes(old(mem[..]), ptr, mem[..], r, c0.size)
                            && Kept(Live(blocks) - {c1}, old(mem[..]), mem[..])
    {
      ghost var c0, c1;
      hide Good, Kept, Merging, Linked, MallocStep, FreeStep, Sane, SameBytes;
      if ptr == 0 {
        r, c1 := KMalloc(size);
      } else if size == 0 {
        KFree(ptr);
        r := 0;
      } else {
        r, c0, c1 := Resize(ptr, size);
      }
    }

    /** `krealloc` of a block in use, to a size that is not 0: in place if the block `c0` is large enough, else in a
        new block `c1`, with the old contents; everything else in use stays. */
    method Resize(ptr: nat, size: nat) returns (r: nat, ghost c0: Block, ghost c1: Block)
      requires Valid() && 0 < size < U64 - 7 && FindPayload(blocks, ptr).Some?
               && blocks[FindPayload(blocks, ptr).value].used
      modifies this, mem
      ensures Valid() && c0 in Live(old(blocks)) && Payload(c0, HEADER) == ptr
      ensures r == 0 ==> View() == old(View()) && Kept(Live(blocks), old(mem[..]), mem[..])
      ensures r != 0 ==> Resized(c0, c1, ptr, r, size) && Live(blocks) == Live(old(blocks)) - {c0} + {c1}
      ensures r != 0 ==> SameBytes(old(mem[..]), ptr, mem[..], r, c0.size)
      ensures r != 0 ==> Kept(Live(blocks) - {c1}, old(mem[..]), mem[..])
    {
      hide Good, Kept, Merging, Linked, MallocStep, FreeStep, Sane, SameBytes;
      ghost var bs, m0 := blocks, mem[..];
      ghost var k := FindPayload(blocks, ptr).value;
      c0 := bs[k];
      HeaderThere(headers, blocks, k);
      PayloadInside(bs, k);
      var have := headers[ptr - HEADER].size;
      if size <= have {
        KeptSame(Live(blocks) - {c0}, m0);
        SameBytesSelf(m0, ptr, have);
        return ptr, c0, c0;
      }
      r, c1 := KMalloc(size);
      if r == 0 {
        return r, c0, c1;
      }
      ghost var m1, mid := mem[..], blocks;
      ghost var i, j := PlaceOf(mid, c0), PlaceOf(mid, c1);
      PayloadInside(mid, i);
      PayloadInside(mid, j);
      BlocksApart(mid, c0, c1);
      Copy(ptr, r, have);
      ghost var m2 := mem[..];
      KFreeOf(mid, c0);
      KFree(ptr);
      CopiedKept(bs, mid, c0, c1, m0, m1, m2, mem[..], have);
    }
  }

  lemma KeptSame(live: set<Block>, m: seq<Byte>)
    requires |m| == HEAP_SIZE
    ensures Kept(live, m, m)
  {
  }

  lemma KeptThree(live: set<Block>, a: seq<Byte>, b: seq<Byte>, c: seq<Byte>, d: seq<Byte>)
    requires Kept(live, a, b) && (c == b || Kept(live, b, c)) && Kept(live, c, d)
    ensures Kept(live, a, d)
  {
  }

  lemma IsMerging(bs: Blocks)
    requires GoodHeap(bs)
    ensures Merging(bs)
  {
  }

  lemma Nonzero(bs: Blocks, k: nat)
    requires Merging(bs)
    ensures k < |bs| ==> bs[k].addr != 0
    ensures AddrAt(bs, k) == 0 <==> k >= |bs|
    ensures AddrAt(bs, 0) == HEAP_START
  {
    if k < |bs| {
      InHeap(bs, HEAP_START, HEAP_END, HEADER, k);
    }
  }

  /** The next pointer is null exactly at the end. */
  lemma NextIs(bs: Blocks, k: nat)
    requires Merging(bs) && k < |bs|
    ensures AddrAt(bs, k + 1) != 0 <==> k + 1 < |bs|
  {
    Nonzero(bs, k + 1);
  }

  lemma FitIs(bs: Blocks, n: nat, k: nat)
    requires k < |bs| && Fits(bs[k], n) && forall i :: 0 <= i < k ==> !Fits(bs[i], n)
    ensures FirstFit(bs, n) == Some(k)
  {
    var r := FirstFit(bs, n);
    assert r.Some?;
  }

  /** Counters after merging: each block that goes gives its header back. */
  ghost predicate Shrunk(was: Stats, n: nat, now: Stats, m: nat) {
    now == was.(blocks := was.blocks - (n - m), free := was.free + HEADER * (n - m))
  }

  lemma SwallowMerging(bs: Blocks, k: nat)
    requires Merging(bs) && k + 1 < |bs| && !bs[k].used && !bs[k + 1].used
    ensures Merging(Swallow(bs, k, HEADER))
  {
    SwallowGood(bs, HEAP_START, HEAP_END, HEADER, k);
  }

  lemma FreedMerging(bs: Blocks, k: nat)
    requires GoodHeap(bs) && k < |bs|
    ensures Merging(Freed(bs, k)) && k < |Freed(bs, k)| && Freed(bs, k)[k].addr == bs[k].addr && !Freed(bs, k)[k].used
  {
    FreedGood(bs, HEAP_START, HEAP_END, HEADER, k);
  }

  lemma FreedLiveOf(bs: Blocks, k: nat)
    requires GoodHeap(bs) && k < |bs| && bs[k].used
    ensures Live(Freed(bs, k)) == Live(bs) - {bs[k]}
  {
    FreedLive(bs, HEAP_START, HEAP_END, HEADER, k);
  }

  /** What the merging loops read: the block and its neighbours, if there are any. */
  ghost predicate NextLinked(hs: Headers, bs: Blocks, k: nat)
    requires k < |bs|
  {
    && HasHeader(hs, bs, k) && (k + 1 < |bs| ==> HasHeader(hs, bs, k + 1)) && (k > 0 ==> HasHeader(hs, bs, k - 1))
    && (AddrAt(bs, k + 1) != 0 <==> k + 1 < |bs|) && (AddrAt(bs, k - 1) != 0 <==> k > 0)
  }

  lemma NextLink(hs: Headers, bs: Blocks, k: nat)
    requires Merging(bs) && Linked(hs, bs) && k < |bs|
    ensures NextLinked(hs, bs, k)
  {
    HeaderThere(hs, bs, k);
    if k + 1 < |bs| {
      HeaderThere(hs, bs, k + 1);
    }
    NextIs(bs, k);
    if k > 0 {
      HeaderThere(hs, bs, k - 1);
      Nonzero(bs, k - 1);
    }
  }

  /** Block `c0` with payload `ptr` was replaced by `c1` with payload `r` of at least `size` bytes. */
  predicate Resized(c0: Block, c1: Block, ptr: nat, r: nat, size: nat) {
    && Payload(c0, HEADER) == ptr && Payload(c1, HEADER) == r && c1.size >= size && c0.size <= c1.size
    && InBounds(ptr, c0.size) && InBounds(r, c0.size)
  }

  predicate InBounds(a: nat, n: nat) { HEAP_START <= a && a + n <= HEAP_END }

  /** `n` bytes from `to` on are now what those from `from` on were. */
  ghost predicate SameBytes(was: seq<Byte>, from: nat, now: seq<Byte>, to: nat, n: nat)
    requires |was| == |now| == HEAP_SIZE && InBounds(from, n) && InBounds(to, n)
  {
    now[to - HEAP_START..to - HEAP_START + n] == was[from - HEAP_START..from - HEAP_START + n]
  }

  lemma SameBytesSelf(m: seq<Byte>, a: nat, n: nat)
    requires |m| == HEAP_SIZE && InBounds(a, n)
    ensures SameBytes(m, a, m, a, n)
  {
  }

  lemma KeptSome(live: set<Block>, some: set<Block>, was: seq<Byte>, now: seq<Byte>)
    requires Kept(live, was, now) && some <= live
    ensures Kept(some, was, now)
  {
  }

  lemma PayloadInside(bs: Blocks, k: nat)
    requires GoodHeap(bs) && k < |bs|
    ensures InBounds(Payload(bs[k], HEADER), bs[k].size)
  {
    InHeap(bs, HEAP_START, HEAP_END, HEADER, k);
  }

  ghost function PlaceOf(bs: Blocks, b: Block): (i: nat)
    requires b in Live(bs)
    ensures i < |bs| && bs[i] == b
  {
    var i: nat :| i < |bs| && bs[i] == b; i
  }

  /** A payload address names its block. */
  lemma KFreeOf(bs: Blocks, c: Block)
    requires GoodHeap(bs) && c in Live(bs)
    ensures var k := FindPayload(bs, Payload(c, HEADER)); k.Some? && bs[k.value] == c
  {
    var i := PlaceOf(bs, c);
    var k := FindPayload(bs, Payload(c, HEADER));
    assert Payload(bs[i], HEADER) == Payload(c, HEADER);
    if k.value != i {
      AddressesDiffer(bs, k.value, i);
    }
  }

  /** The bytes that were in use and still are have survived allocation, copy and release; the new block holds
      the old contents. */
  lemma CopiedKept(bs: Blocks, mid: Blocks, c0: Block, c1: Block, m0: seq<Byte>, m1: seq<Byte>, m2: seq<Byte>,
      m3: seq<Byte>, n: nat)
    requires GoodHeap(mid) && c0 in Live(bs) && c1 !in Live(bs) && Live(mid) == Live(bs) + {c1} && c0 != c1
             && n == c0.size <= c1.size
    requires InBounds(Payload(c0, HEADER), n) && InBounds(Payload(c1, HEADER), n)
    requires Kept(Live(bs), m0, m1) && |m2| == |m1| && Kept(Live(mid) - {c0}, m2, m3)
    requires SameBytes(m1, Payload(c0, HEADER), m2, Payload(c1, HEADER), n)
    requires forall x: nat :: x < HEAP_SIZE && !(Payload(c1, HEADER) <= HEAP_START + x < Payload(c1, HEADER) + n) ==>
             m2[x] == m1[x]
    ensures SameBytes(m0, Payload(c0, HEADER), m3, Payload(c1, HEADER), n)
    ensures Kept(Live(bs) - {c0} + {c1} - {c1}, m0, m3)
  {
    hide Good;
    var now := m3[Payload(c1, HEADER) - HEAP_START..Payload(c1, HEADER) - HEAP_START + n];
    var was := m0[Payload(c0, HEADER) - HEAP_START..Payload(c0, HEADER) - HEAP_START + n];
    forall i: nat | i < n
      ensures now[i] == was[i]
    {
      var x, y := Payload(c1, HEADER) - HEAP_START + i, Payload(c0, HEADER) - HEAP_START + i;
      assert c1 in Live(mid) - {c0} && InUse(Live(mid) - {c0}, HEAP_START + x);
      assert InUse(Live(bs), HEAP_START + y);
      assert m2[x] == m2[Payload(c1, HEADER) - HEAP_START..Payload(c1, HEADER) - HEAP_START + n][i];
      assert m1[y] == m1[Payload(c0, HEADER) - HEAP_START..Payload(c0, HEADER) - HEAP_START + n][i];
    }
    var rest := Live(bs) - {c0} + {c1} - {c1};
    forall x: nat | x < HEAP_SIZE && InUse(rest, HEAP_START + x)
      ensures m3[x] == m0[x]
    {
      var b :| b in rest && Payload(b, HEADER) <= HEAP_START + x < Stop(b, HEADER);
      BlocksApart(mid, b, c1);
      assert InUse(Live(mid) - {c0}, HEAP_START + x) && InUse(Live(bs), HEAP_START + x);
    }
  }

  lemma BlocksApart(bs: Blocks, b: Block, c: Block)
    requires GoodHeap(bs) && b in Live(bs) && c in Live(bs) && b != c
    ensures Stop(b, HEADER) <= c.addr || Stop(c, HEADER) <= b.addr
  {
    Apart(bs, HEAP_START, HEAP_END, HEADER, PlaceOf(bs, b), PlaceOf(bs, c));
  }
}
