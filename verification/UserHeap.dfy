/** The C library's heap: one arena, blocks linked forward only, a sweep over the whole list on every free. */
module UserHeap {
  import opened Layout
  import opened HeapBlocks

  const HEADER: nat := 24
  const ARENA_SIZE: nat := 8 * 1024 * 1024

  /** `block_t`; null is 0. */
  datatype Header = Header(size: nat, next: nat, free: bool)
  type Headers = map<nat, Header>

  /** `align_size`, on 64-bit words. */
  function RoundUp(size: nat): nat { (size + 15) % U64 / 16 * 16 }

  predicate GoodArena(bs: Blocks, arena: nat) { Good(bs, arena, arena + ARENA_SIZE, HEADER) }

  /** Sizes whose rounding wraps to 0 are the only ones that spoil the arena, and they do if the first free block is
      large enough to be split. */
  lemma MallocSaneIff(bs: Blocks, arena: nat, size: nat)
    requires GoodArena(bs, arena) && 0 < size < U64 && FirstFit(bs, RoundUp(size)).Some?
    ensures var k := FirstFit(bs, RoundUp(size)).value;
            GoodArena(Take(bs, k, RoundUp(size), HEADER), arena) <==> size <= U64 - 16 || bs[k].size < HEADER + MIN_REST
  {
    hide Good;
    var n := RoundUp(size);
    var k := FirstFit(bs, n).value;
    if size <= U64 - 16 {
      assert size <= n && n % 16 == 0;
      TakeGood(bs, arena, arena + ARENA_SIZE, HEADER, k, n);
    } else {
      assert n == 0;
      ZeroTake(bs, arena, arena + ARENA_SIZE, HEADER, k);
    }
  }

  function AddrAt(bs: Blocks, i: int): nat { if 0 <= i < |bs| then bs[i].addr else 0 }

  ghost predicate HasHeader(hs: Headers, bs: Blocks, i: nat)
    requires i < |bs|
  {
    bs[i].addr in hs && hs[bs[i].addr] == Header(bs[i].size, AddrAt(bs, i + 1), !bs[i].used)
  }

  ghost predicate Linked(hs: Headers, bs: Blocks) {
    forall i: nat :: i < |bs| ==> HasHeader(hs, bs, i)
  }

  lemma HeaderThere(hs: Headers, bs: Blocks, i: nat)
    requires Linked(hs, bs) && i < |bs|
    ensures HasHeader(hs, bs, i)
  {
  }

  ghost predicate Merging(bs: Blocks, arena: nat) {
    arena > 0 && Tiles(bs, arena, arena + ARENA_SIZE, HEADER) && Sized(bs)
  }

  lemma IsMerging(bs: Blocks, arena: nat)
    requires arena > 0 && GoodArena(bs, arena)
    ensures Merging(bs, arena) && bs != [] && bs[0].addr == arena
  {
  }

  lemma Differ(bs: Blocks, arena: nat, i: nat, j: nat)
    requires Merging(bs, arena) && i < |bs| && j < |bs| && i != j
    ensures bs[i].addr != bs[j].addr
  {
    Apart(bs, arena, arena + ARENA_SIZE, HEADER, i, j);
  }

  lemma Null(bs: Blocks, arena: nat, i: nat)
    requires Merging(bs, arena)
    ensures AddrAt(bs, i) == 0 <==> i >= |bs|
  {
    if i < |bs| {
      InHeap(bs, arena, arena + ARENA_SIZE, HEADER, i);
    }
  }

  /** `split_block` and the mark. */
  function TakeHeaders(hs: Headers, bs: Blocks, k: nat, n: nat): Headers
    requires k < |bs| && bs[k].size >= n
  {
    var a, rest := bs[k].addr, bs[k].addr + HEADER + n;
    if Splits(bs[k], n, HEADER) then
      hs[rest := Header(bs[k].size - n - HEADER, AddrAt(bs, k + 1), true)][a := Header(n, rest, false)]
    else hs[a := Header(bs[k].size, AddrAt(bs, k + 1), false)]
  }

  lemma TakeHeader(hs: Headers, bs: Blocks, arena: nat, k: nat, n: nat, i: nat)
    requires Merging(bs, arena) && Linked(hs, bs) && k < |bs| && Fits(bs[k], n) && i < |Take(bs, k, n, HEADER)|
    ensures HasHeader(TakeHeaders(hs, bs, k, n), Take(bs, k, n, HEADER), i)
  {
    hide Linked, Merging;
    var ts := Take(bs, k, n, HEADER);
    TakeAt(bs, k, n, HEADER, i);
    if i + 1 < |ts| {
      TakeAt(bs, k, n, HEADER, i + 1);
    }
    var d := if Splits(bs[k], n, HEADER) then 1 else 0;
    if i < k || i > k + d {
      var j := if i < k then i else i - d;
      HeaderThere(hs, bs, j);
      Differ(bs, arena, j, k);
      NotInside(bs, arena, k, bs[k].addr + HEADER + n, j);
    }
  }

  lemma NotInside(bs: Blocks, arena: nat, k: nat, x: nat, i: nat)
    requires Merging(bs, arena) && k < |bs| && i < |bs| && i != k
    ensures !(bs[k].addr < bs[i].addr && bs[i].addr == x && x < Stop(bs[k], HEADER))
  {
    Apart(bs, arena, arena + ARENA_SIZE, HEADER, i, k);
  }

  lemma TakeLinked(hs: Headers, bs: Blocks, arena: nat, k: nat, n: nat)
    requires Merging(bs, arena) && Linked(hs, bs) && k < |bs| && Fits(bs[k], n)
    ensures Linked(TakeHeaders(hs, bs, k, n), Take(bs, k, n, HEADER))
  {
    var ts, us := Take(bs, k, n, HEADER), TakeHeaders(hs, bs, k, n);
    forall i: nat | i < |ts|
      ensures HasHeader(us, ts, i)
    {
      TakeHeader(hs, bs, arena, k, n, i);
    }
  }

  lemma FreedLinked(hs: Headers, bs: Blocks, arena: nat, k: nat)
    requires Merging(bs, arena) && Linked(hs, bs) && k < |bs|
    ensures bs[k].addr in hs && Linked(hs[bs[k].addr := hs[bs[k].addr].(free := true)], Freed(bs, k))
    ensures Merging(Freed(bs, k), arena)
  {
    HeaderThere(hs, bs, k);
    var fs, us := Freed(bs, k), hs[bs[k].addr := hs[bs[k].addr].(free := true)];
    forall i: nat | i < |fs|
      ensures HasHeader(us, fs, i)
    {
      HeaderThere(hs, bs, i);
      if i != k {
        Differ(bs, arena, i, k);
      }
    }
  }

  lemma SwallowLinked(hs: Headers, bs: Blocks, arena: nat, k: nat)
    requires Merging(bs, arena) && Linked(hs, bs) && k + 1 < |bs| && !bs[k].used && !bs[k + 1].used
    ensures Merging(Swallow(bs, k, HEADER), arena)
    ensures Linked(hs[bs[k].addr := Header(bs[k].size + HEADER + bs[k + 1].size, AddrAt(bs, k + 2), true)],
            Swallow(bs, k, HEADER))
  {
    SwallowGood(bs, arena, arena + ARENA_SIZE, HEADER, k);
    var ms, us := Swallow(bs, k, HEADER),
        hs[bs[k].addr := Header(bs[k].size + HEADER + bs[k + 1].size, AddrAt(bs, k + 2), true)];
    forall i: nat | i < |ms|
      ensures HasHeader(us, ms, i)
    {
      SwallowAt(bs, k, HEADER, i);
      if i + 1 < |ms| {
        SwallowAt(bs, k, HEADER, i + 1);
      }
      if i != k {
        HeaderThere(hs, bs, if i < k then i else i + 1);
        Differ(bs, arena, if i < k then i else i + 1, k);
      }
    }
  }

  /** The block whose payload starts at `pointer`. */
  ghost predicate Names(bs: Blocks, pointer: nat, k: nat) {
    k < |bs| && Payload(bs[k], HEADER) == pointer
  }

  class Arena {
    const arena: nat
    var headers: Headers
    ghost var blocks: Blocks

    ghost predicate Valid()
      reads this
    {
      arena > 0 && GoodArena(blocks, arena) && Linked(headers, blocks)
    }

    /** `heap_init` with the arena that `mmap` returned. */
    constructor (base: nat)
      requires base > 0
      ensures Valid() && blocks == [Block(base, ARENA_SIZE - HEADER, false)]
    {
      arena := base;
      headers := map[base := Header(ARENA_SIZE - HEADER, 0, true)];
      blocks := [Block(base, ARENA_SIZE - HEADER, false)];
    }

    /** `malloc`: first fit. The block in use that it adds is apart from all others; it fails only for size 0 or if
        nothing fits. */
    method Malloc(size: nat) returns (pointer: nat)
      requires Valid() && size < U64 - 15
      modifies this
      ensures Valid()
      ensures var k := FirstFit(old(blocks), RoundUp(size));
              if size == 0 || k.None? then pointer == 0 && blocks == old(blocks)
              else
                pointer == Payload(old(blocks)[k.value], HEADER)
                && blocks == Take(old(blocks), k.value, RoundUp(size), HEADER)
      ensures pointer != 0 ==>
                exists c: Block ::
                  c.used && Payload(c, HEADER) == pointer && size <= c.size < size + 16 + HEADER + MIN_REST
                  && c !in Live(old(blocks)) && Live(blocks) == Live(old(blocks)) + {c}
                  && forall d :: d in old(blocks) && !d.used && d.size >= size + 15 ==> c.addr <= d.addr
      ensures pointer == 0 && size > 0 ==> forall d :: d in blocks ==> d.used || d.size < size + 15
    {
      hide Good, Take, Linked, Merging, TakeHeaders;
      if size == 0 {
        return 0;
      }
      var n := RoundUp(size);
      IsMerging(blocks, arena);
      var a := arena;
      ghost var k := 0;
      while a != 0
        invariant blocks == old(blocks) && headers == old(headers) && k <= |blocks| && a == AddrAt(blocks, k)
        invariant forall i :: 0 <= i < k ==> !Fits(blocks[i], n)
        decreases |blocks| - k
      {
        Null(blocks, arena, k);
        HeaderThere(headers, blocks, k);
        if headers[a].free && headers[a].size >= n {
          Found(blocks, n, k);
          LowestFit(blocks, arena, n, k);
          Grant(a, k, n);
          return a + HEADER;
        }
        a := headers[a].next;
        k := k + 1;
      }
      Null(blocks, arena, k);
      return 0;
    }

    /** The block at `a` is split if the rest is worth it, and marked. */
    method Grant(a: nat, ghost k: nat, n: nat)
      requires Valid() && k < |blocks| && blocks[k].addr == a && Fits(blocks[k], n) && n > 0 && n % 16 == 0
      modifies this
      ensures Valid() && blocks == Take(old(blocks), k, n, HEADER)
      ensures var c := Block(a, if Splits(old(blocks)[k], n, HEADER) then n else old(blocks)[k].size, true);
              c !in Live(old(blocks)) && Live(blocks) == Live(old(blocks)) + {c}
    {
      hide Good, Take, Linked, Merging;
      ghost var bs, hs := blocks, headers;
      IsMerging(bs, arena);
      HeaderThere(headers, blocks, k);
      TakeLinked(headers, blocks, arena, k, n);
      TakeGood(blocks, arena, arena + ARENA_SIZE, HEADER, k, n);
      TakeLive(blocks, k, n, HEADER);
      Unused(bs, arena, k, Block(a, if Splits(bs[k], n, HEADER) then n else bs[k].size, true));
      var hd := headers[a];
      if hd.size >= n + HEADER + MIN_REST {
        headers := headers[a + HEADER + n := Header(hd.size - n - HEADER, hd.next, true)];
        headers := headers[a := Header(n, a + HEADER + n, true)];
      }
      headers := headers[a := headers[a].(free := false)];
      blocks := Take(blocks, k, n, HEADER);
      assert headers == TakeHeaders(hs, bs, k, n);
    }

    /** `free`: exactly the named block goes out of use, and every run of free blocks becomes one. */
    method Free(pointer: nat, ghost k: nat)
      requires Valid() && (pointer != 0 ==> Names(blocks, pointer, k))
      modifies this
      ensures Valid()
      ensures pointer == 0 ==> blocks == old(blocks)
      ensures pointer != 0 ==> blocks == Sweep(Freed(old(blocks), k), 0, HEADER)
      ensures pointer != 0 ==> Live(blocks) == Live(old(blocks)) - {old(blocks)[k]}
    {
      hide Good, Linked, Merging, Sweep;
      if pointer == 0 {
        return;
      }
      ghost var bs := blocks;
      IsMerging(bs, arena);
      FreedLinked(headers, bs, arena, k);
      var a := pointer - HEADER;
      headers := headers[a := headers[a].(free := true)];
      blocks := Freed(bs, k);
      SweptGood(bs, arena, k);
      Coalesce();
    }

    /** The merging walk of `free`. */
    method Coalesce()
      requires Merging(blocks, arena) && Linked(headers, blocks)
      modifies this
      ensures Linked(headers, blocks) && blocks == Sweep(old(blocks), 0, HEADER)
    {
      hide Linked, Merging;
      First(blocks, arena);
      var a := arena;
      ghost var i := 0;
      Walk(headers, blocks, arena, i);
      while a != 0 && headers[a].next != 0
        invariant Merging(blocks, arena) && Linked(headers, blocks) && 0 <= i <= |blocks| && a == AddrAt(blocks, i)
        invariant Walked(headers, blocks, i)
        invariant Sweep(blocks, i, HEADER) == Sweep(old(blocks), 0, HEADER)
        decreases |blocks| - i
      {
        var hd := headers[a];
        var nx := headers[hd.next];
        if hd.free && nx.free {
          SwallowLinked(headers, blocks, arena, i);
          headers := headers[a := hd.(size := hd.size + HEADER + nx.size, next := nx.next)];
          blocks := Swallow(blocks, i, HEADER);
        } else {
          a := hd.next;
          i := i + 1;
        }
        Walk(headers, blocks, arena, i);
      }
    }
  }

  /** What the walk reads at index `i`. */
  ghost predicate Walked(hs: Headers, bs: Blocks, i: nat) {
    && (i < |bs| ==> HasHeader(hs, bs, i)) && (i + 1 < |bs| ==> HasHeader(hs, bs, i + 1))
    && (AddrAt(bs, i) == 0 <==> i >= |bs|) && (AddrAt(bs, i + 1) == 0 <==> i + 1 >= |bs|)
  }

  lemma Walk(hs: Headers, bs: Blocks, arena: nat, i: nat)
    requires Merging(bs, arena) && Linked(hs, bs)
    ensures Walked(hs, bs, i)
  {
    if i < |bs| {
      HeaderThere(hs, bs, i);
    }
    if i + 1 < |bs| {
      HeaderThere(hs, bs, i + 1);
    }
    Null(bs, arena, i);
    Null(bs, arena, i + 1);
  }

  lemma First(bs: Blocks, arena: nat)
    requires Merging(bs, arena)
    ensures AddrAt(bs, 0) == arena
  {
  }

  lemma Found(bs: Blocks, n: nat, k: nat)
    requires k < |bs| && Fits(bs[k], n) && forall i :: 0 <= i < k ==> !Fits(bs[i], n)
    ensures FirstFit(bs, n) == Some(k)
  {
    var r := FirstFit(bs, n);
    assert r.Some?;
  }

  lemma LowestFit(bs: Blocks, arena: nat, n: nat, k: nat)
    requires GoodArena(bs, arena) && FirstFit(bs, n) == Some(k)
    ensures forall d :: d in bs && !d.used && d.size >= n ==> bs[k].addr <= d.addr
  {
    Lowest(bs, arena, arena + ARENA_SIZE, HEADER, n);
  }

  lemma Unused(bs: Blocks, arena: nat, k: nat, c: Block)
    requires GoodArena(bs, arena) && k < |bs| && !bs[k].used && c.addr == bs[k].addr
    ensures c !in Live(bs)
  {
    NotInUse(bs, arena, arena + ARENA_SIZE, HEADER, k, c);
  }

  /** After the sweep the arena is canonical, and only the freed block has left. */
  lemma SweptGood(bs: Blocks, arena: nat, k: nat)
    requires GoodArena(bs, arena) && k < |bs|
    ensures GoodArena(Sweep(Freed(bs, k), 0, HEADER), arena)
    ensures Live(Sweep(Freed(bs, k), 0, HEADER)) == Live(bs) - {bs[k]}
  {
    FreedGood(bs, arena, arena + ARENA_SIZE, HEADER, k);
    SweepGood(Freed(bs, k), arena, arena + ARENA_SIZE, HEADER, 0);
    if bs[k].used {
      FreedLive(bs, arena, arena + ARENA_SIZE, HEADER, k);
    } else {
      assert Freed(bs, k) == bs;
    }
  }
}
