/** Heaps of blocks with a header in front of each: what taking, splitting, releasing and merging do to the
    list of blocks. `h` is the size of a header; both heaps of the system are instances. */
module HeapBlocks {
  import opened Layout

  /** A header at `addr` and `size` bytes of payload behind it. */
  datatype Block = Block(addr: nat, size: nat, used: bool)

  type Blocks = seq<Block>

  /** Sizes and headers are multiples of this in both heaps. */
  const ALIGN: nat := 8
  /** The smallest rest worth a block of its own. */
  const MIN_REST: nat := 16

  function Payload(b: Block, h: nat): nat { b.addr + h }
  function Stop(b: Block, h: nat): nat { b.addr + h + b.size }

  // ---------- operations ----------

  predicate Fits(b: Block, size: nat) { !b.used && b.size >= size }

  /** The first free block that is large enough. */
  function FirstFit(bs: Blocks, size: nat): (r: Option<nat>)
    ensures r.Some? ==> r.value < |bs| && Fits(bs[r.value], size)
    ensures r.Some? ==> forall i :: 0 <= i < r.value ==> !Fits(bs[i], size)
    ensures r.None? ==> forall i :: 0 <= i < |bs| ==> !Fits(bs[i], size)
  {
    if bs == [] then None
    else if Fits(bs[0], size) then Some(0)
    else match FirstFit(bs[1..], size)
      case None => None
      case Some(k) => Some(k + 1)
  }

  predicate Splits(b: Block, size: nat, h: nat) { b.size >= size + h + MIN_REST }

  /** Block `k` is taken for `size` bytes; a rest that is large enough becomes a block. */
  function Take(bs: Blocks, k: nat, size: nat, h: nat): Blocks
    requires k < |bs| && bs[k].size >= size
  {
    var b := bs[k];
    bs[..k]
    + (if Splits(b, size, h) then [Block(b.addr, size, true), Block(b.addr + h + size, b.size - size - h, false)]
        else [b.(used := true)])
    + bs[k + 1..]
  }

  /** Block `i` swallows the one behind it, header and all. */
  function Swallow(bs: Blocks, i: nat, h: nat): Blocks
    requires i + 1 < |bs|
  {
    bs[..i] + [bs[i].(size := bs[i].size + h + bs[i + 1].size)] + bs[i + 2..]
  }

  function Freed(bs: Blocks, k: nat): Blocks
    requires k < |bs|
  {
    bs[k := bs[k].(used := false)]
  }

  /** `kheap_merge_free_blocks`, forward from block `k`. */
  function MergeUp(bs: Blocks, k: nat, h: nat): Blocks
    decreases |bs|
  {
    if k + 1 < |bs| && !bs[k + 1].used then MergeUp(Swallow(bs, k, h), k, h) else bs
  }

  /** And backward. */
  function MergeDown(bs: Blocks, k: nat, h: nat): Blocks
    decreases k
  {
    if 0 < k < |bs| && !bs[k - 1].used then MergeDown(Swallow(bs, k - 1, h), k - 1, h) else bs
  }

  function Release(bs: Blocks, k: nat, h: nat): Blocks
    requires k < |bs|
  {
    MergeDown(MergeUp(Freed(bs, k), k, h), k, h)
  }

  /** The merging walk of the user heap's `free`, from block `i` on. */
  function Sweep(bs: Blocks, i: nat, h: nat): Blocks
    decreases |bs| - i
  {
    if i + 1 >= |bs| then bs
    else if !bs[i].used && !bs[i + 1].used then Sweep(Swallow(bs, i, h), i, h)
    else Sweep(bs, i + 1, h)
  }

  // ---------- invariants ----------

  /** The blocks fill `lo .. hi` without gap or overlap. */
  predicate Tiles(bs: Blocks, lo: nat, hi: nat, h: nat) {
    && bs != [] && bs[0].addr == lo && Stop(bs[|bs| - 1], h) == hi
    && forall i :: 0 <= i < |bs| - 1 ==> Stop(bs[i], h) == bs[i + 1].addr
  }

  /** Payloads are not empty and keep addresses aligned. */
  predicate Sized(bs: Blocks) {
    forall i :: 0 <= i < |bs| ==> bs[i].size > 0 && bs[i].size % ALIGN == 0
  }

  /** No two neighbours are free, except possibly pair `i` for `from <= i < to`. */
  predicate CanonicalBut(bs: Blocks, from: int, to: int) {
    forall i :: 0 <= i < |bs| - 1 && !(from <= i < to) ==> bs[i].used || bs[i + 1].used
  }

  predicate Good(bs: Blocks, lo: nat, hi: nat, h: nat) {
    Tiles(bs, lo, hi, h) && Sized(bs) && CanonicalBut(bs, 0, 0)
  }

  function Live(bs: Blocks): set<Block> {
    set b | b in bs && b.used
  }

  /** Bytes of payload in used, or in free, blocks. */
  function Bytes(bs: Blocks, used: bool): nat {
    if bs == [] then 0 else Bytes(bs[..|bs| - 1], used) + if bs[|bs| - 1].used == used then bs[|bs| - 1].size else 0
  }

  function UsedCount(bs: Blocks): nat {
    if bs == [] then 0 else UsedCount(bs[..|bs| - 1]) + if bs[|bs| - 1].used then 1 else 0
  }

  /** Nothing gets lost: payload and headers make up the heap. */
  lemma {:induction false} Conserved(bs: Blocks, lo: nat, hi: nat, h: nat)
    requires Tiles(bs, lo, hi, h)
    ensures Bytes(bs, true) + Bytes(bs, false) + h * |bs| == hi - lo
    decreases |bs|
  {
    var n := |bs| - 1;
    assert h * (n + 1) == h * n + h;
    if n > 0 {
      Conserved(bs[..n], lo, Stop(bs[n - 1], h), h);
    } else {
      assert bs[..0] == [];
    }
  }

  lemma {:induction false} Ordered(bs: Blocks, lo: nat, hi: nat, h: nat, i: nat, j: nat)
    requires Tiles(bs, lo, hi, h) && i < j < |bs|
    ensures Stop(bs[i], h) <= bs[j].addr && lo <= bs[i].addr && Stop(bs[j], h) <= hi
    decreases j - i, |bs| - j
  {
    if i < j - 1 {
      Ordered(bs, lo, hi, h, i, j - 1);
    }
    assert Stop(bs[j - 1], h) == bs[j].addr;
    InHeap(bs, lo, hi, h, i);
    InHeap(bs, lo, hi, h, j);
  }

  lemma {:induction false} FromStart(bs: Blocks, lo: nat, hi: nat, h: nat, i: nat)
    requires Tiles(bs, lo, hi, h) && i < |bs|
    ensures lo <= bs[i].addr
    decreases i
  {
    if i > 0 {
      FromStart(bs, lo, hi, h, i - 1);
      assert Stop(bs[i - 1], h) == bs[i].addr;
    }
  }

  lemma {:induction false} ToEnd(bs: Blocks, lo: nat, hi: nat, h: nat, i: nat)
    requires Tiles(bs, lo, hi, h) && i < |bs|
    ensures Stop(bs[i], h) <= hi
    decreases |bs| - i
  {
    if i + 1 < |bs| {
      ToEnd(bs, lo, hi, h, i + 1);
      assert Stop(bs[i], h) == bs[i + 1].addr;
    }
  }

  lemma InHeap(bs: Blocks, lo: nat, hi: nat, h: nat, i: nat)
    requires Tiles(bs, lo, hi, h) && i < |bs|
    ensures lo <= bs[i].addr && Stop(bs[i], h) <= hi
  {
    FromStart(bs, lo, hi, h, i);
    ToEnd(bs, lo, hi, h, i);
  }

  /** Different blocks have nothing in common, headers included. */
  lemma Apart(bs: Blocks, lo: nat, hi: nat, h: nat, i: nat, j: nat)
    requires Tiles(bs, lo, hi, h) && i < |bs| && j < |bs| && i != j
    ensures Stop(bs[i], h) <= bs[j].addr || Stop(bs[j], h) <= bs[i].addr
  {
    if i < j {
      Ordered(bs, lo, hi, h, i, j);
    } else {
      Ordered(bs, lo, hi, h, j, i);
    }
  }

  /** The first block that fits is the lowest that does. */
  lemma Lowest(bs: Blocks, lo: nat, hi: nat, h: nat, size: nat)
    requires Tiles(bs, lo, hi, h) && FirstFit(bs, size).Some?
    ensures forall b :: b in bs && Fits(b, size) ==> bs[FirstFit(bs, size).value].addr <= b.addr
  {
    var k := FirstFit(bs, size).value;
    forall b | b in bs && Fits(b, size)
      ensures bs[k].addr <= b.addr
    {
      var i: nat :| i < |bs| && bs[i] == b;
      if k < i {
        Ordered(bs, lo, hi, h, k, i);
      }
    }
  }

  // ---------- taking ----------

  lemma TakeAt(bs: Blocks, k: nat, size: nat, h: nat, i: nat)
    requires k < |bs| && bs[k].size >= size && i < |Take(bs, k, size, h)|
    ensures var d := if Splits(bs[k], size, h) then 1 else 0;
            && |Take(bs, k, size, h)| == |bs| + d
            && Take(bs, k, size, h)[i] ==
                 if i < k then bs[i]
                 else if i == k then Block(bs[k].addr, if d == 1 then size else bs[k].size, true)
                 else if i == k + d then Block(bs[k].addr + h + size, bs[k].size - size - h, false)
                 else bs[i - d]
  {
  }

  lemma TakeGood(bs: Blocks, lo: nat, hi: nat, h: nat, k: nat, size: nat)
    requires h % ALIGN == 0 && size % ALIGN == 0 && size > 0
    requires Good(bs, lo, hi, h) && k < |bs| && Fits(bs[k], size)
    ensures Good(Take(bs, k, size, h), lo, hi, h)
  {
    var ts := Take(bs, k, size, h);
    forall i: nat | i < |ts|
      ensures ts[i].size > 0 && ts[i].size % ALIGN == 0
      ensures i + 1 < |ts| ==> Stop(ts[i], h) == ts[i + 1].addr && (ts[i].used || ts[i + 1].used)
    {
      TakeAt(bs, k, size, h, i);
      if i + 1 < |ts| {
        TakeAt(bs, k, size, h, i + 1);
      }
    }
    TakeAt(bs, k, size, h, 0);
    TakeAt(bs, k, size, h, |ts| - 1);
  }

  /** Taking 0 bytes spoils the list exactly if it splits the block. */
  lemma ZeroTake(bs: Blocks, lo: nat, hi: nat, h: nat, k: nat)
    requires Good(bs, lo, hi, h) && k < |bs| && !bs[k].used
    ensures Good(Take(bs, k, 0, h), lo, hi, h) <==> bs[k].size < h + MIN_REST
  {
    if Splits(bs[k], 0, h) {
      TakeAt(bs, k, 0, h, k);
    } else {
      assert Take(bs, k, 0, h) == bs[k := bs[k].(used := true)];
    }
  }

  lemma TakeLive(bs: Blocks, k: nat, size: nat, h: nat)
    requires k < |bs| && Fits(bs[k], size)
    ensures Live(Take(bs, k, size, h))
            == Live(bs) + {Block(bs[k].addr, if Splits(bs[k], size, h) then size else bs[k].size, true)}
  {
    var ts := Take(bs, k, size, h);
    var d := if Splits(bs[k], size, h) then 1 else 0;
    TakeAt(bs, k, size, h, k);
    var c := ts[k];
    forall b: Block | b.used
      ensures b in ts <==> b in bs || b == c
    {
      if b in ts {
        var i: nat :| i < |ts| && ts[i] == b;
        TakeAt(bs, k, size, h, i);
      }
      if b in bs {
        var i: nat :| i < |bs| && bs[i] == b;
        TakeAt(bs, k, size, h, if i < k then i else i + d);
      }
    }
  }

  // ---------- merging ----------

  lemma SwallowAt(bs: Blocks, k: nat, h: nat, i: nat)
    requires k + 1 < |bs| && i < |bs| - 1
    ensures |Swallow(bs, k, h)| == |bs| - 1
    ensures Swallow(bs, k, h)[i] == if i < k then bs[i] else if i == k
            then bs[k].(size := bs[k].size + h + bs[k + 1].size) else bs[i + 1]
  {
  }

  /** Swallowing a free block keeps the tiling; it settles pair `k` and no other. */
  lemma SwallowGood(bs: Blocks, lo: nat, hi: nat, h: nat, k: nat)
    requires h % ALIGN == 0
    requires Tiles(bs, lo, hi, h) && Sized(bs) && k + 1 < |bs| && !bs[k].used && !bs[k + 1].used
    ensures Tiles(Swallow(bs, k, h), lo, hi, h) && Sized(Swallow(bs, k, h))
    ensures forall from, to :: from <= k < to && CanonicalBut(bs, from, to) ==>
            CanonicalBut(Swallow(bs, k, h), from, to - 1)
  {
    var ms := Swallow(bs, k, h);
    forall i: nat | i < |ms|
      ensures ms[i].size > 0 && ms[i].size % ALIGN == 0
      ensures i + 1 < |ms| ==> Stop(ms[i], h) == ms[i + 1].addr
    {
      SwallowAt(bs, k, h, i);
      if i + 1 < |ms| {
        SwallowAt(bs, k, h, i + 1);
      }
    }
    SwallowAt(bs, k, h, 0);
    SwallowAt(bs, k, h, |ms| - 1);
  }

  lemma SwallowLive(bs: Blocks, k: nat, h: nat)
    requires k + 1 < |bs| && !bs[k].used && !bs[k + 1].used
    ensures Live(Swallow(bs, k, h)) == Live(bs)
  {
    var ms := Swallow(bs, k, h);
    forall b: Block | b.used
      ensures b in ms <==> b in bs
    {
      if b in ms {
        var i: nat :| i < |ms| && ms[i] == b;
        SwallowAt(bs, k, h, i);
      }
      if b in bs {
        var i: nat :| i < |bs| && bs[i] == b;
        SwallowAt(bs, k, h, if i < k then i else i - 1);
      }
    }
  }

  /** `kfree` on a canonical heap: canonical again, and only the freed block is gone. */
  lemma ReleaseGood(bs: Blocks, lo: nat, hi: nat, h: nat, k: nat)
    requires h % ALIGN == 0 && Good(bs, lo, hi, h) && k < |bs| && bs[k].used
    ensures Good(Release(bs, k, h), lo, hi, h) && Live(Release(bs, k, h)) == Live(bs) - {bs[k]}
  {
    var fs := Freed(bs, k);
    FreedLive(bs, lo, hi, h, k);
    FreedGood(bs, lo, hi, h, k);
    var us := MergeUp(fs, k, h);
    MergeUpGood(fs, lo, hi, h, k);
    MergeDownGood(us, lo, hi, h, k);
  }

  lemma FreedGood(bs: Blocks, lo: nat, hi: nat, h: nat, k: nat)
    requires Good(bs, lo, hi, h) && k < |bs|
    ensures Tiles(Freed(bs, k), lo, hi, h) && Sized(Freed(bs, k)) && CanonicalBut(Freed(bs, k), k - 1, k + 1)
  {
  }

  lemma FreedLive(bs: Blocks, lo: nat, hi: nat, h: nat, k: nat)
    requires Tiles(bs, lo, hi, h) && k < |bs| && bs[k].used && bs[k].size > 0
    ensures Live(Freed(bs, k)) == Live(bs) - {bs[k]}
  {
    var fs := Freed(bs, k);
    forall b: Block | b in bs && b.used && b != bs[k]
      ensures b in fs
    {
      var i: nat :| i < |bs| && bs[i] == b;
      assert fs[i] == b;
    }
    forall b: Block | b in fs && b.used
      ensures b in bs && b != bs[k]
    {
      var i: nat :| i < |fs| && fs[i] == b;
      assert bs[i] == b;
      Apart(bs, lo, hi, h, i, k);
    }
  }

  lemma {:induction false} MergeUpGood(bs: Blocks, lo: nat, hi: nat, h: nat, k: nat)
    requires h % ALIGN == 0
    requires Tiles(bs, lo, hi, h) && Sized(bs) && k < |bs| && !bs[k].used && CanonicalBut(bs, k - 1, k + 1)
    ensures var us := MergeUp(bs, k, h);
            && Tiles(us, lo, hi, h) && Sized(us) && k < |us| && !us[k].used && CanonicalBut(us, k - 1, k)
            && Live(us) == Live(bs) && us[..k] == bs[..k]
    decreases |bs|
  {
    if k + 1 < |bs| && !bs[k + 1].used {
      SwallowGood(bs, lo, hi, h, k);
      SwallowLive(bs, k, h);
      MergeUpGood(Swallow(bs, k, h), lo, hi, h, k);
    }
  }

  lemma {:induction false} MergeDownGood(bs: Blocks, lo: nat, hi: nat, h: nat, k: nat)
    requires h % ALIGN == 0
    requires Tiles(bs, lo, hi, h) && Sized(bs) && k < |bs| && !bs[k].used && CanonicalBut(bs, k - 1, k)
    ensures var ds := MergeDown(bs, k, h); Good(ds, lo, hi, h) && Live(ds) == Live(bs)
    decreases k
  {
    if k > 0 && !bs[k - 1].used {
      SwallowGood(bs, lo, hi, h, k - 1);
      SwallowLive(bs, k - 1, h);
      assert CanonicalBut(Swallow(bs, k - 1, h), k - 2, k - 1);
      MergeDownGood(Swallow(bs, k - 1, h), lo, hi, h, k - 1);
    }
  }

  /** The sweep of the user heap leaves no two free neighbours, whatever the list looked like before. */
  lemma {:induction false} SweepGood(bs: Blocks, lo: nat, hi: nat, h: nat, i: nat)
    requires h % ALIGN == 0
    requires Tiles(bs, lo, hi, h) && Sized(bs) && CanonicalBut(bs, i, |bs|)
    ensures Good(Sweep(bs, i, h), lo, hi, h) && Live(Sweep(bs, i, h)) == Live(bs)
    decreases |bs| - i
  {
    if i + 1 < |bs| {
      if !bs[i].used && !bs[i + 1].used {
        SwallowGood(bs, lo, hi, h, i);
        SwallowLive(bs, i, h);
        SweepGood(Swallow(bs, i, h), lo, hi, h, i);
      } else {
        SweepGood(bs, lo, hi, h, i + 1);
      }
    }
  }

  // ---------- what is in use ----------

  lemma {:induction false} Concat(a: Blocks, b: Blocks)
    ensures Bytes(a + b, true) == Bytes(a, true) + Bytes(b, true) && UsedCount(a + b) == UsedCount(a) + UsedCount(b)
  {
    if b == [] {
      assert a + b == a;
    } else {
      Concat(a, b[..|b| - 1]);
      assert (a + b)[..|a + b| - 1] == a + b[..|b| - 1];
    }
  }

  lemma Few(b: Block, c: Block)
    ensures Bytes([b], true) == (if b.used then b.size else 0) && UsedCount([b]) == (if b.used then 1 else 0)
    ensures !c.used ==> Bytes([b, c], true) == Bytes([b], true) && UsedCount([b, c]) == UsedCount([b])
  {
    assert [b][..0] == [];
    assert [b, c][..1] == [b];
  }

  lemma Swapped(a: Blocks, p: Blocks, q: Blocks, z: Blocks)
    ensures Bytes(a + q + z, true) + Bytes(p, true) == Bytes(a + p + z, true) + Bytes(q, true)
    ensures UsedCount(a + q + z) + UsedCount(p) == UsedCount(a + p + z) + UsedCount(q)
  {
    Concat(a, p);
    Concat(a + p, z);
    Concat(a, q);
    Concat(a + q, z);
  }

  lemma TakeUsed(bs: Blocks, k: nat, size: nat, h: nat)
    requires k < |bs| && Fits(bs[k], size)
    ensures Bytes(Take(bs, k, size, h), true) == Bytes(bs, true) + (if Splits(bs[k], size, h) then size else bs[k].size)
    ensures UsedCount(Take(bs, k, size, h)) == UsedCount(bs) + 1
  {
    hide Bytes, UsedCount;
    var b := bs[k];
    var q := if Splits(b, size, h) then [Block(b.addr, size, true), Block(b.addr + h + size, b.size - size - h, false)]
             else [b.(used := true)];
    assert bs == bs[..k] + [b] + bs[k + 1..];
    Swapped(bs[..k], [b], q, bs[k + 1..]);
    Few(b, b);
    Few(q[0], if |q| == 2 then q[1] else b);
  }

  lemma FreedUsed(bs: Blocks, k: nat)
    requires k < |bs| && bs[k].used
    ensures Bytes(Freed(bs, k), true) == Bytes(bs, true) - bs[k].size && UsedCount(Freed(bs, k)) == UsedCount(bs) - 1
  {
    hide Bytes, UsedCount;
    var c := bs[k].(used := false);
    assert bs == bs[..k] + [bs[k]] + bs[k + 1..] && Freed(bs, k) == bs[..k] + [c] + bs[k + 1..];
    Swapped(bs[..k], [bs[k]], [c], bs[k + 1..]);
    Few(bs[k], c);
    Few(c, c);
  }

  lemma SwallowUsed(bs: Blocks, i: nat, h: nat)
    requires i + 1 < |bs| && !bs[i].used && !bs[i + 1].used
    ensures Bytes(Swallow(bs, i, h), true) == Bytes(bs, true) && UsedCount(Swallow(bs, i, h)) == UsedCount(bs)
  {
    hide Bytes, UsedCount;
    var m := bs[i].(size := bs[i].size + h + bs[i + 1].size);
    assert bs == bs[..i] + [bs[i], bs[i + 1]] + bs[i + 2..];
    Swapped(bs[..i], [bs[i], bs[i + 1]], [m], bs[i + 2..]);
    Few(bs[i], bs[i + 1]);
    Few(m, m);
  }

  // ---------- canonical lists are determined by what is in use ----------

  /** With nothing in use there is one block. */
  lemma NothingUsed(bs: Blocks, lo: nat, hi: nat, h: nat)
    requires Good(bs, lo, hi, h) && Live(bs) == {}
    ensures |bs| == 1 && !bs[0].used && bs[0].addr == lo && Stop(bs[0], h) == hi
  {
    UsedIn(bs);
    if |bs| > 1 {
      Neighbours(bs);
    }
  }

  lemma UsedIn(bs: Blocks)
    requires Live(bs) == {}
    ensures forall i :: 0 <= i < |bs| ==> !bs[i].used
  {
    forall i | 0 <= i < |bs|
      ensures !bs[i].used
    {
      assert bs[i] !in Live(bs);
    }
  }

  lemma Neighbours(bs: Blocks)
    requires CanonicalBut(bs, 0, 0) && |bs| > 1
    ensures bs[0].used || bs[1].used
  {
  }

  lemma TailLive(bs: Blocks, lo: nat, hi: nat, h: nat)
    requires Tiles(bs, lo, hi, h) && Sized(bs)
    ensures Live(bs[1..]) == Live(bs) - (if bs[0].used then {bs[0]} else {})
  {
    forall b: Block | b.used
      ensures b in bs[1..] <==> b in bs && b != bs[0]
    {
      if b in bs && b != bs[0] {
        var i: nat :| i < |bs| && bs[i] == b;
        assert bs[1..][i - 1] == b;
      }
      if b in bs[1..] {
        var i: nat :| i < |bs| - 1 && bs[1..][i] == b;
        Apart(bs, lo, hi, h, 0, i + 1);
      }
    }
  }

  lemma TailGood(bs: Blocks, lo: nat, hi: nat, h: nat)
    requires Good(bs, lo, hi, h) && |bs| > 1
    ensures Good(bs[1..], Stop(bs[0], h), hi, h) && |bs[1..]| < |bs|
  {
    assert bs[1..][0] == bs[1];
  }

  /** A block in use that starts at `lo` is the first one of the other list too. */
  lemma FirstUsed(a: Blocks, b: Blocks, lo: nat, hi: nat, h: nat)
    requires Good(a, lo, hi, h) && Good(b, lo, hi, h) && Live(a) == Live(b) && a[0].used
    ensures b[0] == a[0]
  {
    assert a[0] in Live(a) && a[0] in Live(b);
    var j: nat :| j < |b| && b[j] == a[0];
    if j > 0 {
      Ordered(b, lo, hi, h, 0, j);
    }
  }

  /** Behind a free block comes one in use, at the same place in both lists. */
  lemma FirstFree(a: Blocks, b: Blocks, lo: nat, hi: nat, h: nat)
    requires Good(a, lo, hi, h) && Good(b, lo, hi, h) && Live(a) == Live(b) && !a[0].used && !b[0].used && |a| > 1
             && |b| > 1
    ensures Stop(b[0], h) <= Stop(a[0], h)
  {
    Neighbours(a);
    assert a[1] in Live(a) && a[1] in Live(b);
    var j: nat :| j < |b| && b[j] == a[1];
    Ordered(b, lo, hi, h, 0, j);
  }

  lemma SomeLive(bs: Blocks)
    requires CanonicalBut(bs, 0, 0) && |bs| > 1
    ensures Live(bs) != {}
  {
    Neighbours(bs);
    assert bs[if bs[0].used then 0 else 1] in Live(bs);
  }

  lemma BothFirst(a: Blocks, b: Blocks, lo: nat, hi: nat, h: nat)
    requires Good(a, lo, hi, h) && Good(b, lo, hi, h) && Live(a) == Live(b)
    ensures a[0] == b[0]
  {
    if a[0].used {
      FirstUsed(a, b, lo, hi, h);
    } else if b[0].used {
      FirstUsed(b, a, lo, hi, h);
    } else if |a| > 1 && |b| > 1 {
      FirstFree(a, b, lo, hi, h);
      FirstFree(b, a, lo, hi, h);
    } else if |a| > 1 {
      SomeLive(a);
    } else if |b| > 1 {
      SomeLive(b);
    }
  }

  /** What is in use determines the whole list: there is one canonical heap for it. */
  lemma {:induction false} Determined(a: Blocks, b: Blocks, lo: nat, hi: nat, h: nat)
    requires h > 0 && Good(a, lo, hi, h) && Good(b, lo, hi, h) && Live(a) == Live(b)
    ensures a == b
    decreases |a|
  {
    BothFirst(a, b, lo, hi, h);
    TailLive(a, lo, hi, h);
    TailLive(b, lo, hi, h);
    if |a| > 1 && |b| > 1 {
      TailGood(a, lo, hi, h);
      TailGood(b, lo, hi, h);
      Determined(a[1..], b[1..], Stop(a[0], h), hi, h);
      assert a == [a[0]] + a[1..] && b == [b[0]] + b[1..];
    } else if |a| > 1 {
      Ordered(a, lo, hi, h, 0, |a| - 1);
    } else if |b| > 1 {
      Ordered(b, lo, hi, h, 0, |b| - 1);
    }
  }

  /** The user heap's sweep over the whole list does what the kernel heap's local merging does. */
  lemma SweepIsRelease(bs: Blocks, lo: nat, hi: nat, h: nat, k: nat)
    requires h > 0 && h % ALIGN == 0 && Good(bs, lo, hi, h) && k < |bs| && bs[k].used
    ensures Sweep(Freed(bs, k), 0, h) == Release(bs, k, h)
  {
    ReleaseGood(bs, lo, hi, h, k);
    FreedGood(bs, lo, hi, h, k);
    FreedLive(bs, lo, hi, h, k);
    SweepGood(Freed(bs, k), lo, hi, h, 0);
    Determined(Sweep(Freed(bs, k), 0, h), Release(bs, k, h), lo, hi, h);
  }

  /** Taking a block and releasing it is the identity. */
  lemma TakeThenRelease(bs: Blocks, lo: nat, hi: nat, h: nat, k: nat, size: nat)
    requires h > 0 && h % ALIGN == 0 && size % ALIGN == 0 && size > 0 && Good(bs, lo, hi, h) && k < |bs|
             && Fits(bs[k], size)
    ensures k < |Take(bs, k, size, h)| && Release(Take(bs, k, size, h), k, h) == bs
  {
    var ts := Take(bs, k, size, h);
    assert k < |ts|;
    TakeGood(bs, lo, hi, h, k, size);
    TakeLive(bs, k, size, h);
    TakeAt(bs, k, size, h, k);
    ReleaseGood(ts, lo, hi, h, k);
    NotInUse(bs, lo, hi, h, k, ts[k]);
    assert Live(bs) + {ts[k]} - {ts[k]} == Live(bs);
    Determined(Release(ts, k, h), bs, lo, hi, h);
  }

  /** A block in use does not start where a free one does. */
  lemma NotInUse(bs: Blocks, lo: nat, hi: nat, h: nat, k: nat, c: Block)
    requires h > 0 && Tiles(bs, lo, hi, h) && k < |bs| && !bs[k].used && c.addr == bs[k].addr
    ensures c !in Live(bs)
  {
    if c in Live(bs) {
      var i: nat :| i < |bs| && bs[i] == c;
      Apart(bs, lo, hi, h, i, k);
    }
  }
}
