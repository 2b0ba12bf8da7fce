/** The linked regions of the kernel's virtual address allocator, proved against the list they stand for. */
module KernelVmm {
  import opened Layout
  import opened KernelRegions

  class Node {
    var base: nat
    var size: nat
    var flags: Flags
    var prev: Node?
    var next: Node?

    constructor ()
      ensures base == size == 0 && flags == {} && prev == null && next == null
    {
      base, size, flags, prev, next := 0, 0, {}, null, null;
    }
  }

  /** The node at index `i` of the list, null off either end. */
  ghost function NodeAt(nodes: seq<Node>, i: int): Node? {
    if 0 <= i < |nodes| then nodes[i] else null
  }

  ghost function BlockOf(n: Node): Block
    reads n
  {
    Block(n.base, n.size, n.flags)
  }

  lemma Alone(nodes: seq<Node>, k: nat)
    requires NoDup(nodes) && k < |nodes|
    ensures forall i :: 0 <= i < |nodes| && i != k ==> nodes[i] != nodes[k]
  {
  }

  ghost function With(nodes: seq<Node>, k: nat, n: Node): seq<Node>
    requires k < |nodes|
  {
    nodes[..k + 1] + [n] + nodes[k + 1..]
  }

  ghost function Without(nodes: seq<Node>, k: nat): seq<Node>
    requires k < |nodes|
  {
    nodes[..k] + nodes[k + 1..]
  }

  lemma WithAt(nodes: seq<Node>, k: nat, n: Node, i: int)
    requires k < |nodes|
    ensures NodeAt(With(nodes, k, n), i) == if i <= k then NodeAt(nodes, i) else if i == k + 1 then n
            else NodeAt(nodes, i - 1)
    ensures |With(nodes, k, n)| == |nodes| + 1
  {
  }

  lemma WithoutAt(nodes: seq<Node>, k: nat, i: int)
    requires k < |nodes|
    ensures NodeAt(Without(nodes, k), i) == if i < k then NodeAt(nodes, i) else NodeAt(nodes, i + 1)
    ensures |Without(nodes, k)| == |nodes| - 1
  {
  }

  lemma WithMembers(nodes: seq<Node>, k: nat, n: Node)
    requires k < |nodes|
    ensures forall x :: x in With(nodes, k, n) ==> x in nodes || x == n
  {
  }

  lemma WithoutMembers(nodes: seq<Node>, k: nat)
    requires k < |nodes|
    ensures forall x :: x in Without(nodes, k) ==> x in nodes
  {
  }

  lemma WithDistinct(nodes: seq<Node>, k: nat, n: Node)
    requires NoDup(nodes) && k < |nodes| && n !in nodes
    ensures NoDup(With(nodes, k, n))
  {
  }

  lemma WithoutDistinct(nodes: seq<Node>, k: nat)
    requires NoDup(nodes) && k < |nodes|
    ensures NoDup(Without(nodes, k))
  {
  }

  /** Node `i` points back to the one before it and on to the one after. */
  ghost predicate LinkedAt(nodes: seq<Node>, i: nat)
    requires i < |nodes|
    reads nodes[i]
  {
    nodes[i].prev == NodeAt(nodes, i - 1) && nodes[i].next == NodeAt(nodes, i + 1)
  }

  class KernelVmm {
    var head: Node?
    var stats: Stats
    ghost var nodes: seq<Node>
    ghost var repr: set<Node>

    ghost predicate Linked()
      reads this, nodes
    {
      && NoDup(nodes) && head == NodeAt(nodes, 0)
      && (forall n :: n in nodes ==> n in repr) && forall i: nat :: i < |nodes| ==> LinkedAt(nodes, i)
    }

    ghost function Regions(): (bs: Blocks)
      reads this, nodes
      ensures |bs| == |nodes|
      ensures forall i :: 0 <= i < |nodes| ==> bs[i] == BlockOf(nodes[i])
    {
      seq(|nodes|, i requires 0 <= i < |nodes| reads this, nodes => BlockOf(nodes[i]))
    }

    ghost function View(): Arena
      reads this, nodes
    {
      Arena(Regions(), stats)
    }

    /** `vmm_init`, the first time. */
    constructor ()
      ensures Linked() && View() == Boot() && fresh(repr)
    {
      var n := new Node();
      n.base, n.size := VMM_BASE, VMM_LIMIT - VMM_BASE;
      head, nodes, repr := n, [n], {n};
      stats := Stats(VMM_LIMIT - VMM_BASE, 0, VMM_LIMIT - VMM_BASE, 1, 0);
      new;
      assert Regions() == [WHOLE];
    }

    /** `region_alloc`: a zeroed node, or null if the heap has none. */
    method RegionAlloc(available: bool) returns (r: Node?)
      ensures r != null <==> available
      ensures r != null ==> fresh(r) && r.base == r.size == 0 && r.flags == {} && r.prev == null && r.next == null
    {
      r := null;
      if available {
        r := new Node();
      }
    }

    /** A new node behind `cur`, which is at index `k`. */
    method InsertAfter(cur: Node, split: Node, ghost k: nat)
      requires Linked() && k < |nodes| && nodes[k] == cur && split !in repr
      modifies this`nodes, this`repr, repr, split
      ensures Linked() && repr == old(repr) + {split} && |nodes| > k && nodes[k] == cur
      ensures Regions() == old(Regions())[..k + 1] + [old(BlockOf(split))] + old(Regions())[k + 1..]
    {
      hide NoDup, With;
      ghost var os := nodes;
      Alone(nodes, k);
      WithDistinct(nodes, k, split);
      assert LinkedAt(nodes, k);
      if k + 1 < |nodes| {
        Alone(nodes, k + 1);
        assert LinkedAt(nodes, k + 1);
      }
      split.prev := cur;
      split.next := cur.next;
      if cur.next != null {
        cur.next.prev := split;
      }
      cur.next := split;
      nodes, repr := With(nodes, k, split), repr + {split};
      forall i: nat | i < |nodes|
        ensures LinkedAt(nodes, i)
      {
        WithAt(os, k, split, i - 1);
        WithAt(os, k, split, i);
        WithAt(os, k, split, i + 1);
        if i <= k {
          assert old(LinkedAt(os, i));
        } else if i > k + 1 {
          assert old(LinkedAt(os, i - 1));
        }
      }
      WithAt(os, k, split, 0);
      WithAt(os, k, split, k);
      WithMembers(os, k, split);
      ghost var bs := old(Regions())[..k + 1] + [old(BlockOf(split))] + old(Regions())[k + 1..];
      forall i: nat | i < |nodes|
        ensures BlockOf(nodes[i]) == bs[i]
      {
        WithAt(os, k, split, i);
      }
    }

    /** The node behind `cur` leaves the list. */
    method RemoveNext(cur: Node, ghost k: nat)
      requires Linked() && k + 1 < |nodes| && nodes[k] == cur
      modifies this`nodes, repr
      ensures Linked() && |nodes| > k && nodes[k] == cur
      ensures Regions() == old(Regions())[..k + 1] + old(Regions())[k + 2..]
    {
      hide NoDup, Without;
      ghost var os := nodes;
      Alone(nodes, k);
      Alone(nodes, k + 1);
      WithoutDistinct(nodes, k + 1);
      assert LinkedAt(nodes, k) && LinkedAt(nodes, k + 1);
      var nx := cur.next;
      if k + 2 < |nodes| {
        Alone(nodes, k + 2);
        assert LinkedAt(nodes, k + 2);
      }
      cur.next := nx.next;
      if nx.next != null {
        nx.next.prev := cur;
      }
      nodes := Without(nodes, k + 1);
      forall i: nat | i < |nodes|
        ensures LinkedAt(nodes, i)
      {
        WithoutAt(os, k + 1, i - 1);
        WithoutAt(os, k + 1, i);
        WithoutAt(os, k + 1, i + 1);
        if i <= k {
          assert old(LinkedAt(os, i));
        } else {
          assert old(LinkedAt(os, i + 1));
        }
      }
      WithoutAt(os, k + 1, 0);
      WithoutAt(os, k + 1, k);
      WithoutMembers(os, k + 1);
      ghost var bs := old(Regions())[..k + 1] + old(Regions())[k + 2..];
      forall i: nat | i < |nodes|
        ensures BlockOf(nodes[i]) == bs[i]
      {
        WithoutAt(os, k + 1, i);
      }
    }

    /** The block of the node at index `k` is rewritten; the links stay. */
    method Rewrite(n: Node, ghost k: nat, size: nat, flags: Flags)
      requires Linked() && k < |nodes| && n == nodes[k]
      modifies n`size, n`flags
      ensures Linked() && Regions() == old(Regions())[k := Block(old(Regions())[k].base, size, flags)]
    {
      hide NoDup;
      Alone(nodes, k);
      n.size, n.flags := size, flags;
      forall i: nat | i < |nodes|
        ensures LinkedAt(nodes, i)
      {
        assert old(LinkedAt(nodes, i));
      }
    }

    /** `merge_with_next` of the node at index `k`. */
    method MergeWithNext(r: Node, ghost k: nat)
      requires Linked() && k < |nodes| && r == nodes[k]
      modifies this`nodes, this`stats, repr
      ensures Linked() && Regions() == MergeAt(old(Regions()), k)
      ensures stats == old(stats).(regions := Sub64(old(stats.regions), |old(nodes)| - |nodes|))
      ensures |nodes| > k && nodes[k] == r
    {
      hide NoDup;
      assert LinkedAt(nodes, k);
      if r.next == null {
        return;
      }
      var nx := r.next;
      if Used in r.flags || Used in nx.flags || r.base + r.size != nx.base {
        return;
      }
      assert Mergeable(Regions(), k);
      Rewrite(r, k, r.size + nx.size, r.flags);
      ghost var bs := Regions();
      RemoveNext(r, k);
      stats := stats.(regions := Sub64(stats.regions, 1));
      MergeIs(old(Regions()), bs, k);
      assert Regions() == bs[..k + 1] + bs[k + 2..];
    }

    /** `vmm_alloc`. */
    method Alloc(size: nat, flags: Flags, node: bool) returns (base: nat)
      requires Linked() && size < U64
      modifies this, repr
      ensures Linked() && fresh(repr - old(repr))
      ensures (View(), base) == AllocStep(old(View()), size, flags, node)
    {
      hide NoDup;
      if size == 0 {
        return 0;
      }
      var n := RoundUp(size);
      var cur := head;
      ghost var k := 0;
      while cur != null
        invariant k <= |nodes| && cur == NodeAt(nodes, k)
        invariant forall i :: 0 <= i < k ==> Regions()[i].Live() || Regions()[i].size < n
        decreases |nodes| - k
      {
        if Used !in cur.flags && cur.size >= n {
          FitIs(Regions(), n, k);
          base := Take(cur, k, n, flags, node);
          return;
        }
        assert LinkedAt(nodes, k);
        cur := cur.next;
        k := k + 1;
      }
      NoFit(Regions(), n);
      return 0;
    }

    /** The block at index `k` is large enough: it is cut to `n` bytes and taken. */
    method Take(cur: Node, ghost k: nat, n: nat, flags: Flags, node: bool) returns (base: nat)
      requires Linked() && k < |nodes| && cur == nodes[k] && n <= cur.size
      modifies this, repr
      ensures Linked() && fresh(repr - old(repr))
      ensures var b := old(Regions())[k];
              if Rest(b, n) != [] && !node then base == 0 && View() == old(View())
              else base == b.base && View() == Arena(Carve(old(Regions()), k, n, flags), CarveStats(old(stats), b, n))
    {
      hide NoDup, Carve, Sub64, Add64, Rest;
      ghost var bs := Regions();
      var ok := Fit(cur, k, n, node);
      if !ok {
        return 0;
      }
      Rewrite(cur, k, n, flags + {Used});
      stats := stats.(used := Add64(stats.used, n), free := Sub64(stats.free, n),
          usedRegions := Add64(stats.usedRegions, 1));
      CarveIs(bs, k, n, flags, stats);
      return cur.base;
    }

    /** The block is cut down to `n` bytes if the rest is worth a node; false if there is none. */
    method Fit(cur: Node, ghost k: nat, n: nat, node: bool) returns (ok: bool)
      requires Linked() && k < |nodes| && cur == nodes[k] && n <= cur.size
      modifies this`nodes, this`repr, this`stats, repr
      ensures Linked() && fresh(repr - old(repr)) && repr >= old(repr)
      ensures ok <==> Rest(old(Regions())[k], n) == [] || node
      ensures !ok ==> View() == old(View())
      ensures ok ==> k < |nodes| && cur == nodes[k]
                     && Regions() == old(Regions())[..k + 1] + Rest(old(Regions())[k], n) + old(Regions())[k + 1..]
                     && stats == old(stats).(regions := Add64(old(stats.regions), |Rest(old(Regions())[k], n)|))
    {
      hide NoDup, Add64;
      ghost var bs := Regions();
      ok := true;
      if cur.size - n >= 0x1000 {
        var split := RegionAlloc(node);
        if split == null {
          return false;
        }
        SplitOff(cur, split, k, n);
      } else {
        CarveIs(bs, k, n, {}, stats);
      }
    }

    /** The rest of the block becomes a free block of its own. */
    method SplitOff(cur: Node, split: Node, ghost k: nat, n: nat)
      requires Linked() && k < |nodes| && cur == nodes[k] && n <= cur.size && split !in repr
      modifies this`nodes, this`repr, this`stats, repr, split
      ensures Linked() && repr == old(repr) + {split} && |nodes| > k && nodes[k] == cur
      ensures Regions() == old(Regions())[..k + 1] + [Block(old(cur.base) + n, old(cur.size) - n, {})]
              + old(Regions())[k + 1..]
      ensures stats == old(stats).(regions := Add64(old(stats.regions), 1))
    {
      hide NoDup;
      ghost var bs := Regions();
      split.base, split.size, split.flags := cur.base + n, cur.size - n, {};
      forall i: nat | i < |nodes|
        ensures LinkedAt(nodes, i)
      {
        assert old(LinkedAt(nodes, i));
      }
      assert Regions() == bs;
      InsertAfter(cur, split, k);
      stats := stats.(regions := Add64(stats.regions, 1));
    }

    /** `vmm_free`. */
    method Free(base: nat)
      requires Linked()
      modifies this`nodes, this`stats, repr
      ensures Linked()
      ensures View() == FreeStep(old(View()), base)
    {
      hide NoDup;
      if base == 0 {
        return;
      }
      var cur := head;
      ghost var k := 0;
      while cur != null
        invariant k <= |nodes| && cur == NodeAt(nodes, k)
        invariant forall i :: 0 <= i < k ==> !(Regions()[i].base == base && Regions()[i].Live())
        decreases |nodes| - k
      {
        if cur.base == base && Used in cur.flags {
          FoundIs(Regions(), base, k);
          GiveBack(cur, k);
          return;
        }
        assert LinkedAt(nodes, k);
        cur := cur.next;
        k := k + 1;
      }
      NoneFound(Regions(), base);
    }

    /** The used block at index `k` becomes free and is merged with its neighbours. */
    method GiveBack(cur: Node, ghost k: nat)
      requires Linked() && k < |nodes| && cur == nodes[k]
      modifies this`nodes, this`stats, repr
      ensures Linked()
      ensures View() == Arena(Release(old(Regions()), k), ReleaseStats(old(stats), old(Regions()), k))
    {
      hide NoDup, MergeAt, Release, ReleaseStats, Cleared, Sub64, Add64;
      ghost var bs, st := Regions(), stats;
      stats := stats.(used := Sub64(stats.used, cur.size), free := Add64(stats.free, cur.size),
        usedRegions := Sub64(stats.usedRegions, 1));
      Rewrite(cur, k, cur.size, {});
      ClearedIs(bs, k);
      assert Regions() == Cleared(bs, k);
      MergeWithNext(cur, k);
      assert LinkedAt(nodes, k);
      if cur.prev != null {
        MergeWithNext(cur.prev, k - 1);
      }
      ReleaseIs(bs, k, st);
    }
  }

  lemma CarveIs(bs: Blocks, k: nat, n: nat, flags: Flags, st: Stats)
    requires k < |bs| && n <= bs[k].size
    ensures Carve(bs, k, n, flags)
            == (bs[..k + 1] + Rest(bs[k], n) + bs[k + 1..])[k := Block(bs[k].base, n, flags + {Used})]
    ensures Rest(bs[k], n) == [] ==>
              bs[..k + 1] + Rest(bs[k], n) + bs[k + 1..] == bs
              && Add64(st.regions, 0) == st.regions
  {
  }

  lemma MergeIs(bs: Blocks, cs: Blocks, k: nat)
    requires Mergeable(bs, k) && cs == bs[k := Block(bs[k].base, bs[k].size + bs[k + 1].size, bs[k].flags)]
    ensures MergeAt(bs, k) == cs[..k + 1] + cs[k + 2..]
  {
  }

  lemma ClearedIs(bs: Blocks, k: nat)
    requires k < |bs|
    ensures bs[k := Block(bs[k].base, bs[k].size, {})] == Cleared(bs, k) && |Cleared(bs, k)| == |bs|
  {
  }

  /** Two merges in a row, and the region count they leave. */
  lemma ReleaseIs(bs: Blocks, k: nat, st: Stats)
    requires k < |bs|
    ensures var m := MergeAt(Cleared(bs, k), k);
            var r := if k > 0 then MergeAt(m, k - 1) else m;
            && r == Release(bs, k)
            && ReleaseStats(st, bs, k) == Stats(st.total, Sub64(st.used, bs[k].size), Add64(st.free, bs[k].size),
                 if k > 0 then Sub64(Sub64(st.regions, |bs| - |m|), |m| - |r|) else Sub64(st.regions, |bs| - |m|),
                 Sub64(st.usedRegions, 1))
  {
    var m := MergeAt(Cleared(bs, k), k);
    ReleaseUnfold(bs, k, st);
    hide Release, ReleaseStats, MergeAt, Cleared, Sub64, Add64;
    if k > 0 {
      SubTwice(st.regions, |bs| - |m|, |m| - |MergeAt(m, k - 1)|);
    }
  }

  lemma ReleaseUnfold(bs: Blocks, k: nat, st: Stats)
    requires k < |bs|
    ensures var m := MergeAt(Cleared(bs, k), k); Release(bs, k) == if k > 0 then MergeAt(m, k - 1) else m
    ensures ReleaseStats(st, bs, k) == Stats(st.total, Sub64(st.used, bs[k].size), Add64(st.free, bs[k].size),
              Sub64(st.regions, |bs| - |Release(bs, k)|), Sub64(st.usedRegions, 1))
  {
    hide MergeAt, Cleared, Sub64, Add64;
  }

  lemma SubTwice(r: Word, a: int, b: int)
    ensures Sub64(Sub64(r, a), b) == Sub64(r, a + b)
  {
    var q := (r - a) / U64;
    assert Sub64(r, a) == r - a - q * U64;
    var p := (r - a - b) / U64;
    assert Sub64(r, a + b) == r - a - b - p * U64;
    SameResidue(r - a - b, Sub64(r, a) - b, q);
  }

  lemma SameResidue(x: int, y: int, q: int)
    requires y == x - q * U64
    ensures x % U64 == y % U64
  {
  }

  lemma {:induction false} FitIs(bs: Blocks, n: nat, k: nat)
    requires k < |bs| && !bs[k].Live() && bs[k].size >= n && forall i :: 0 <= i < k ==> bs[i].Live() || bs[i].size < n
    ensures FirstFit(bs, n) == Some(k)
  {
    var r := FirstFit(bs, n);
    assert r.Some?;
  }

  lemma NoFit(bs: Blocks, n: nat)
    requires forall i :: 0 <= i < |bs| ==> bs[i].Live() || bs[i].size < n
    ensures FirstFit(bs, n) == None
  {
    var r := FirstFit(bs, n);
  }

  lemma FoundIs(bs: Blocks, base: nat, k: nat)
    requires k < |bs| && bs[k].Live() && bs[k].base == base && forall i :: 0 <= i < k ==>
             !(bs[i].base == base && bs[i].Live())
    ensures FindLive(bs, base) == Some(k)
  {
    var r := FindLive(bs, base);
    assert r.Some?;
  }

  lemma NoneFound(bs: Blocks, base: nat)
    requires forall i :: 0 <= i < |bs| ==> !(bs[i].base == base && bs[i].Live())
    ensures FindLive(bs, base) == None
  {
    var r := FindLive(bs, base);
  }
}
