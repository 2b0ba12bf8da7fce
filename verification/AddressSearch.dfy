/** Where `mmap` without MAP_FIXED puts a mapping: first-fit search over the sorted region list of a space, with
    64-bit sums. */
module AddressSearch {
  import opened Layout
  import opened CopyOnWrite
  import opened CowInvariant
  import opened FrameBudget
  import opened MemoryView
  import opened PageTable
  import opened AccessRights
  import opened AddressSpaces

  const SEARCH_START: nat := 0x5000_0000
  const HINT_MIN: nat := 0x100_0000
  const ADDR_LIMIT: nat := 0x7FFF_FFFF_FFFF

  function Base(r: Region): nat { r.first * PAGE_SIZE }
  function Stop(r: Region): nat { r.End() * PAGE_SIZE }

  /** Bytes `v .. v + size` meet no region. */
  predicate Clear(rs: seq<Region>, v: nat, size: nat) {
    forall i :: 0 <= i < |rs| ==> Stop(rs[i]) <= v || Base(rs[i]) >= v + size
  }

  /** `is_vaddr_range_free`, with the sum it tests. */
  predicate RangeFree(rs: seq<Region>, v: nat, size: nat) {
    v >= HINT_MIN && (v + size) % U64 <= ADDR_LIMIT
    && forall i :: 0 <= i < |rs| ==> Stop(rs[i]) <= v || Base(rs[i]) >= (v + size) % U64
  }

  method IsVaddrRangeFree(rs: seq<Region>, v: Word, size: Word) returns (ok: bool)
    ensures ok <==> RangeFree(rs, v, size)
  {
    if v < HINT_MIN || (v + size) % U64 > ADDR_LIMIT {
      return false;
    }
    for i := 0 to |rs|
      invariant forall j :: 0 <= j < i ==> Stop(rs[j]) <= v || Base(rs[j]) >= (v + size) % U64
    {
      if !(Stop(rs[i]) <= v || Base(rs[i]) >= (v + size) % U64) {
        return false;
      }
    }
    return true;
  }

  /** The test means what it says exactly as long as the sum does not wrap. */
  lemma RangeFreeIff(rs: seq<Region>, v: Word, size: Word)
    requires Sorted(rs) && RangeFree(rs, v, size)
    ensures (v + size <= ADDR_LIMIT && Clear(rs, v, size)) <==> v + size < U64
  {
  }

  /** A range that passes although it covers a region and ends beyond the address space: its end wraps. */
  lemma WrappedRange()
    ensures var rs := [Region(0x1_0000, 1, {Used})];
            Sorted(rs) && RangeFree(rs, 0x200_0000, U64 - 0x100_0000) && !Clear(rs, 0x200_0000, U64 - 0x100_0000)
  {
    var rs := [Region(0x1_0000, 1, {Used})];
    assert Stop(rs[0]) > 0x200_0000 && Base(rs[0]) < 0x200_0000 + (U64 - 0x100_0000);
  }

  /** The highest address the search can come to. */
  function Highest(rs: seq<Region>): nat {
    if rs == [] || Stop(rs[|rs| - 1]) <= SEARCH_START then SEARCH_START else Stop(rs[|rs| - 1])
  }

  /** `v` is the least address from the search start up whose range is clear. */
  ghost predicate LeastClear(rs: seq<Region>, v: nat, size: nat) {
    && v >= SEARCH_START && Clear(rs, v, size)
    && forall x: nat :: SEARCH_START <= x < v ==> !Clear(rs, x, size)
  }

  /** What the search should answer. */
  ghost predicate Answer(rs: seq<Region>, v: nat, size: nat) {
    if v == 0 then forall x: nat :: SEARCH_START <= x && x + size <= ADDR_LIMIT ==> !Clear(rs, x, size)
    else LeastClear(rs, v, size) && v + size <= ADDR_LIMIT
  }

  /** The state of the search before region `i`: everything below `v` is ruled out, the regions before `i` are
      passed. */
  ghost predicate Searched(rs: seq<Region>, i: nat, v: nat, size: nat) {
    && i <= |rs| && SEARCH_START <= v <= Highest(rs)
    && (forall j :: 0 <= j < i ==> Stop(rs[j]) <= v)
    && (forall x: nat :: SEARCH_START <= x < v ==> !Clear(rs, x, size))
  }

  lemma HighestCovers(rs: seq<Region>, i: nat)
    requires Sorted(rs) && i < |rs|
    ensures Stop(rs[i]) <= Highest(rs) && Highest(rs) <= USER_PAGES * PAGE_SIZE
    ensures Base(rs[i]) < Stop(rs[i])
  {
    if i < |rs| - 1 {
      assert rs[i].End() <= rs[|rs| - 1].first;
    }
  }

  /** A region in the way moves the search behind it: every address before its end would meet it. */
  lemma Blocked(rs: seq<Region>, i: nat, v: nat, size: nat)
    requires Sorted(rs) && size > 0 && i < |rs| && Searched(rs, i, v, size) && v < Stop(rs[i]) && Base(rs[i]) < v + size
    ensures Searched(rs, i + 1, Stop(rs[i]), size)
  {
    HighestCovers(rs, i);
    forall x: nat | SEARCH_START <= x < Stop(rs[i])
      ensures !Clear(rs, x, size)
    {
      if x >= v {
        assert !(Stop(rs[i]) <= x || Base(rs[i]) >= x + size);
      }
    }
    forall j: nat | j < i
      ensures Stop(rs[j]) <= Stop(rs[i])
    {
      assert rs[j].End() <= rs[i].first;
    }
  }

  /** A gap before region `i`, or the end of the list: `v` is clear. */
  lemma GapClear(rs: seq<Region>, i: nat, v: nat, size: nat)
    requires Sorted(rs) && Searched(rs, i, v, size) && (i < |rs| ==> Base(rs[i]) >= v + size)
    ensures LeastClear(rs, v, size)
  {
    forall j: nat | j < |rs|
      ensures Stop(rs[j]) <= v || Base(rs[j]) >= v + size
    {
      if j > i {
        assert rs[i].End() <= rs[j].first;
      }
    }
  }

  /** `find_free_vaddr`. Right for every size whose sum with the highest candidate does not wrap; otherwise the
      answer is not 0 although nothing that large is free. */
  method FindFreeVaddr(rs: seq<Region>, size: Word) returns (v: nat)
    requires Sorted(rs)
    ensures size > 0 ==> (Answer(rs, v, size) <==> Highest(rs) + size < U64)
    ensures v % PAGE_SIZE == 0
  {
    v := SEARCH_START;
    var i := 0;
    while i < |rs|
      invariant i <= |rs| && v % PAGE_SIZE == 0 && (size > 0 ==> Searched(rs, i, v, size))
      decreases |rs| - i
    {
      HighestCovers(rs, i);
      if Stop(rs[i]) <= v {
        i := i + 1;
        continue;
      }
      if Base(rs[i]) >= (v + size) % U64 {
        break;
      }
      if size > 0 {
        Blocked(rs, i, v, size);
      }
      v := Stop(rs[i]);
      i := i + 1;
    }
    if size > 0 {
      FoundIff(rs, i, v, size);
    }
    if (v + size) % U64 > ADDR_LIMIT {
      return 0;
    }
  }

  lemma TopOfList(rs: seq<Region>)
    requires Sorted(rs)
    ensures SEARCH_START <= Highest(rs) <= USER_PAGES * PAGE_SIZE
  {
    if rs != [] {
      HighestCovers(rs, |rs| - 1);
    }
  }

  /** At the end of the list nothing is higher than the candidate. */
  lemma EndIsHighest(rs: seq<Region>, v: nat, size: nat)
    requires Sorted(rs) && Searched(rs, |rs|, v, size)
    ensures v == Highest(rs)
  {
    if rs != [] {
      assert Stop(rs[|rs| - 1]) <= v;
    }
  }

  /** Nothing is clear within the limit if the least clear address is not. */
  lemma BeyondLimit(rs: seq<Region>, v: nat, size: nat)
    requires LeastClear(rs, v, size) && v + size > ADDR_LIMIT
    ensures Answer(rs, 0, size)
  {
  }

  lemma FoundIff(rs: seq<Region>, i: nat, v: nat, size: Word)
    requires Sorted(rs) && size > 0 && Searched(rs, i, v, size)
    requires i < |rs| ==> v < Stop(rs[i]) && Base(rs[i]) >= (v + size) % U64
    ensures Answer(rs, if (v + size) % U64 > ADDR_LIMIT then 0 else v, size) <==> Highest(rs) + size < U64
  {
    TopOfList(rs);
    if i < |rs| {
      HighestCovers(rs, i);
    } else {
      EndIsHighest(rs, v, size);
    }
    if v + size < U64 {
      GapClear(rs, i, v, size);
      if v + size > ADDR_LIMIT {
        BeyondLimit(rs, v, size);
      }
    }
  }

  /** `(u64)-1`. */
  const FAILED: nat := U64 - 1

  /** The search answers with an address although nothing that large can be free: the sum wraps. */
  method WrappedSearch() returns (v: nat)
    ensures v != 0 && !Answer([], v, U64 - 0x1000_0000) && Answer([], 0, U64 - 0x1000_0000)
  {
    v := FindFreeVaddr([], U64 - 0x1000_0000);
  }

  /** The length in pages; the rounding wraps for the last 4095 lengths. */
  function PagesFor(length: Word): nat { (length + PAGE_SIZE - 1) % U64 / PAGE_SIZE }

  /** The pages hold the length and no page is too many, exactly if the rounding does not wrap. */
  lemma PagesForIff(length: Word)
    ensures (length <= PagesFor(length) * PAGE_SIZE < length + PAGE_SIZE) <==> length + PAGE_SIZE - 1 < U64
    ensures length + PAGE_SIZE - 1 >= U64 ==> PagesFor(length) == 0
  {
    var sum := length + PAGE_SIZE - 1;
    if sum >= U64 {
      assert sum % U64 == sum - U64;
    }
  }

  /** What the protection arguments ask for; everything mapped can be read. */
  predicate ProtAsks(write: bool, exec: bool, k: Access) {
    match k
    case Reading => true
    case Writing => write
    case Executing => exec
  }

  lemma ProtFlagsAsk(read: bool, write: bool, exec: bool)
    ensures var flags := ProtFlags(read, write, exec);
            && (forall k :: Asked(flags, k) <==> ProtAsks(write, exec, k))
            && forall f :: f in flags <==> f == User || f == Used || (f == Read && read)
                                           || (f == RegionFlag.Write && write) || (f == Exec && exec)
  {
  }

  /** On its pages a mapping gives user code exactly the rights that were asked for, by the processor's tables and in
      the flat state. */
  ghost predicate ProtGranted(t: Tables, a: State, s: nat, first: nat, n: nat, write: bool, exec: bool) {
    forall p: nat, k :: first <= p < first + n ==>
                          && (WalkPasses(t, s, p, 4, k) <==> ProtAsks(write, exec, k))
                          && (May(a, s, p, k) <==> ProtAsks(write, exec, k))
  }

  lemma ProtGrants(t: Tables, a: State, s: nat, first: nat, n: nat, read: bool, write: bool, exec: bool)
    requires Granted(a, s, first, n, ProtFlags(read, write, exec))
    requires HardwareGrants(t, s, first, n, ProtFlags(read, write, exec))
    ensures ProtGranted(t, a, s, first, n, write, exec)
  {
    ProtFlagsAsk(read, write, exec);
    hide ProtFlags, Asked, ProtAsks, May, WalkPasses, Passes;
  }

  function ProtFlags(read: bool, write: bool, exec: bool): Flags {
    {User, Used} + (if read then {Read} else {}) + (if write then {Write} else {}) + (if exec then {Exec} else {})
  }

  /** The hint, rounded down to a page. */
  function Aligned(hint: Word): Word { hint - hint % PAGE_SIZE }

  lemma AlignedDown(hint: Word)
    ensures Aligned(hint) % PAGE_SIZE == 0 && Aligned(hint) <= hint < Aligned(hint) + PAGE_SIZE
  {
  }

  /** The hint is taken if its range is clear and within the limits. */
  predicate HintTaken(rs: seq<Region>, hint: Word, size: nat) {
    hint != 0 && Aligned(hint) >= HINT_MIN && Aligned(hint) + size <= ADDR_LIMIT && Clear(rs, Aligned(hint), size)
  }

  /** Where the mapping should go. */
  ghost predicate Target(rs: seq<Region>, hint: Word, size: nat, v: nat) {
    if HintTaken(rs, hint, size) then v == Aligned(hint) else LeastClear(rs, v, size) && v + size <= ADDR_LIMIT
  }

  lemma TheTarget(rs: seq<Region>, hint: Word, size: nat, v: nat)
    requires if HintTaken(rs, hint, size) then v == Aligned(hint) else v != 0 && Answer(rs, v, size)
    ensures Target(rs, hint, size, v) && forall w: nat :: Target(rs, hint, size, w) ==> w == v
    ensures v != 0 && v + size <= ADDR_LIMIT && Clear(rs, v, size)
    ensures if HintTaken(rs, hint, size) then v == Aligned(hint) else LeastClear(rs, v, size)
  {
  }

  lemma TakenNonzero(rs: seq<Region>, hint: Word, size: nat)
    ensures HintTaken(rs, hint, size) ==> Aligned(hint) != 0
  {
  }

  lemma NoTarget(rs: seq<Region>, hint: Word, size: nat)
    requires !HintTaken(rs, hint, size) && Answer(rs, 0, size)
    ensures forall v: nat :: !Target(rs, hint, size, v)
  {
  }

  /** No 64-bit sum of the search wraps. */
  predicate SumsFit(rs: seq<Region>, hint: Word, length: Word) {
    Aligned(hint) + PagesFor(length) * PAGE_SIZE < U64 && Highest(rs) + PagesFor(length) * PAGE_SIZE < U64
  }

  lemma ClearPages(rs: seq<Region>, v: nat, n: nat)
    requires v % PAGE_SIZE == 0 && Clear(rs, v, n * PAGE_SIZE)
    ensures forall p: nat :: v / PAGE_SIZE <= p < v / PAGE_SIZE + n ==> !Covered(rs, p)
  {
    forall p: nat | v / PAGE_SIZE <= p < v / PAGE_SIZE + n
      ensures !Covered(rs, p)
    {
      forall i: nat | i < |rs|
        ensures !rs[i].Covers(p)
      {
        assert Stop(rs[i]) <= v || Base(rs[i]) >= v + n * PAGE_SIZE;
      }
    }
  }

  lemma BelowLimit(v: nat, n: nat)
    requires v + n * PAGE_SIZE <= ADDR_LIMIT
    ensures v / PAGE_SIZE + n <= USER_PAGES
  {
  }

  lemma SpaceSorted(vm: Vmm, s: nat)
    requires vm.Valid() && s in vm.spaces
    ensures Sorted(vm.spaces[s].regions)
  {
    assert TiledSpace(vm.View().spaces[s], vm.View().pt, s);
  }

  /** The part of `sys_mmap` that picks an address; 0 if there is none. */
  method PickAddress(rs: seq<Region>, hint: Word, size: Word) returns (v: nat)
    requires Sorted(rs) && size > 0 && Aligned(hint) + size < U64 && Highest(rs) + size < U64
    ensures v % PAGE_SIZE == 0 && if HintTaken(rs, hint, size) then v == Aligned(hint) else Answer(rs, v, size)
  {
    v := 0;
    if hint != 0 {
      var ok := IsVaddrRangeFree(rs, Aligned(hint), size);
      if ok {
        RangeFreeIff(rs, Aligned(hint), size);
        v := Aligned(hint);
      }
    }
    if v == 0 {
      v := FindFreeVaddr(rs, size);
    }
  }

  /** The allocation at the pages that were picked. */
  method MapAt(vm: Vmm, s: nat, p: nat, n: nat, flags: Flags)
    returns (out: Outcome, ghost frames: seq<nat>, ghost fill: seq<Page>)
    requires vm.Valid() && s in vm.spaces && n > 0 && p + n <= USER_PAGES && Cow !in flags && Mmio !in flags
    requires forall q: nat :: p <= q < p + n ==> !Covered(vm.spaces[s].regions, q)
    modifies vm, vm.phys.bitmap, vm.phys.rc
    ensures out.Done? <==> |old(vm.phys.Free())| >= Need(old(vm.tables), s, p, n)
    ensures !out.Done? ==> vm.phys.Free() == {}
    ensures out.Failed? ==> vm.Valid() && vm.View() == old(vm.View())
    ensures out.Done? ==> vm.Valid() && s in vm.spaces && Sorted(vm.spaces[s].regions)
    ensures out.Done? ==> |frames| == n && |fill| == |frames|
    ensures out.Done? ==> vm.View() == DoAlloc(old(vm.View()), s, p, flags, frames, fill)
    ensures out.Done? ==> Granted(vm.View(), s, p, n, flags) && HardwareGrants(vm.tables, s, p, n, flags)
    ensures out.Done? ==> RightsKept(old(vm.View()), vm.View(), s, p, n)
  {
    hide Settled, Need, Lost, DoAlloc, Covered, Inv, Spent, Paths, AllocOk, Granted, HardwareGrants, RightsKept;
    ghost var c := vm.View();
    out, frames, fill := vm.SpaceAlloc(s, p, n, flags);
    if out.Done? {
      FillThere(c, s, p, flags, frames, fill);
      SpaceSorted(vm, s);
    }
  }

  lemma FillThere(c: State, s: nat, first: nat, flags: Flags, frames: seq<nat>, fill: seq<Page>)
    requires AllocOk(c, s, first, flags, frames, fill)
    ensures |fill| == |frames| && s in DoAlloc(c, s, first, flags, frames, fill).spaces
  {
  }

  /** The allocation at a clear address, with the rights asked for. */
  method MapTarget(vm: Vmm, s: nat, v: nat, n: nat, read: bool, write: bool, exec: bool)
    returns (out: Outcome, ghost frames: seq<nat>, ghost fill: seq<Page>)
    requires vm.Valid() && s in vm.spaces && n > 0 && v % PAGE_SIZE == 0 && v + n * PAGE_SIZE <= ADDR_LIMIT
    requires Clear(vm.spaces[s].regions, v, n * PAGE_SIZE)
    modifies vm, vm.phys.bitmap, vm.phys.rc
    ensures out.Done? <==> |old(vm.phys.Free())| >= Need(old(vm.tables), s, v / PAGE_SIZE, n)
    ensures !out.Done? ==> vm.phys.Free() == {}
    ensures out.Failed? ==> vm.Valid() && vm.View() == old(vm.View())
    ensures out.Done? ==> vm.Valid() && s in vm.spaces && Sorted(vm.spaces[s].regions)
    ensures out.Done? ==> |frames| == n && |fill| == |frames|
    ensures out.Done? ==>
              vm.View() == DoAlloc(old(vm.View()), s, v / PAGE_SIZE, ProtFlags(read, write, exec), frames, fill)
    ensures out.Done? ==>
              ProtGranted(vm.tables, vm.View(), s, v / PAGE_SIZE, n, write, exec)
              && RightsKept(old(vm.View()), vm.View(), s, v / PAGE_SIZE, n)
  {
    hide Settled, Need, DoAlloc, Inv, Vmm.Valid, Vmm.View, Clear, Granted, HardwareGrants, RightsKept, ProtGranted,
        ProtFlags, Sorted;
    ProtFlagsAsk(read, write, exec);
    ClearPages(vm.spaces[s].regions, v, n);
    BelowLimit(v, n);
    out, frames, fill := MapAt(vm, s, v / PAGE_SIZE, n, ProtFlags(read, write, exec));
    if out.Done? {
      ProtGrants(vm.tables, vm.View(), s, v / PAGE_SIZE, n, read, write, exec);
    }
  }

  /** `sys_mmap` without MAP_FIXED, of anonymous memory: the hint if it is free, else the least free address; the
      list stays sorted and nothing else changes. */
  method Mmap(vm: Vmm, s: nat, hint: Word, length: Word, read: bool, write: bool, exec: bool)
    returns (r: nat, out: Outcome, ghost frames: seq<nat>, ghost fill: seq<Page>)
    requires vm.Valid() && s in vm.spaces && SumsFit(vm.spaces[s].regions, hint, length)
    modifies vm, vm.phys.bitmap, vm.phys.rc
    ensures out.Done? <==> r != FAILED
    ensures var rs, n := old(vm.spaces[s].regions), PagesFor(length);
            out.Done? <==> n > 0 && exists v: nat ::
                             Target(rs, hint, n * PAGE_SIZE, v)
                             && |old(vm.phys.Free())| >= Need(old(vm.tables), s, v / PAGE_SIZE, n)
    ensures out.Panicked? ==> vm.phys.Free() == {}
    ensures out.Failed? ==> vm.Valid() && vm.View() == old(vm.View())
    ensures out.Failed? ==>
              PagesFor(length) == 0 || vm.phys.Free() == {}
              || Answer(old(vm.spaces[s].regions), 0, PagesFor(length) * PAGE_SIZE)
    ensures out.Done? ==> vm.Valid() && s in vm.spaces && Sorted(vm.spaces[s].regions)
    ensures out.Done? ==>
      var rs, size := old(vm.spaces[s].regions), PagesFor(length) * PAGE_SIZE;
      && r % PAGE_SIZE == 0 && r + size <= ADDR_LIMIT && Clear(rs, r, size)
      && (if HintTaken(rs, hint, size) then r == Aligned(hint) else LeastClear(rs, r, size))
      && |frames| == PagesFor(length) && |fill| == |frames|
      && vm.View() == DoAlloc(old(vm.View()), s, r / PAGE_SIZE, ProtFlags(read, write, exec), frames, fill)
    ensures out.Done? ==> length <= PagesFor(length) * PAGE_SIZE < length + PAGE_SIZE
    ensures out.Done? && HintTaken(old(vm.spaces[s].regions), hint, PagesFor(length) * PAGE_SIZE) ==>
              r <= hint < r + PAGE_SIZE
    ensures out.Done? ==>
              ProtGranted(vm.tables, vm.View(), s, r / PAGE_SIZE, PagesFor(length), write, exec)
              && RightsKept(old(vm.View()), vm.View(), s, r / PAGE_SIZE, PagesFor(length))
  {
    frames, fill := [], [];
    SpaceSorted(vm, s);
    hide Settled, Need, Target, DoAlloc, Inv, Vmm.Valid, Vmm.View, Clear, LeastClear, HintTaken, Aligned,
        PagesFor, Granted, HardwareGrants, RightsKept, ProtGranted, ProtFlags;
    PagesForIff(length);
    AlignedDown(hint);
    var n := PagesFor(length);
    if n == 0 {
      return FAILED, Failed, [], [];
    }
    ghost var rs := vm.spaces[s].regions;
    var v := PickAddress(vm.spaces[s].regions, hint, n * PAGE_SIZE);
    if v == 0 {
      TakenNonzero(rs, hint, n * PAGE_SIZE);
      NoTarget(rs, hint, n * PAGE_SIZE);
      return FAILED, Failed, [], [];
    }
    TheTarget(rs, hint, n * PAGE_SIZE, v);
    out, frames, fill := MapTarget(vm, s, v, n, read, write, exec);
    r := if out.Done? then v else FAILED;
  }
}
