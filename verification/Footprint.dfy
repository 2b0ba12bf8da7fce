/** Which frames a set of address spaces occupies: in a tight tree the mapping alone decides. Allocating and
    freeing cancel out, and a destroyed space gives back exactly what only it used. */
module Footprint {
  import opened Layout
  import opened PhysMem
  import opened PageTable
  import opened CopyOnWrite
  import opened CowInvariant
  import opened MemoryView
  import opened AddressSpaces
  import opened FrameBudget

  /** The two page tables agree on space `s`. */
  ghost predicate SameSpace(a: Snapshot, b: Snapshot, s: nat) {
    forall v: nat :: v < USER_PAGES ==> Lookup(a.tables, s, v) == Lookup(b.tables, s, v)
  }

  /** Two tight trees inside one larger tree that translate a space alike use the same tables for it. */
  lemma TablesStay(a: Snapshot, b: Snapshot, m: Snapshot, ra: set<nat>, rb: set<nat>, rm: set<nat>, g: nat)
    requires Tree(a.tables, a.roles, ra) && Tree(b.tables, b.roles, rb) && Tree(m.tables, m.roles, rm)
    requires Tight(a.tables, a.roles) && Subroles(a.roles, m.roles) && Subroles(b.roles, m.roles)
    requires IsTable(a.roles, g) && a.roles[g].space in ra && a.roles[g].space in rb
             && SameSpace(a, b, a.roles[g].space)
    ensures g in b.roles
  {
    assert TableOk(a.tables, a.roles, ra, g);
    var s, l := a.roles[g].space, a.roles[g].level;
    if l < 4 {
      var v := TightServes(a.tables, a.roles, ra, g);
      assert Lookup(b.tables, s, v).Entry?;
      ServedBy(b.tables, s, v, l);
      var h := WalkTo(b.tables, s, v, l).value;
      WalkRole(b.tables, b.roles, rb, s, v, l);
      SamePlace(m, rm, g, h, v);
    }
  }

  /** A page that is mapped has a table at every level. */
  lemma ServedBy(t: Tables, s: nat, v: nat, l: nat)
    requires Lookup(t, s, v).Entry? && 1 <= l <= 4
    ensures WalkTo(t, s, v, l).Some?
  {
    assert WalkTo(t, s, v, 1).Some?;
    assert WalkTo(t, s, v, 2).Some?;
    assert WalkTo(t, s, v, 3).Some?;
  }

  /** A place in the tree holds one frame. */
  lemma SamePlace(m: Snapshot, rm: set<nat>, g: nat, h: nat, v: nat)
    requires Tree(m.tables, m.roles, rm) && IsTable(m.roles, g) && IsTable(m.roles, h) && v < USER_PAGES
    requires m.roles[g].space == m.roles[h].space && m.roles[g].level == m.roles[h].level
    requires m.roles[g].prefix == m.roles[h].prefix == Pre(v, m.roles[g].level)
    ensures g == h
  {
    assert TableOk(m.tables, m.roles, rm, g) && TableOk(m.tables, m.roles, rm, h);
    AnchoredWalk(m.tables, m.roles, rm, g, v);
    AnchoredWalk(m.tables, m.roles, rm, h, v);
  }

  lemma ShownAlike(a: Snapshot, b: Snapshot, c: State, d: State, top: Table, total: nat, s: nat)
    requires Shown(a, c, top, total) && Shown(b, d, top, total) && s in c.spaces && s in d.spaces
    requires forall v: nat :: At(c.pt, s, v) == At(d.pt, s, v)
    ensures SameSpace(a, b, s)
  {
    forall v: nat | v < USER_PAGES
      ensures Lookup(a.tables, s, v) == Lookup(b.tables, s, v)
    {
      AgreesAt(a.tables, c.pt, c.spaces.Keys, s, v);
      AgreesAt(b.tables, d.pt, d.spaces.Keys, s, v);
    }
  }

  /** The data frames in use are the counted ones. */
  lemma DataFrames(a: Snapshot, c: State, top: Table, total: nat, f: nat)
    requires Shown(a, c, top, total)
    ensures f in c.rc <==> f in a.roles && a.roles[f] == DataFrame
  {
    assert f in CountsOf(a.roles, a.counts) <==> f in c.rc;
  }

  lemma TableOfRoot(t: Tables, roles: Roles, roots: set<nat>, f: nat)
    requires Tree(t, roles, roots) && IsTable(roles, f)
    ensures roles[f].space in roots
  {
    assert TableOk(t, roles, roots, f);
  }

  lemma FootprintWithin(a: Snapshot, b: Snapshot, m: Snapshot, c: State, top: Table, total: nat, rm: set<nat>)
    requires Shown(a, c, top, total) && Shown(b, c, top, total) && Tight(a.tables, a.roles)
    requires Tree(m.tables, m.roles, rm) && Subroles(a.roles, m.roles) && Subroles(b.roles, m.roles)
    ensures a.roles.Keys <= b.roles.Keys
  {
    hide Upper, InUse, Agrees, Lookup, Tight, Tree, CountsOf, PagesOf;
    var roots := c.spaces.Keys;
    forall g | g in a.roles
      ensures g in b.roles
    {
      if a.roles[g].TableFrame? {
        TableOfRoot(a.tables, a.roles, roots, g);
        ShownAlike(a, b, c, c, top, total, a.roles[g].space);
        TablesStay(a, b, m, roots, roots, rm, g);
      } else {
        DataFrames(a, c, top, total, g);
        DataFrames(b, c, top, total, g);
      }
    }
  }

  /** The same flat state, shown tightly inside one larger tree from one pool of frames: the same frames in
      the same roles, hence the same free frames. */
  lemma SameFootprint(a: Snapshot, b: Snapshot, m: Snapshot, c: State, top: Table, total: nat, rm: set<nat>)
    requires Shown(a, c, top, total) && Shown(b, c, top, total) && Tight(a.tables, a.roles) && Tight(b.tables, b.roles)
    requires Tree(m.tables, m.roles, rm) && Subroles(a.roles, m.roles) && Subroles(b.roles, m.roles)
    requires b.free + b.roles.Keys == a.free + a.roles.Keys
    ensures b.roles == a.roles && b.free == a.free
  {
    FootprintWithin(a, b, m, c, top, total, rm);
    FootprintWithin(b, a, m, c, top, total, rm);
    hide Mem, Agrees, Tight, Tree;
    assert b.free == (b.free + b.roles.Keys) - b.roles.Keys;
    assert a.free == (a.free + a.roles.Keys) - a.roles.Keys;
  }

  // ---------- allocate, then free ----------

  lemma BaseUnique(rs: seq<Region>, k: nat)
    requires Sorted(rs) && k < |rs|
    ensures FindBase(rs, rs[k].first) == Some(k)
  {
    var m := FindBase(rs, rs[k].first);
    assert m.Some? && rs[m.value].first == rs[k].first;
  }

  lemma InsertedBase(rs: seq<Region>, r: Region)
    requires Sorted(Insert(rs, r))
    ensures InsertAt(rs, r.first) < |Insert(rs, r)| && Insert(rs, r)[InsertAt(rs, r.first)] == r
    ensures FindBase(Insert(rs, r), r.first) == Some(InsertAt(rs, r.first))
  {
    hide Sorted, FindBase;
    InsertIndex(rs, r, InsertAt(rs, r.first));
    BaseUnique(Insert(rs, r), InsertAt(rs, r.first));
  }

  lemma LinkUnlink(sp: Space, r: Region)
    ensures RemoveAt(Insert(sp.regions, r), InsertAt(sp.regions, r.first)) == sp.regions
    ensures UnlinkRegion(LinkRegion(sp, r), InsertAt(sp.regions, r.first)) == sp
  {
  }

  lemma NewFramesGone(pt: Mapping, s: nat, first: nat, flags: Flags, frames: seq<nat>)
    requires forall v: nat :: first <= v < first + |frames| ==> (s, v) !in pt
    ensures var r := Region(first, |frames|, flags + {Used});
            && Unmap(MapRange(pt, s, first, flags, frames), s, r) == pt
            && FramesIn(MapRange(pt, s, first, flags, frames), s, r) == ToSet(frames)
  {
    var r, qt := Region(first, |frames|, flags + {Used}), MapRange(pt, s, first, flags, frames);
    forall x: Slot
      ensures x in Unmap(qt, s, r) <==> x in pt
      ensures x in pt ==> Unmap(qt, s, r)[x] == pt[x]
    {
      MapRangeAt(pt, s, first, flags, frames, x);
      assert x.0 == s ==> x == (s, x.1);
    }
    forall f: nat
      ensures f in FramesIn(qt, s, r) <==> f in frames
    {
      if f in FramesIn(qt, s, r) {
        var x :| x in qt && x.0 == s && r.Covers(x.1) && qt[x].Entry? && qt[x].frame == f;
        MapRangeAt(pt, s, first, flags, frames, x);
      }
      if f in frames {
        var i: nat :| i < |frames| && frames[i] == f;
        MapRangeAt(pt, s, first, flags, frames, (s, first + i));
      }
    }
  }

  lemma NewCountsGone(rc: map<nat, nat>, pages: map<nat, Page>, frames: seq<nat>, fill: seq<Page>)
    requires |fill| == |frames| && rc.Keys == pages.Keys && forall f :: f in frames ==> f !in rc
    ensures DropCounts(rc + NewCounts(frames), ToSet(frames)) == rc
    ensures pages + NewContents(frames, fill) - Gone(rc + NewCounts(frames), ToSet(frames)) == pages
  {
  }

  /** Freeing the region that was just allocated is the inverse of allocating it. */
  lemma AllocFreeFlat(c: State, s: nat, first: nat, flags: Flags, frames: seq<nat>, fill: seq<Page>)
    requires Inv(c) && AllocOk(c, s, first, flags, frames, fill)
    ensures var b := DoAlloc(c, s, first, flags, frames, fill);
            s in b.spaces && FindBase(b.spaces[s].regions, first).Some?
            && DoFree(b, s, FindBase(b.spaces[s].regions, first).value) == c
  {
    hide Exclusive, OnePage, Sorted, BitsSpace, MapRange, Unmap, DropCounts, Gone, NewCounts, NewContents, FramesIn,
      Insert, RemoveAt, FindBase, Exact, UnlinkRegion;
    AllocKeeps(c, s, first, flags, frames, fill);
    var b, r := DoAlloc(c, s, first, flags, frames, fill), Region(first, |frames|, flags + {Used});
    assert TiledSpace(b.spaces[s], b.pt, s);
    InsertedBase(c.spaces[s].regions, r);
    LinkUnlink(c.spaces[s], r);
    Unmapped(c, s, first, |frames|);
    NewFramesGone(c.pt, s, first, flags, frames);
    NewCountsGone(c.rc, c.pages, frames, fill);
    assert c.spaces[s := b.spaces[s]][s := c.spaces[s]] == c.spaces;
  }

  /** `vmm_space_alloc` then `vmm_space_free` of the same base: mappings, counts, region list, the use of every
      frame and the set of free frames are what they were. */
  method AllocThenFree(vm: Vmm, s: nat, first: nat, n: nat, flags: Flags) returns (r: Outcome)
    requires vm.Valid() && Tight(vm.tables, vm.roles) && s in vm.spaces && Cow !in flags && Mmio !in flags
    requires 0 < first && 0 < n && first + n <= USER_PAGES
    requires forall v: nat :: first <= v < first + n ==> !Covered(vm.spaces[s].regions, v)
    modifies vm, vm.phys.bitmap, vm.phys.rc
    ensures r.Done? ==> vm.Valid() && vm.View() == old(vm.View())
    ensures r.Done? ==> vm.roles == old(vm.roles) && vm.phys.Free() == old(vm.phys.Free())
    ensures r.Done? <==> |old(vm.phys.Free())| >= Need(old(vm.tables), s, first, n)
    ensures !r.Done? ==> vm.phys.Free() == {}
  {
    hide Tree, Upper, Agrees, Tight, Inv, DoAlloc, DoFree, Need, Lost;
    ghost var a, c := vm.Snap(), vm.View();
    ghost var frames, fill;
    r, frames, fill := vm.SpaceAlloc(s, first, n, flags);
    if r.Done? {
      ghost var m, roots := vm.Snap(), vm.spaces.Keys;
      AllocFreeFlat(c, s, first, flags, frames, fill);
      vm.SpaceFree(s, first);
      SameFootprint(a, vm.Snap(), m, c, vm.top, vm.phys.total, roots);
    }
  }

  /** The first two pages of a new space need five frames. */
  lemma FirstPages(a: Snapshot, t: Tables, roles: Roles, roots: set<nat>, s: nat)
    requires Tree(a.tables, a.roles, roots) && s !in roots && roles == RootRoles(a.roles, s)
    requires Tree(t, roles, roots + {s})
    ensures Need(t, s, 1, 1) == 4 && Need(t, s, 1, 2) == 5
  {
    NewRoot(a, a.(roles := roles), roots, s);
    NeedIs(t, roles, roots + {s}, s, 1, 1);
    NeedIs(t, roles, roots + {s}, s, 1, 2);
    assert Pre(1, 1) == Pre(2, 1) == Pre(1, 2) == Pre(2, 2) == Pre(1, 3) == Pre(2, 3) == 0;
    assert Paths(1, 1) == Path(1) == {(3, 0), (2, 0), (1, 0)};
    assert Paths(1, 2) == Paths(1, 1) + Path(2) == {(3, 0), (2, 0), (1, 0)};
    assert {(3, 0), (2, 0), (1, 0)} - {(4, 0)} == {(3, 0), (2, 0), (1, 0)};
  }

  /** A machine with five frames, one of them the root of a space. */
  method FiveFrames() returns (vm: Vmm, s: nat)
    ensures fresh(vm) && fresh(vm.phys.bitmap) && fresh(vm.phys.rc) && vm.Valid() && s in vm.spaces
    ensures vm.spaces[s] == Space([], 0, 0)
    ensures vm.phys.Free() + vm.roles.Keys == {1, 2, 3, 4, 5} && |vm.phys.Free()| == 4
    ensures Need(vm.tables, s, 1, 1) == 4 && Need(vm.tables, s, 1, 2) == 5
  {
    hide Inv, Tree, Need, Upper, Agrees, FrameAllocator.Free, FrameAllocator.Valid;
    var pool := FivePool();
    vm := new Vmm(pool, seq(256, _ => Absent));
    ghost var a := vm.Snap();
    s := vm.SpaceCreate();
    assert vm.spaces.Keys == vm.View().spaces.Keys == {} + {s};
    FirstPages(a, vm.tables, vm.roles, {}, s);
    FourLeft(a.free, s);
  }

  method FivePool() returns (pool: FrameAllocator)
    ensures fresh(pool) && fresh(pool.bitmap) && fresh(pool.rc) && pool.Valid()
    ensures pool.Free() == {1, 2, 3, 4, 5} && 0 !in pool.Free()
  {
    pool := new FrameAllocator(6);
    pool.FreeTo(PAGE_SIZE, 5);
  }

  lemma FourLeft(free: set<nat>, s: nat)
    requires free == {1, 2, 3, 4, 5} && s in free
    ensures |free - {s}| == 4
  {
  }

  lemma NeedZero(t: Tables, s: nat)
    ensures Need(t, s, 1, 0) == 0
  {
    assert Missing(t, s, 1, 0) == {};
  }

  lemma OneLost(a: Snapshot, b: Snapshot, frames: seq<nat>, pool: set<nat>)
    requires Lost(a, b, frames) && |frames| == 1 && a.free + a.roles.Keys == pool && b.free == {}
    ensures frames[0] !in b.roles && {frames[0]} + b.roles.Keys == pool
  {
    assert frames[0] in frames && ToSet(frames) == {frames[0]};
  }

  /** Two pages of that space need five frames. The first page and its tables take the four that are left, and when
      the allocation has failed one frame is neither free nor in use. */
  method LosesAFrame() returns (vm: Vmm, s: nat, r: Outcome, ghost frames: seq<nat>)
    ensures fresh(vm) && vm.Valid() && s in vm.spaces && vm.spaces[s].regions == []
    ensures r.Failed? && |frames| == 1 && frames[0] !in vm.roles && vm.phys.Free() == {}
    ensures {frames[0]} + vm.roles.Keys == {1, 2, 3, 4, 5}
  {
    hide Need, Inv, Tree, DoAlloc, Lost, Upper, Agrees, Settled;
    vm, s := FiveFrames();
    ghost var a, fill := vm.Snap(), [];
    r, frames, fill := vm.SpaceAlloc(s, 1, 2, {});
    NeedZero(a.tables, s);
    OneLost(a, vm.Snap(), frames, {1, 2, 3, 4, 5});
  }

  // ---------- destroy ----------

  function Others(pt: Mapping, s: nat): Mapping {
    map x | x in pt && x.0 != s :: pt[x]
  }

  /** Destroying a space takes its mappings away and nothing else. */
  lemma {:induction false} DestroyMeans(c: State, s: nat)
    requires Inv(c) && s in c.spaces
    ensures Inv(DoDestroy(c, s)) && DoDestroy(c, s).spaces == c.spaces - {s} && DoDestroy(c, s).pt == Others(c.pt, s)
    decreases |c.spaces[s].regions|
  {
    hide Inv, Base, Exact, DropRange, UnlinkRegion;
    if c.spaces[s].regions == [] {
      RetireKeeps(c, s);
      NothingMapped(c, s);
    } else {
      FreeKeeps(c, s, 0);
      var b := DoFree(c, s, 0);
      UnlinkFirst(c.spaces[s]);
      DestroyMeans(b, s);
      OthersUnmapped(c.pt, s, c.spaces[s].regions[0]);
      DropPt(c, s, c.spaces[s].regions[0]);
      assert b.spaces - {s} == c.spaces - {s};
    }
  }

  lemma DropPt(c: State, s: nat, r: Region)
    ensures DropRange(c, s, r).pt == Unmap(c.pt, s, r)
  {
  }

  lemma UnlinkFirst(sp: Space)
    requires sp.regions != []
    ensures |UnlinkRegion(sp, 0).regions| == |sp.regions| - 1
  {
  }

  lemma NothingMapped(c: State, s: nat)
    requires Inv(c) && s in c.spaces && c.spaces[s].regions == []
    ensures Others(c.pt, s) == c.pt
  {
    hide Exclusive, OnePage, Linked, Exact, Bits;
    NoPages(c.spaces[s], c.pt, s);
  }

  lemma OthersUnmapped(pt: Mapping, s: nat, r: Region)
    ensures Others(Unmap(pt, s, r), s) == Others(pt, s)
  {
  }

  /** The frames only `s` uses: its tables, and the data frames that no other space maps. */
  ghost function OwnFrames(a: Snapshot, pt: Mapping, s: nat): set<nat> {
    set f | f in a.roles
            && if a.roles[f].TableFrame? then a.roles[f].space == s else forall x :: x in Mappers(pt, f) ==> x.0 == s
  }

  /** A data frame leaves with a space exactly if no other space maps it. */
  lemma DataLeaves(c: State, s: nat, f: nat)
    requires Inv(c) && s in c.spaces && f in c.rc
    ensures f in DoDestroy(c, s).rc <==> exists x :: x in Mappers(c.pt, f) && x.0 != s
  {
    DestroyMeans(c, s);
    var b := DoDestroy(c, s);
    if x :| x in Mappers(c.pt, f) && x.0 != s {
      assert x in b.pt && b.pt[x] == c.pt[x];
    }
    if f in b.rc {
      assert Mappers(b.pt, f) != {};
      var x :| x in Mappers(b.pt, f);
      assert x in Mappers(c.pt, f);
    }
  }

  lemma RoleStays(a: Snapshot, b: Snapshot, c: State, top: Table, total: nat, s: nat, f: nat)
    requires Settled(a, c, top, total) && s in c.spaces && Settled(b, DoDestroy(c, s), top, total)
    requires Tight(a.tables, a.roles) && Subroles(b.roles, a.roles) && f in a.roles
    ensures f in b.roles <==> f !in OwnFrames(a, c.pt, s)
  {
    hide Upper, InUse, Agrees, Lookup, Tight, DoDestroy, Inv, Subroles;
    DestroyMeans(c, s);
    if a.roles[f].TableFrame? {
      TableStays(a, b, c, top, total, s, f);
    } else {
      DataFrames(a, c, top, total, f);
      DataLeaves(c, s, f);
      SubDataFrame(a, b, DoDestroy(c, s), top, total, f);
    }
  }

  lemma SubDataFrame(a: Snapshot, b: Snapshot, d: State, top: Table, total: nat, f: nat)
    requires Shown(b, d, top, total) && Subroles(b.roles, a.roles) && f in a.roles && a.roles[f] == DataFrame
    ensures f in b.roles <==> f in d.rc
  {
    DataFrames(b, d, top, total, f);
  }

  lemma TableStays(a: Snapshot, b: Snapshot, c: State, top: Table, total: nat, s: nat, f: nat)
    requires Settled(a, c, top, total) && s in c.spaces && Shown(b, DoDestroy(c, s), top, total)
    requires DoDestroy(c, s).spaces == c.spaces - {s} && DoDestroy(c, s).pt == Others(c.pt, s)
    requires Tight(a.tables, a.roles) && Subroles(b.roles, a.roles) && IsTable(a.roles, f)
    ensures f in b.roles <==> a.roles[f].space != s
  {
    hide Upper, InUse, Agrees, Lookup, Tight, DoDestroy, Inv;
    var d := DoDestroy(c, s);
    TableOfRoot(a.tables, a.roles, c.spaces.Keys, f);
    if a.roles[f].space != s {
      ShownAlike(a, b, c, d, top, total, a.roles[f].space);
      TablesStay(a, b, a, c.spaces.Keys, d.spaces.Keys, c.spaces.Keys, f);
    } else if f in b.roles {
      TableOfRoot(b.tables, b.roles, d.spaces.Keys, f);
    }
  }

  /** Destroying a space frees exactly the frames that only it used: its tables and its unshared pages. */
  lemma DestroyFrees(a: Snapshot, b: Snapshot, c: State, top: Table, total: nat, s: nat)
    requires Settled(a, c, top, total) && s in c.spaces && Settled(b, DoDestroy(c, s), top, total)
    requires Tight(a.tables, a.roles) && Subroles(b.roles, a.roles)
    requires b.free + b.roles.Keys == a.free + a.roles.Keys
    ensures b.free == a.free + OwnFrames(a, c.pt, s)
  {
    hide Tree, Agrees, Tight, Inv, OwnFrames, DoDestroy;
    forall f | f in a.roles
      ensures f in b.roles <==> f !in OwnFrames(a, c.pt, s)
    {
      RoleStays(a, b, c, top, total, s, f);
    }
    OwnUsed(a, c.pt, s);
    forall f
      ensures f in b.free <==> f in a.free + OwnFrames(a, c.pt, s)
    {
      assert f in b.free + b.roles.Keys <==> f in a.free + a.roles.Keys;
    }
  }

  lemma OwnUsed(a: Snapshot, pt: Mapping, s: nat)
    ensures OwnFrames(a, pt, s) <= a.roles.Keys
  {
  }

  /** `vmm_space_destroy` gives back exactly the frames that only this space used. */
  method Destroy(vm: Vmm, s: nat)
    requires vm.Valid() && Tight(vm.tables, vm.roles) && s in vm.spaces && forall r :: r in vm.spaces[s].regions ==>
             r.first > 0
    modifies vm, vm.phys.bitmap, vm.phys.rc
    ensures vm.Valid() && vm.View() == DoDestroy(old(vm.View()), s)
    ensures vm.phys.Free() == old(vm.phys.Free()) + OwnFrames(old(vm.Snap()), old(vm.pt), s)
  {
    hide Tree, Upper, Agrees, Tight, Inv, OwnFrames, DoDestroy;
    ghost var a, c := vm.Snap(), vm.View();
    vm.SpaceDestroy(s);
    DestroyFrees(a, vm.Snap(), c, vm.top, vm.phys.total, s);
  }

  /** A region at page 0 is the first one. */
  lemma ZeroFirst(rs: seq<Region>, i: nat)
    requires Sorted(rs) && i < |rs|
    ensures rs[i].first == 0 ==> i == 0
  {
    if i > 0 {
      assert rs[0].End() <= rs[i].first;
    }
  }

  /** One turn of the loop in `vmm_space_destroy` when some region starts at page 0: it frees nothing, so the loop
      never ends. */
  method DestroyTurn(vm: Vmm, s: nat, ghost i: nat)
    requires vm.Valid() && s in vm.spaces && i < |vm.spaces[s].regions| && vm.spaces[s].regions[i].first == 0
    modifies vm, vm.phys.bitmap, vm.phys.rc
    ensures vm.Valid() && vm.Snap() == old(vm.Snap()) && vm.View() == old(vm.View())
    ensures s in vm.spaces && vm.spaces[s].regions == old(vm.spaces[s].regions) != []
  {
    SortedSpace(vm.View(), s);
    ZeroFirst(vm.spaces[s].regions, i);
    hide Settled;
    vm.SpaceFree(s, vm.spaces[s].regions[0].first);
    assert vm.View().spaces == vm.spaces;
  }

  lemma SortedSpace(c: State, s: nat)
    requires Inv(c) && s in c.spaces
    ensures Sorted(c.spaces[s].regions)
  {
    assert TiledSpace(c.spaces[s], c.pt, s);
  }

  /** A frame in use is in use for some space. */
  lemma UsedBySpace(a: Snapshot, c: State, top: Table, total: nat, f: nat)
    requires Settled(a, c, top, total) && f in a.roles
    ensures c.spaces != map[]
  {
    if a.roles[f].TableFrame? {
      TableOfRoot(a.tables, a.roles, c.spaces.Keys, f);
    } else {
      DataFrames(a, c, top, total, f);
      assert Mappers(c.pt, f) != {};
      var x :| x in Mappers(c.pt, f);
    }
  }

  /** With every space gone, every frame is free again. */
  lemma AllFree(a: Snapshot, c: State, top: Table, total: nat, pool: set<nat>)
    requires Settled(a, c, top, total) && c.spaces == map[] && a.free + a.roles.Keys == pool
    ensures a.free == pool
  {
    if a.roles != map[] {
      var f :| f in a.roles;
      UsedBySpace(a, c, top, total, f);
    }
  }
}
