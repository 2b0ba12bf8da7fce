/** The memory manager: address spaces over four-level tables over the frame allocator. The ghost fields
    say what each frame is used for and what the tables translate; the methods are proved against the
    operations on the flat mapping. */
module AddressSpaces {
  import opened Layout
  import opened PageTable
  import opened PhysMem
  import opened CopyOnWrite
  import opened CowInvariant
  import opened MemoryView
  import opened SpaceSharing
  import opened FrameBudget
  import opened EagerCopy
  import opened AccessRights

  datatype Outcome = Done | Failed | Panicked

  /** A page with some bytes replaced. */
  function Patched(p: Page, off: nat, bytes: seq<Byte>): (q: Page)
    requires off + |bytes| <= PAGE_SIZE
    ensures forall k :: 0 <= k < PAGE_SIZE ==> q[k] == if off <= k < off + |bytes| then bytes[k - off] else p[k]
  {
    p[..off] + bytes + p[off + |bytes|..]
  }

  /** What the processor lets user code do on a range. */
  ghost predicate HardwareGrants(t: Tables, s: nat, first: nat, n: nat, flags: Flags) {
    forall v: nat, k :: first <= v < first + n ==> (WalkPasses(t, s, v, 4, k) <==> Asked(flags, k))
  }

  /** The processor lets user code through exactly as the entries of the flat mapping say. */
  lemma HardwareShows(a: Snapshot, c: State, top: Table, total: nat, s: nat, v: nat, k: Access)
    requires Shown(a, c, top, total) && s in c.spaces && v < USER_PAGES
    ensures WalkPasses(a.tables, s, v, 4, k) <==> (s, v) in c.pt && Passes(c.pt[(s, v)], k)
  {
    HardwareAgrees(a.tables, a.roles, c.spaces.Keys, s, v, k);
    AgreesAt(a.tables, c.pt, c.spaces.Keys, s, v);
  }

  /** The rights after an allocation, in the flat state and on the tables. */
  lemma AllocRights(a: Snapshot, c: State, b: Snapshot, d: State, s: nat, first: nat, flags: Flags, frames: seq<nat>,
      fill: seq<Page>, top: Table, total: nat)
    requires Settled(a, c, top, total) && AllocOk(c, s, first, flags, frames, fill)
    requires d == DoAlloc(c, s, first, flags, frames, fill) && Settled(b, d, top, total)
    ensures Granted(d, s, first, |frames|, flags) && RightsKept(c, d, s, first, |frames|)
    ensures HardwareGrants(b.tables, s, first, |frames|, flags)
  {
    hide Inv, Agrees, Tree, Upper, WalkPasses, RightsKept, DoAlloc, Covered, Passes, Asked, NoDup;
    AllocGranted(c, s, first, flags, frames, fill);
    AllocRightsKept(c, s, first, flags, frames, fill);
    AllocSpaceThere(c, s, first, flags, frames, fill);
    forall v: nat, k: Access | first <= v < first + |frames|
      ensures WalkPasses(b.tables, s, v, 4, k) <==> Asked(flags, k)
    {
      HardwareShows(b, d, top, total, s, v, k);
      assert (s, v) in d.pt && (Passes(d.pt[(s, v)], k) <==> Asked(flags, k));
    }
  }

  lemma AllocSpaceThere(c: State, s: nat, first: nat, flags: Flags, frames: seq<nat>, fill: seq<Page>)
    requires AllocOk(c, s, first, flags, frames, fill)
    ensures s in DoAlloc(c, s, first, flags, frames, fill).spaces
  {
  }

  class Vmm {
    const phys: FrameAllocator
    /** Entries 256..511 of the kernel's root table. */
    const top: Table
    var tables: Tables
    var pages: seq<Page>
    var spaces: map<nat, Space>
    ghost var roles: Roles
    ghost var pt: Mapping

    /** Boot: no user space yet, frame 0 reserved. */
    constructor (frames: FrameAllocator, kernelHalf: Table)
      requires frames.Valid() && 0 !in frames.Free() && |kernelHalf| == 256
      ensures Valid() && TreeOk() && phys == frames && View() == EMPTY && Tight(tables, roles) && roles == map[]
    {
      phys, top := frames, kernelHalf;
      tables := seq(frames.total, _ => Blank());
      pages := seq(frames.total, _ => seq(PAGE_SIZE, _ => 0));
      spaces, roles, pt := map[], map[], map[];
    }

    ghost function View(): State
      reads this, phys.rc
    {
      ViewOf(spaces, pt, roles, phys.rc[..], pages)
    }

    ghost function Snap(): Snapshot
      requires phys.Valid()
      reads this, phys.bitmap, phys.rc
    {
      Snapshot(tables, roles, phys.Free(), phys.rc[..], pages)
    }

    /** The tables show the flat mapping, which is well formed. */
    ghost predicate Valid()
      reads this, phys.bitmap, phys.rc
    {
      phys.Valid() && Settled(Snap(), View(), top, phys.total)
    }

    ghost predicate TreeOk()
      reads this, phys.bitmap, phys.rc
    {
      phys.Valid() && Sound(Snap(), spaces.Keys, top, phys.total)
    }

    /** `physmem_alloc_to(1)`. */
    method AllocFrame() returns (g: nat)
      requires phys.Valid() && 0 !in phys.Free()
      modifies phys.bitmap, phys.rc
      ensures g == 0 <==> old(phys.Free()) == {}
      ensures g == 0 ==> phys.Free() == {} && phys.rc[..] == old(phys.rc[..])
      ensures g != 0 ==> g in old(phys.Free()) && phys.Free() == old(phys.Free()) - {g}
      ensures g != 0 ==> forall i :: 0 <= i < phys.total ==> phys.rc[i] == if i == g then 1 else old(phys.rc[i])
    {
      var addr := phys.AllocTo(1);
      g := addr / PAGE_SIZE;
      if g == 0 {
        OneFrameRuns(old(phys.Free()));
      } else {
        RunStart(old(phys.Free()), g);
        assert Frames(g, 1) == {g};
      }
    }

    /** Frame `g`, just allocated, becomes the empty table behind entry `k` of `f`. */
    method LinkTable(f: nat, k: nat, g: nat)
      requires phys.Valid() && Mem(tables, roles, spaces.Keys, top, phys.total)
      requires Graftable(tables, roles, spaces.Keys, f, k, g)
      modifies this`tables, this`roles
      ensures Mem(tables, roles, spaces.Keys, top, phys.total)
      ensures roles == GraftRoles(old(roles), f, k, g) && roles.Keys == old(roles.Keys) + {g}
              && Extends(old(roles), roles)
      ensures SameTranslation(old(tables), tables, spaces.Keys)
      ensures old(TightBut(tables, roles, f)) ==> TightBut(tables, roles, g)
    {
      Grafted(tables, roles, spaces.Keys, top, phys.total, f, k, g);
      tables := Graft(tables, f, k, g);
      roles := GraftRoles(roles, f, k, g);
    }

    /** An absent entry gets a fresh table. */
    method CreateTable(f: nat, k: nat) returns (g: nat)
      requires TreeOk() && IsTable(roles, f) && roles[f].level > 1 && k < Span(roles[f].level)
      requires f < |tables| && |tables[f]| == 512 && EntryAt(tables, f, k) == Absent
      modifies this`tables, this`roles, phys.bitmap, phys.rc
      ensures g == 0 ==> old(phys.Free()) == {} && Snap() == old(Snap())
      ensures g != 0 ==> TreeOk() && Deepened(old(Snap()), Snap(), spaces.Keys)
      ensures g != 0 ==> g !in old(roles) && roles == old(roles)[g := ChildRole(old(roles), f, k)]
      ensures g != 0 ==> g in old(phys.Free()) && phys.Free() == old(phys.Free()) - {g}
      ensures g != 0 && old(TightBut(tables, roles, f)) ==> TightBut(tables, roles, g)
    {
      g := AllocFrame();
      if g == 0 {
        return;
      }
      LinkTable(f, k, g);
      TookFrame(old(roles), old(phys.Free()), old(phys.rc[..]), roles, phys.rc[..], g, phys.total);
    }

    /** One step of the walk in `paging_map_page_in`: the table for page `v` below table `f` of level `l`,
        created if absent. */
    method GetOrCreate(f: nat, s: nat, v: nat, l: nat) returns (g: nat)
      requires TreeOk() && s in spaces && v < USER_PAGES && 2 <= l <= 4 && OnWalk(roles, f, s, v, l)
      modifies this`tables, this`roles, phys.bitmap, phys.rc
      ensures g == 0 ==> old(phys.Free()) == {} && Snap() == old(Snap())
      ensures g == 0 ==> (l - 1, Pre(v, l - 1)) !in Served(old(roles), s)
      ensures g != 0 ==> Spent(old(Snap()), Snap(), s, {(l - 1, Pre(v, l - 1))}, 0)
      ensures g != 0 ==> TreeOk() && Deepened(old(Snap()), Snap(), spaces.Keys)
      ensures g != 0 ==> OnWalk(roles, g, s, v, l - 1)
      ensures g != 0 && old(TightBut(tables, roles, f)) ==> TightBut(tables, roles, g)
      ensures EntryAt(old(tables), f, Index(v, l)).Entry? ==>
              g != 0 && g == EntryAt(old(tables), f, Index(v, l)).frame && Snap() == old(Snap())
    {
      hide Served, Spent, Tree, Upper, TightBut, InUse, SameTranslation;
      var k := Index(v, l);
      StepDown(tables, roles, spaces.Keys, f, s, v, l);
      if tables[f][k].Absent? {
        EntryServed(tables, roles, spaces.Keys, f, s, v, l);
        g := CreateTable(f, k);
        if g != 0 {
          TableSpent(old(Snap()), Snap(), s, g, roles[g]);
        }
      } else {
        Followed(Snap(), spaces.Keys, phys.total, f, s, v, l);
        g := tables[f][k].frame;
      }
    }

    /** `paging_map_page_in`: three get-or-create steps, then the entry. False when it panics, which
        happens only with no free frame left. */
    method MapPageIn(s: nat, v: nat, e: Entry) returns (ok: bool)
      requires TreeOk() && s in spaces && v < USER_PAGES
      requires e.Entry? && e.frame in roles && roles[e.frame] == DataFrame
      modifies this`tables, this`roles, phys.bitmap, phys.rc
      ensures ok <==> Enough(old(Snap()), s, v)
      ensures !ok ==> phys.Free() == {}
      ensures ok ==> TreeOk() && Mapped(old(Snap()), Snap(), spaces.Keys, s, v, e)
      ensures ok ==> Kept(old(Snap()), Snap()) && Spent(old(Snap()), Snap(), s, Path(v), 0)
      ensures Lookup(old(tables), s, v).Entry? ==> ok && roles == old(roles) && phys.Free() == old(phys.Free())
    {
      hide Tree, Upper, Agrees, SameTranslation, SetAt, TightBut, Tight, Served, Path, Enough, Spent;
      LookupChain(tables, s, v);
      var f := WalkOrCreate(s, v);
      if f == 0 {
        return false;
      }
      ghost var deep := Snap();
      LeafSet(tables, roles, spaces.Keys, top, phys.total, f, s, v, e);
      tables := SetEntry(tables, f, Index(v, 1), e);
      DeepenedSet(old(Snap()), deep, Snap(), spaces.Keys, s, v, e);
      SpentOn(old(Snap()), deep, Snap(), s, v);
      ok := true;
    }

    /** The three get-or-create steps: the last-level table for page `v`. */
    method WalkOrCreate(s: nat, v: nat) returns (f: nat)
      requires TreeOk() && s in spaces && v < USER_PAGES
      modifies this`tables, this`roles, phys.bitmap, phys.rc
      ensures f == 0 ==> phys.Free() == {} && !Enough(old(Snap()), s, v)
      ensures f != 0 ==> TreeOk() && Deepened(old(Snap()), Snap(), spaces.Keys)
      ensures f != 0 ==> OnWalk(roles, f, s, v, 1) && Spent(old(Snap()), Snap(), s, Path(v), 0)
      ensures f != 0 && old(Tight(tables, roles)) ==> TightBut(tables, roles, f)
      ensures WalkTo(old(tables), s, v, 1).Some? ==> f != 0 && Snap() == old(Snap())
    {
      hide Tree, Upper, Agrees, SameTranslation, SetAt, TightBut, Tight, Served, Spent, Enough, Deepened;
      RootOnWalk(tables, roles, spaces.Keys, s, v);
      if WalkTo(tables, s, v, 1).Some? {
        WalkChain(tables, s, v);
      }
      ghost var a := Snap();
      ghost var p3, p2, p1 := (3, Pre(v, 3)), (2, Pre(v, 2)), (1, Pre(v, 1));
      NothingSpent(a, a, s);
      var pdpt := GetOrCreate(s, s, v, 4);
      if pdpt == 0 {
        StepFails(a, a, s, {}, p3, v);
        return 0;
      }
      ghost var s3 := Snap();
      var pd := GetOrCreate(pdpt, s, v, 3);
      if pd == 0 {
        StepFails(a, s3, s, {p3}, p2, v);
        return 0;
      }
      ghost var s2 := Snap();
      DeepenedThen(a, s3, s2, spaces.Keys);
      SpentThen(a, s3, s2, s, {p3}, {p2}, 0, 0);
      f := GetOrCreate(pd, s, v, 2);
      if f != 0 {
        DeepenedThen(a, s2, Snap(), spaces.Keys);
        SpentThen(a, s2, Snap(), s, {p3} + {p2}, {p1}, 0, 0);
        assert {p3} + {p2} + {p1} == Path(v);
      } else {
        StepFails(a, s2, s, {p3} + {p2}, p1, v);
      }
    }

    /** One turn of the loop in `vmm_space_alloc`: a frame, holding whatever it held before, mapped at `v`.
        `g == 0` when no frame is left; `ok` is false when the page tables panic. */
    method AddPage(s: nat, v: nat, flags: Flags) returns (g: nat, ok: bool)
      requires TreeOk() && s in spaces && v < USER_PAGES
      modifies this`tables, this`pages, this`roles, phys.bitmap, phys.rc
      ensures !ok ==> phys.Free() == {} && FallsShort(old(Snap()), s, v)
      ensures g == 0 ==> ok && old(phys.Free()) == {} && Snap() == old(Snap())
      ensures ok && g != 0 ==> Spent(old(Snap()), Snap(), s, Path(v), 1) && g < |pages|
      ensures ok && g != 0 ==> TreeOk() && PageAdded(old(Snap()), Snap(), spaces.Keys, s, v, flags, g)
      ensures ok && g != 0 && old(Tight(tables, roles)) ==> Tight(tables, roles)
    {
      hide Tree, Upper, Agrees, SameTranslation, SetAt, TightBut, Tight, Served, Spent, Path, Enough, FallsShort;
      ok := true;
      g := AllocFrame();
      if g == 0 {
        return;
      }
      roles := roles[g := DataFrame];
      var stale: Page := *;
      pages := pages[g := stale];
      ghost var taken := Snap();
      DataTakenSound(old(Snap()), taken, spaces.Keys, top, phys.total, g);
      DataSpent(old(Snap()), taken, s, g);
      ok := MapPageIn(s, v, PteFor(g, flags));
      if ok {
        PageAddedBy(old(Snap()), taken, Snap(), spaces.Keys, s, v, flags, g);
        SpentAfter(old(Snap()), taken, Snap(), s, Path(v));
      } else {
        NoTables(old(Snap()), taken, s, v);
      }
    }

    /** The page loop of `vmm_space_alloc`: maps fresh frames from `first` on, `k` of them before frames run out. */
    method MapFresh(s: nat, first: nat, n: nat, flags: Flags)
      returns (k: nat, ok: bool, ghost frames: seq<nat>, ghost fill: seq<Page>)
      requires TreeOk() && Agrees(tables, pt, spaces.Keys) && s in spaces && first + n <= USER_PAGES
      modifies this`tables, this`pages, this`roles, phys.bitmap, phys.rc
      ensures k == |frames| <= n && (!ok ==> k < n && phys.Free() == {})
      ensures !ok ==> Between(Served(old(roles), s), first, k, |old(phys.Free())|)
      ensures ok ==> Spent(old(Snap()), Snap(), s, Paths(first, k), k) && (k < n ==> phys.Free() == {})
      ensures ok ==> TreeOk()
      ensures ok ==> Progress(old(Snap()), Snap(), pt, spaces.Keys, s, first, flags, frames, fill)
      ensures ok && old(Tight(tables, roles)) ==> Tight(tables, roles)
    {
      hide Tree, Upper, Agrees, SameTranslation, SetAt, TightBut, Tight, Served, Spent, Path, Paths, Between;
      hide FallsShort, Progress, PageAdded, Sound, MapRange;
      k, ok, frames, fill := 0, true, [], [];
      NoProgress(Snap(), pt, spaces.Keys, s, first, flags);
      NoneSpent(Snap(), s, first);
      while k < n
        invariant ok && k == |frames| <= n
        invariant TreeOk()
        invariant Progress(old(Snap()), Snap(), pt, spaces.Keys, s, first, flags, frames, fill)
        invariant Spent(old(Snap()), Snap(), s, Paths(first, k), k)
        invariant old(Tight(tables, roles)) ==> Tight(tables, roles)
      {
        ghost var before := Snap();
        var g;
        g, ok := AddPage(s, first + k, flags);
        if !ok || g == 0 {
          if !ok {
            PageFails(old(Snap()), before, s, first, k);
          }
          return;
        }
        SpentPage(old(Snap()), before, Snap(), s, first, k);
        ProgressNext(old(Snap()), before, Snap(), pt, spaces.Keys, s, first, flags, frames, fill, g);
        frames, fill := frames + [g], fill + [pages[g]];
        k := k + 1;
      }
    }

    /** `paging_unmap_page_in`: clears the entry if every level is present; empty tables stay. */
    method UnmapPageIn(s: nat, v: nat)
      requires TreeOk() && s in spaces && v < USER_PAGES
      modifies this`tables
      ensures TreeOk() && SetAt(old(tables), tables, spaces.Keys, s, v, Absent)
    {
      match WalkTo(tables, s, v, 1)
      case None =>
      case Some(f) =>
        if EntryAt(tables, f, Index(v, 1)).Absent? {
          return;
        }
        WalkRole(tables, roles, spaces.Keys, s, v, 1);
        LeafSet(tables, roles, spaces.Keys, top, phys.total, f, s, v, Absent);
        tables := SetEntry(tables, f, Index(v, 1), Absent);
    }

    /** The failing path of `vmm_space_alloc`. */
    method UnmapRange(s: nat, first: nat, flags: Flags, k: nat, ghost frames: seq<nat>)
      requires TreeOk() && s in spaces && first + k <= USER_PAGES && k == |frames|
      requires Agrees(tables, MapRange(pt, s, first, flags, frames), spaces.Keys)
      requires forall v: nat :: first <= v < first + k ==> (s, v) !in pt
      modifies this`tables
      ensures TreeOk() && Agrees(tables, pt, spaces.Keys)
    {
      ghost var m := MapRange(pt, s, first, flags, frames);
      for j := 0 to k
        invariant TreeOk() && AgreesBut(tables, m, spaces.Keys, s, first, j)
      {
        ghost var t := tables;
        UnmapPageIn(s, first + j);
        ClearNext(t, tables, m, spaces.Keys, s, first, j);
      }
      ClearedAll(tables, pt, spaces.Keys, s, first, flags, frames);
    }

    /** `vmm_space_alloc`: maps `n` fresh frames and links the region; without enough frames it unmaps what
        it mapped, gives nothing back and fails. */
    method SpaceAlloc(s: nat, first: nat, n: nat, flags: Flags)
      returns (r: Outcome, ghost frames: seq<nat>, ghost fill: seq<Page>)
      requires Valid() && s in spaces && Cow !in flags && Mmio !in flags
      requires n > 0 ==> first + n <= USER_PAGES
      requires forall v: nat :: first <= v < first + n ==> !Covered(spaces[s].regions, v)
      modifies this, phys.bitmap, phys.rc
      ensures r.Done? <==> n > 0 && |old(phys.Free())| >= Need(old(tables), s, first, n)
      ensures r.Failed? <==> n == 0 || exists k: nat :: k < n && |old(phys.Free())| == Need(old(tables), s, first, k)
      ensures r.Panicked? || (r.Failed? && n > 0) ==> phys.Free() == {}
      ensures r.Failed? && n > 0 ==> |frames| < n && |old(phys.Free())| == Need(old(tables), s, first, |frames|)
      ensures r.Failed? ==> Lost(old(Snap()), Snap(), frames)
      ensures r.Done? ==> |frames| == n && AllocOk(old(View()), s, first, flags, frames, fill)
      ensures r.Done? ==> Valid() && View() == DoAlloc(old(View()), s, first, flags, frames, fill)
      ensures r.Failed? ==> Valid() && View() == old(View()) && (n == 0 ==> Snap() == old(Snap()))
      ensures r.Done? ==> Spent(old(Snap()), Snap(), s, Paths(first, n), n)
      ensures r.Done? ==> Kept(old(Snap()), Snap()) && Subroles(old(roles), roles)
      ensures r.Done? ==> Granted(View(), s, first, n, flags) && HardwareGrants(tables, s, first, n, flags)
      ensures r.Done? ==> RightsKept(old(View()), View(), s, first, n)
    {
      hide Tree, Upper, Agrees, SameTranslation, SetAt, TightBut, Tight, Progress, Kept, Subroles, AllocOk, DoAlloc;
      hide Spent, Served, Between, Need, Lost, Granted, RightsKept, HardwareGrants;
      frames, fill := [], [];
      if n == 0 {
        NothingLost(Snap());
        return Failed, [], [];
      }
      Unmapped(View(), s, first, n);
      ghost var a := Snap();
      var k, ok;
      k, ok, frames, fill := MapFresh(s, first, n, flags);
      Outcomes(a, Snap(), spaces.Keys, s, first, n, k, ok);
      if !ok {
        r := Panicked;
      } else if k < n {
        ghost var m := Snap();
        Abandon(s, first, flags, k, a, frames, fill);
        LostThose(a, m, Snap(), pt, spaces.Keys, s, first, flags, frames, fill);
        r := Failed;
      } else {
        ProgressKept(a, Snap(), pt, spaces.Keys, s, first, flags, frames, fill);
        Finish(s, first, flags, k, a, frames, fill);
        r := Done;
      }
    }

    /** The end of `vmm_space_alloc`: the region node is linked. */
    method Finish(s: nat, first: nat, flags: Flags, n: nat, ghost a: Snapshot, ghost frames: seq<nat>,
        ghost fill: seq<Page>)
      requires TreeOk() && Settled(a, ViewAt(spaces, pt, a), top, phys.total) && s in spaces && n == |frames|
      requires Progress(a, Snap(), pt, spaces.Keys, s, first, flags, frames, fill)
      requires |frames| > 0 && first + |frames| <= USER_PAGES && Cow !in flags && Mmio !in flags
      requires forall v: nat :: first <= v < first + |frames| ==> !Covered(spaces[s].regions, v)
      modifies this`spaces, this`pt
      ensures Snap() == old(Snap())
      ensures AllocOk(old(ViewAt(spaces, pt, a)), s, first, flags, frames, fill)
      ensures Valid() && View() == DoAlloc(old(ViewAt(spaces, pt, a)), s, first, flags, frames, fill)
      ensures Granted(View(), s, first, n, flags) && HardwareGrants(tables, s, first, n, flags)
      ensures RightsKept(old(ViewAt(spaces, pt, a)), View(), s, first, n)
    {
      hide Tree, Upper, Agrees, SameTranslation, SetAt, TightBut, Tight, Granted, RightsKept, HardwareGrants;
      ghost var c := ViewAt(spaces, pt, a);
      AllocSettled(a, Snap(), spaces, pt, s, first, flags, frames, fill, top, phys.total);
      spaces := spaces[s := LinkRegion(spaces[s], Region(first, n, flags + {Used}))];
      pt := MapRange(pt, s, first, flags, frames);
      AllocRights(a, c, Snap(), View(), s, first, flags, frames, fill, top, phys.total);
    }

    /** Out of frames: what was mapped is unmapped, and its frames are lost. */
    method Abandon(s: nat, first: nat, flags: Flags, k: nat, ghost a: Snapshot, ghost frames: seq<nat>,
        ghost fill: seq<Page>)
      requires TreeOk() && Settled(a, ViewAt(spaces, pt, a), top, phys.total) && s in spaces && k == |frames|
      requires Progress(a, Snap(), pt, spaces.Keys, s, first, flags, frames, fill) && first + k <= USER_PAGES
      requires forall v: nat :: first <= v < first + k ==> (s, v) !in pt
      modifies this`tables, this`roles
      ensures Valid() && View() == old(ViewAt(spaces, pt, a)) && roles == old(roles) - ToSet(frames)
    {
      hide Tree, Upper, Agrees, SameTranslation, SetAt, TightBut, Tight;
      UnmapRange(s, first, flags, k, frames);
      LeakSettled(a, Snap(), spaces, pt, frames, fill, top, phys.total);
      roles := roles - ToSet(frames);
    }

    /** The scan for a present entry. */
    method IsEmpty(f: nat) returns (empty: bool)
      requires f < |tables| && |tables[f]| == 512
      ensures empty <==> !NonEmpty(tables, f)
    {
      for k := 0 to 512
        invariant forall j :: 0 <= j < k ==> EntryAt(tables, f, j) == Absent
      {
        if tables[f][k].Entry? {
          assert EntryAt(tables, f, k).Entry?;
          return false;
        }
      }
      return true;
    }

    /** The table `g` of level `l - 1` for page `v` is cut off from `f` and given back if it is empty. */
    method Prune(s: nat, v: nat, l: nat, f: nat, g: nat) returns (pruned: bool)
      requires TreeOk() && v < USER_PAGES && 2 <= l <= 4 && OnWalk(roles, f, s, v, l) && OnWalk(roles, g, s, v, l - 1)
      modifies this`tables, this`roles, phys.bitmap, phys.rc
      ensures TreeOk() && Shrunk(old(Snap()), Snap(), spaces.Keys)
      ensures roles == old(roles) - (if pruned then {g} else {})
      ensures old(TightBut(tables, roles, g)) ==> if pruned then TightBut(tables, roles, f) else Tight(tables, roles)
    {
      hide Upper, SameTranslation, InUse, NonEmpty, Prunable;
      WalkEntry(tables, roles, spaces.Keys, f, g, s, v, l);
      NotShrunk(Snap(), spaces.Keys);
      pruned := IsEmpty(g);
      if pruned {
        var k := Index(v, l);
        Emptied(tables, roles, spaces.Keys, f, k, g);
        tables := SetEntry(tables, f, k, Absent);
        FreeFrame(g);
        roles := roles - {g};
        PruneSound(old(Snap()), Snap(), spaces.Keys, top, phys.total, f, k, g);
      }
    }

    /** `physmem_free_to` of one frame. */
    method FreeFrame(g: nat)
      requires phys.Valid() && g < phys.total
      modifies phys.bitmap, phys.rc
      ensures phys.Free() == old(phys.Free()) + {g}
      ensures forall i :: 0 <= i < phys.total ==> phys.rc[i] == if i == g then 0 else old(phys.rc[i])
    {
      phys.FreeTo(g * PAGE_SIZE, 1);
      assert phys.Managed(g, 1) == {g};
    }

    /** The share count of a frame goes down by one; at 0 the frame is given back. */
    method CountDown(f: nat) returns (freed: bool)
      requires phys.Valid() && f < phys.total
      modifies phys.bitmap, phys.rc
      ensures freed <==> old(phys.rc[f]) <= 1
      ensures phys.Free() == old(phys.Free()) + (if freed then {f} else {})
      ensures forall i :: 0 <= i < phys.total && i != f ==> phys.rc[i] == old(phys.rc[i])
      ensures !freed ==> phys.rc[f] == old(phys.rc[f]) - 1
    {
      var left := phys.RcDecAndGet(f * PAGE_SIZE);
      freed := left == 0;
      if freed {
        FreeFrame(f);
      }
    }

    /** The frame is counted down and the entry is cleared. */
    method DropEntry(v: nat, h: nat, f: nat)
      requires phys.Valid() && f < phys.total && h < |tables| && |tables[h]| == 512
      modifies this`tables, this`roles, phys.bitmap, phys.rc
      ensures EntryDropped(old(Snap()), Snap(), h, v, f)
    {
      var freed := CountDown(f);
      if freed {
        roles := roles - {f};
      }
      tables := SetEntry(tables, h, Index(v, 1), Absent);
    }

    /** One turn of the loop in `vmm_space_free`: the frame of page `v` is counted down and given back at 0,
        the entry cleared, and tables that became empty are cut off, bottom up. `c` is the flat mapping. */
    method ReclaimPage(s: nat, v: nat, ghost c: State)
      requires TreeOk() && Midway(Snap(), c, top, phys.total) && c.spaces == spaces && s in spaces && v < USER_PAGES
      modifies this`tables, this`roles, phys.bitmap, phys.rc
      ensures TreeOk() && Midway(Snap(), DropRange(c, s, Region(v, 1, {})), top, phys.total)
      ensures Kept(old(Snap()), Snap()) && Subroles(roles, old(roles))
    {
      hide Tree, Upper, Agrees, SameTranslation, SetAt, TightBut, Tight, PageDropped, Exact, OnePage;
      ghost var a := Snap();
      AgreesAt(tables, c.pt, spaces.Keys, s, v);
      var w1 := WalkTo(tables, s, v, 1);
      if w1.None? || EntryAt(tables, w1.value, Index(v, 1)).Absent? {
        NothingDropped(c, s, v);
        return;
      }
      var f := EntryAt(tables, w1.value, Index(v, 1)).frame;
      Reclaim(s, v, w1.value, f, a, c);
      MidwayNext(a, Snap(), c, top, phys.total, s, v, f);
    }

    method Reclaim(s: nat, v: nat, h: nat, f: nat, ghost a: Snapshot, ghost c: State)
      requires TreeOk() && a == Snap() && Shown(a, c, top, phys.total) && Closed(c) && Exact(c)
               && c.spaces.Keys == spaces.Keys
      requires s in spaces && v < USER_PAGES && WalkTo(tables, s, v, 1) == Some(h)
      requires (s, v) in c.pt && c.pt[(s, v)].frame == f
      modifies this`tables, this`roles, phys.bitmap, phys.rc
      ensures TreeOk() && PageDropped(a, Snap(), spaces.Keys, s, v, f)
      ensures old(Tight(tables, roles)) ==> Tight(tables, roles)
    {
      hide Tree, Upper, Agrees, SameTranslation, SetAt, TightBut, Tight;
      WalkHolds(tables, roles, spaces.Keys, s, v, h);
      FrameIsData(a, c, top, phys.total, (s, v));
      DropEntry(v, h, f);
      ghost var b := Snap();
      EntryDroppedSound(a, b, c, top, phys.total, h, s, v, f);
      CutUp(s, v, h);
      DroppedThenShrunk(a, b, Snap(), spaces.Keys, s, v, f);
    }

    /** The nested emptiness checks. */
    method CutUp(s: nat, v: nat, h: nat)
      requires TreeOk() && s in spaces && v < USER_PAGES && OnWalk(roles, h, s, v, 1)
      modifies this`tables, this`roles, phys.bitmap, phys.rc
      ensures TreeOk() && Shrunk(old(Snap()), Snap(), spaces.Keys)
      ensures old(TightBut(tables, roles, h)) ==> Tight(tables, roles)
    {
      hide Tree, Upper, Agrees, SameTranslation, SetAt, TightBut, Tight;
      ghost var a := Snap();
      WalkUp(tables, roles, spaces.Keys, h, s, v, 1);
      var pd, pdpt := WalkTo(tables, s, v, 2).value, WalkTo(tables, s, v, 3).value;
      var pruned := Prune(s, v, 2, pd, h);
      if pruned {
        ghost var b := Snap();
        pruned := Prune(s, v, 3, pdpt, pd);
        ghost var d := Snap();
        ShrunkThen(a, b, d, spaces.Keys);
        if pruned {
          RootOnWalk(tables, roles, spaces.Keys, s, v);
          pruned := Prune(s, v, 4, s, pdpt);
          ShrunkThen(a, d, Snap(), spaces.Keys);
          RootLevel(roles, s, tables);
        }
      }
    }

    /** The page loop of `vmm_space_free`. */
    method ReclaimRange(s: nat, first: nat, n: nat, ghost c: State)
      requires TreeOk() && Midway(Snap(), c, top, phys.total) && c.spaces == spaces && s in spaces
               && first + n <= USER_PAGES
      modifies this`tables, this`roles, phys.bitmap, phys.rc
      ensures TreeOk() && Midway(Snap(), DropRange(c, s, Region(first, n, {})), top, phys.total)
              && Kept(old(Snap()), Snap())
      ensures Subroles(roles, old(roles))
    {
      hide Tree, Upper, Agrees, Tight, Shown, Exact, Unmap, DropCounts, Gone, Sound;
      DropNone(c, s, first);
      for j := 0 to n
        invariant TreeOk() && Midway(Snap(), DropRange(c, s, Region(first, j, {})), top, phys.total)
                  && Kept(old(Snap()), Snap())
        invariant Subroles(roles, old(roles))
      {
        ReclaimPage(s, first + j, DropRange(c, s, Region(first, j, {})));
        DropNext(c, s, first, j);
      }
    }

    /** `vmm_space_free`: the region whose base is page `first` is unmapped and unlinked; base 0 is refused. */
    method SpaceFree(s: nat, first: nat)
      requires Valid() && s in spaces
      modifies this, phys.bitmap, phys.rc
      ensures Valid() && Kept(old(Snap()), Snap()) && Subroles(roles, old(roles))
      ensures var k := FindBase(old(spaces)[s].regions, first);
              if first == 0 || k.None? then Snap() == old(Snap()) && View() == old(View())
              else View() == DoFree(old(View()), s, k.value)
    {
      hide Tree, Upper, Agrees, Tight, Sound, Tiled, Bits, Exact, Exclusive, Unmap, DropCounts, Gone;
      var k := FindBase(spaces[s].regions, first);
      if first == 0 || k.None? {
        return;
      }
      ghost var c := View();
      RegionInUserHalf(c, s, k.value);
      ReclaimRange(s, first, spaces[s].regions[k.value].pages, c);
      FreeSettled(c, Snap(), s, k.value, top, phys.total);
      spaces := spaces[s := UnlinkRegion(spaces[s], k.value)];
      pt := Unmap(pt, s, c.spaces[s].regions[k.value]);
    }

    /** `vmm_space_create`: a root frame with an empty user half and the kernel's entries. */
    method SpaceCreate() returns (d: nat)
      requires Valid()
      modifies this, phys.bitmap, phys.rc
      ensures d == 0 <==> old(phys.Free()) == {}
      ensures d == 0 ==> Snap() == old(Snap()) && View() == old(View())
      ensures d != 0 ==> d in old(phys.Free()) && phys.Free() == old(phys.Free()) - {d}
      ensures d != 0 ==> roles == RootRoles(old(roles), d)
      ensures d != 0 ==> d !in old(spaces) && Valid() && View() == DoCreate(old(View()), d) && Kept(old(Snap()), Snap())
    {
      hide Tree, Upper, Agrees, Tight, Inv;
      ghost var a, c := Snap(), View();
      d := AllocFrame();
      if d == 0 {
        return;
      }
      tables := tables[d := RootTable(top)];
      roles := RootRoles(roles, d);
      CreateSettled(a, Snap(), c, top, phys.total, d);
      spaces := spaces[d := Space([], 0, 0)];
    }

    /** `vmm_space_destroy`: every region is freed, then the root. Ends when no region starts at page 0. */
    method SpaceDestroy(s: nat)
      requires Valid() && s in spaces && forall r :: r in spaces[s].regions ==> r.first > 0
      modifies this, phys.bitmap, phys.rc
      ensures Valid() && View() == DoDestroy(old(View()), s)
      ensures old(Tight(tables, roles)) ==> Kept(old(Snap()), Snap())
      ensures Subroles(roles, old(roles))
    {
      hide Tree, Upper, Agrees, Tight, Inv, InUse, Mem, FindBase, RemoveAt;
      ghost var a := Snap();
      while spaces[s].regions != []
        invariant Valid() && s in spaces && (forall r :: r in spaces[s].regions ==> r.first > 0) && Kept(a, Snap())
        invariant Subroles(roles, old(roles))
        invariant DoDestroy(View(), s) == DoDestroy(old(View()), s)
        decreases |spaces[s].regions|
      {
        ghost var c := View();
        FirstBase(spaces[s].regions);
        SpaceFree(s, spaces[s].regions[0].first);
      }
      ghost var b, c := Snap(), View();
      RootManaged(b, spaces.Keys, top, phys.total, s);
      FreeFrame(s);
      roles := WithoutSpace(roles, s);
      RetireSettled(b, Snap(), c, top, phys.total, s);
      spaces := spaces - {s};
    }

    /** One page of `vmm_clone_space`. */
    method SharePage(s: nat, d: nat, v: nat, flags: Flags, f: nat) returns (ok: bool)
      requires TreeOk() && s in spaces && d in spaces && s != d && v < USER_PAGES && f in roles && roles[f] == DataFrame
      requires Lookup(tables, s, v).Entry?
      modifies this`tables, this`roles, phys.bitmap, phys.rc
      ensures ok <==> Enough(old(Snap()), d, v)
      ensures ok ==> Spent(old(Snap()), Snap(), d, Path(v), 0)
      ensures ok ==> TreeOk() && PageShared(old(Snap()), Snap(), spaces.Keys, s, d, v, ReadOnly(PteFor(f, flags)), f)
    {
      hide Tree, Upper, Agrees, Tight, InUse, Spent, Enough, Served;
      ghost var b := Snap();
      phys.RcInc(f * PAGE_SIZE);
      ghost var b1 := Snap();
      SameFrames(b, b1, d, v);
      ok := MapPageIn(d, v, PteFor(f, CowFlags(flags)));
      if !ok {
        return;
      }
      ghost var b2 := Snap();
      ok := MapPageIn(s, v, ReadOnly(PteFor(f, flags)));
      CountedUp(b, b1, b2, Snap(), spaces.Keys, s, d, v, ReadOnly(PteFor(f, flags)), f);
      SpentAlike(b, b1, b2, Snap(), d, Path(v), 0);
    }

    /** The pages of one region of `vmm_clone_space`. `a` is the memory and `c` the flat state before the copy
        was filled. */
    method ShareRegion(s: nat, d: nat, i: nat, r: Region, ghost a: Snapshot, ghost c: State) returns (ok: bool)
      requires TreeOk() && Sharing(a, c, s, d) && spaces.Keys == c.spaces.Keys + {d}
      requires i < |c.spaces[s].regions| && r == c.spaces[s].regions[i]
      requires PartShared(a, Snap(), c.pt, spaces.Keys, s, d, Visited(c.spaces[s].regions, i, 0))
      requires Spent(a, Snap(), d, Wanted(c.pt, s, Visited(c.spaces[s].regions, i, 0)), 0)
      modifies this`tables, this`roles, phys.bitmap, phys.rc
      ensures !ok ==> TooFew(a, c.pt, s, d)
      ensures ok ==> TreeOk() && Spent(a, Snap(), d, Wanted(c.pt, s, Visited(c.spaces[s].regions, i + 1, 0)), 0)
      ensures ok ==> PartShared(a, Snap(), c.pt, spaces.Keys, s, d, Visited(c.spaces[s].regions, i + 1, 0))
    {
      hide Tree, Upper, Agrees, Tight, Base, InUse, Mem, PartAt, FramesAt, Sound, Visited, Spent, Enough, TooFew,
          Wanted, Path;
      ghost var rs := c.spaces[s].regions;
      ok := true;
      for j := 0 to r.pages
        invariant ok && TreeOk() && Spent(a, Snap(), d, Wanted(c.pt, s, Visited(rs, i, j)), 0)
        invariant PartShared(a, Snap(), c.pt, spaces.Keys, s, d, Visited(rs, i, j))
      {
        ghost var b := Snap();
        var v := r.first + j;
        SharingPage(a, b, c, spaces.Keys, top, phys.total, s, d, i, j);
        var e := Lookup(tables, s, v);
        if e.Entry? {
          ok := SharePage(s, d, v, r.flags, e.frame);
          if !ok {
            ShareFails(a, b, c.pt, s, d, Visited(rs, i, j), v);
            return;
          }
          ShareSpent(a, b, Snap(), c.pt, s, d, Visited(rs, i, j), v);
          SharedNext(a, b, Snap(), c.pt, spaces.Keys, s, d, Visited(rs, i, j), v);
        } else {
          SkippedPage(a, b, c.pt, spaces.Keys, s, d, Visited(rs, i, j), v);
          WantsNoMore(c.pt, s, Visited(rs, i, j), v);
        }
      }
      VisitRegion(rs, i);
    }

    /** `vmm_clone_space`. The counts stay exact if and only if the guard held. */
    method CloneSpace(s: nat) returns (r: Outcome, d: nat)
      requires Valid() && s in spaces
      modifies this, phys.bitmap, phys.rc
      ensures r.Failed? <==> old(phys.Free()) == {}
      ensures r.Done? <==> ClonesFit(old(Snap()), old(pt), s)
      ensures r.Failed? ==> Snap() == old(Snap()) && View() == old(View())
      ensures r.Done? ==> CloneOk(old(View()), s, d) && View() == DoClone(old(View()), s, d)
      ensures r.Done? ==> Shown(Snap(), View(), top, phys.total) && Base(View()) && Kept(old(Snap()), Snap())
      ensures r.Done? ==> (Valid() <==> CloneGuard(old(View()), s))
    {
      hide Tree, Upper, Agrees, Tight, Base, Exact, InUse, Mem, PartAt, FramesAt, Visited, Counted, Closed, Tiled, Bits;
      hide Served, Spent, TooFew, TablesFor, ClonesFit, RootRoles;
      ghost var c, a := View(), Snap();
      d := SpaceCreate();
      if d == 0 {
        NoRoot(a, c.pt, s);
        return Failed, 0;
      }
      CloneBudget(a, Snap(), c.pt, c.spaces.Keys, top, phys.total, s, d);
      r := FillClone(s, d, c);
      if r.Done? {
        CloneBase(c, s, d);
      }
    }

    /** The region loop of `vmm_clone_space`. */
    method FillClone(s: nat, d: nat, ghost c: State) returns (r: Outcome)
      requires Valid() && s in spaces && Inv(c) && CloneOk(c, s, d) && View() == DoCreate(c, d)
      modifies this, phys.bitmap, phys.rc
      ensures !r.Failed? && (r.Panicked? <==> TooFew(old(Snap()), c.pt, s, d))
      ensures r.Done? ==> phys.Valid() && View() == DoClone(c, s, d)
      ensures r.Done? ==> Shown(Snap(), View(), top, phys.total) && Kept(old(Snap()), Snap())
    {
      hide Tree, Upper, Agrees, Tight, Base, Exact, InUse, Mem, PartAt, FramesAt, Visited, Counted, Closed, Tiled,
          Bits, Exclusive,
          OnePage, DoClone, Share, CowSpace, Sorted, Insert, PartShared, Spent, TooFew, Wanted, TablesFor;
      ghost var a := Snap();
      var src := spaces[s];
      var n := |src.regions|;
      StartSharing(a, c, spaces, s, d);
      NoneWanted(a, c.pt, s, d, src.regions);
      var done, count, used := [], 0, 0;
      for i := 0 to n
        invariant TreeOk() && spaces == old(spaces) && pt == old(pt)
        invariant PartShared(a, Snap(), c.pt, spaces.Keys, s, d, Visited(src.regions, i, 0))
        invariant Spent(a, Snap(), d, Wanted(c.pt, s, Visited(src.regions, i, 0)), 0)
        invariant done == CowRegions(src.regions[..i]) && count == i && used == TotalPages(src.regions[..i])
      {
        var ok := ShareRegion(s, d, i, src.regions[i], a, c);
        if !ok {
          return Panicked;
        }
        AppendNode(src.regions, i);
        done, count, used := Insert(done, src.regions[i].(flags := CowFlags(src.regions[i].flags))), count + 1,
          used + src.regions[i].pages;
      }
      assert src.regions[..n] == src.regions;
      VisitAll(c, s);
      ghost var e := Snap();
      AllWanted(a, e, c.pt, s, d, Visited(src.regions, n, 0));
      SharedKept(a, e, c.pt, spaces.Keys, s, d, Visited(src.regions, n, 0));
      CloneShown(a, e, c, top, phys.total, s, d, Visited(src.regions, n, 0));
      LinkClone(s, d, src, Space(done, count, used), c, e);
      r := Done;
    }

    /** The end of `vmm_clone_space`: the source's regions are marked, the copy's list is in place. */
    method LinkClone(s: nat, d: nat, src: Space, copy: Space, ghost c: State, ghost e: Snapshot)
      requires phys.Valid() && e == Snap() && CloneOk(c, s, d) && spaces == DoCreate(c, d).spaces && pt == c.pt
      requires src == c.spaces[s] && SpaceOk(src) && copy.regions == CowRegions(src.regions)
      requires copy.regionCount == |src.regions| && copy.usedPages == TotalPages(src.regions)
      requires Shown(e, DoClone(c, s, d), top, phys.total)
      modifies this`spaces, this`pt
      ensures View() == DoClone(c, s, d) && Snap() == e
    {
      hide Tree, Upper, Agrees, Sound, Sorted, CowRegions, Share, DoClone, CowSpace, TotalPages;
      CloneFields(c, e, spaces, s, d, copy, top, phys.total);
      spaces := spaces[s := CowSpace(src)][d := copy];
      pt := Share(pt, s, d);
    }

    /** `vmm_space_find`: the first region that covers page `v`. */
    method FindRegion(s: nat, v: nat) returns (k: Option<nat>)
      requires s in spaces
      ensures k.Some? <==> Covered(spaces[s].regions, v)
      ensures k.Some? ==> k.value == IndexOf(spaces[s].regions, v)
    {
      var rs := spaces[s].regions;
      for i := 0 to |rs|
        invariant forall j :: 0 <= j < i ==> !rs[j].Covers(v)
      {
        if rs[i].Covers(v) {
          return Some(i);
        }
      }
      return None;
    }

    /** The frame part of `vmm_cow_break`: count down; keep the frame if that leaves 0, else copy it out. */
    method Rehouse(s: nat, v: nat, f: nat, flags: Flags) returns (ok: bool, g: nat)
      requires TreeOk() && s in spaces && v < USER_PAGES && f in roles && roles[f] == DataFrame
      requires Lookup(tables, s, v).Entry?
      modifies this`tables, this`pages, this`roles, phys.bitmap, phys.rc
      ensures !ok <==> f < phys.total && old(phys.rc[f]) > 1 && old(phys.Free()) == {}
      ensures ok ==> TreeOk() && Rehoused(old(Snap()), Snap(), spaces.Keys, s, v, f, g, flags)
    {
      hide Tree, Upper, Agrees, Tight, Mem, Spent, Enough, Served;
      ghost var a := Snap();
      var left := phys.RcDecAndGet(f * PAGE_SIZE);
      ghost var m := Snap();
      if left == 0 {
        g := f;
        ok := MapPageIn(s, v, PteFor(f, flags));
        TakenOverView(a, m, Snap(), spaces.Keys, s, v, f, PteFor(f, flags));
      } else {
        ok, g := CopyOut(s, v, f, flags, a);
      }
    }

    method CopyOut(s: nat, v: nat, f: nat, flags: Flags, ghost a: Snapshot) returns (ok: bool, g: nat)
      requires TreeOk() && s in spaces && v < USER_PAGES && f in roles && roles[f] == DataFrame
      requires Sound(a, spaces.Keys, top, phys.total) && f < |a.counts| && a.counts[f] > 1
      requires Snap() == a.(counts := a.counts[f := a.counts[f] - 1]) && Lookup(tables, s, v).Entry?
      modifies this`tables, this`pages, this`roles, phys.bitmap, phys.rc
      ensures !ok <==> old(phys.Free()) == {}
      ensures ok ==> TreeOk() && Rehoused(a, Snap(), spaces.Keys, s, v, f, g, flags)
    {
      hide Tree, Upper, Agrees, Tight, Mem, Spent, Enough, Served, Path, Rehoused, Mapped,
          Kept;
      ghost var m := Snap();
      g := AllocFrame();
      if g == 0 {
        return false, 0;
      }
      FreeManaged(m, spaces.Keys, top, phys.total, f, g);
      pages := pages[g := pages[f]];
      roles := roles[g := DataFrame];
      ghost var n := Snap();
      DataTakenSound(m, n, spaces.Keys, top, phys.total, g);
      ok := MapPageIn(s, v, PteFor(g, flags));
      CopiedOutAll(a, m, n, Snap(), spaces.Keys, top, phys.total, s, v, f, g, flags);
    }

    /** `vmm_cow_break`. False when it panics, out of frames; nothing happens unless the page is mapped in a
        copy-on-write region. */
    method CowBreak(s: nat, v: nat) returns (ok: bool, ghost spare: nat)
      requires Valid() && s in spaces && v < USER_PAGES
      modifies this, phys.bitmap, phys.rc
      ensures !ok <==> SharedPage(old(View()), s, v) && old(phys.Free()) == {}
      ensures ok ==> Valid() && Kept(old(Snap()), Snap())
      ensures ok && Breakable(old(View()), s, v) ==> BreakOk(old(View()), s, v, spare)
      ensures ok && Breakable(old(View()), s, v) ==> View() == DoBreak(old(View()), s, v, spare)
      ensures !Breakable(old(View()), s, v) ==> Snap() == old(Snap()) && View() == old(View())
    {
      hide Tree, Upper, Agrees, Tight, Inv, InUse, Mem;
      ghost var a, c := Snap(), View();
      ok, spare := true, 0;
      var k := FindRegion(s, v);
      if k.None? || Cow !in spaces[s].regions[k.value].flags {
        return;
      }
      FaultingPage(a, c, top, phys.total, s, v);
      var e := Lookup(tables, s, v);
      if e.Absent? {
        return;
      }
      var g;
      ok, g := Rehouse(s, v, e.frame, BrokenFlags(spaces[s].regions[k.value].flags));
      if ok {
        spare := SpareOf(c, e.frame, g);
        RehousedShown(a, Snap(), c, top, phys.total, s, v, spare, g);
        pt := pt[(s, v) := BreakEntry(c, s, v, spare)];
        spaces := spaces[s := MarkBroken(spaces[s], k.value)];
      }
    }

    /** A write, by code that may touch the page, as the hardware and the fault handler do it: a writable entry stores; a
        fault in a copy-on-write region breaks the sharing and the write is retried; any other fault is fatal. */
    method WriteByte(s: nat, v: nat, off: nat, byte: Byte) returns (r: Outcome, ghost spare: nat)
      requires Valid() && s in spaces && v < USER_PAGES && off < PAGE_SIZE
      modifies this, phys.bitmap, phys.rc
      ensures r.Failed? <==> !Writable(old(View()), s, v)
      ensures r.Failed? ==> Snap() == old(Snap()) && View() == old(View())
      ensures r.Panicked? <==> !Storable(old(View()), s, v) && SharedPage(old(View()), s, v) && old(phys.Free()) == {}
      ensures r.Done? ==> Valid() && Kept(old(Snap()), Snap()) && spare !in old(View()).rc
      ensures r.Done? ==> View() == DoWrite(old(View()), s, v, off, byte, spare)
    {
      hide Tree, Upper, Agrees, Tight, Inv, InUse, Mem;
      ghost var c := View();
      FaultingPage(Snap(), c, top, phys.total, s, v);
      spare := Unused(c.rc);
      var e := Lookup(tables, s, v);
      if e.Entry? && e.writable {
        StorePage(s, v, off, byte);
        return Done, spare;
      }
      if e.Absent? || !Faultable(s, v) {
        return Failed, spare;
      }
      var ok;
      ok, spare := CowBreak(s, v);
      if !ok {
        return Panicked, spare;
      }
      BreakLeaves(c, s, v, spare);
      StorePage(s, v, off, byte);
      r := Done;
    }

    /** The handler's test: the page lies in a copy-on-write region. */
    predicate Faultable(s: nat, v: nat)
      requires s in spaces
      reads this
    {
      Covered(spaces[s].regions, v) && Cow in spaces[s].regions[IndexOf(spaces[s].regions, v)].flags
    }

    /** The store itself. */
    method StorePage(s: nat, v: nat, off: nat, byte: Byte)
      requires Valid() && s in spaces && v < USER_PAGES && off < PAGE_SIZE && Storable(View(), s, v)
      modifies this`pages
      ensures Valid() && View() == DoStore(old(View()), s, v, off, byte)
      ensures Kept(old(Snap()), Snap())
    {
      hide Tree, Upper, Tight, Inv, InUse, Mem;
      ghost var a, c := Snap(), View();
      FaultingPage(a, c, top, phys.total, s, v);
      var f := Lookup(tables, s, v).frame;
      StoreSettled(a, c, top, phys.total, s, v, off, byte);
      pages := pages[f := pages[f][off := byte]];
    }

    /** `vmm_space_get_phys`, and a copy to the frame through the kernel's mapping. */
    method PatchPage(s: nat, v: nat, off: nat, bytes: seq<Byte>)
      requires Valid() && s in spaces && v < USER_PAGES && off + |bytes| <= PAGE_SIZE && (s, v) in pt
      modifies this`pages
      ensures Valid() && pt[(s, v)].Entry? && pt[(s, v)].frame in old(View()).pages
      ensures View() == DoPatch(old(View()), s, v, Patched(old(View()).pages[pt[(s, v)].frame], off, bytes))
      ensures Kept(old(Snap()), Snap())
    {
      hide Tree, Upper, Tight, Inv, InUse, Mem;
      ghost var a, c := Snap(), View();
      FaultingPage(a, c, top, phys.total, s, v);
      var f := Lookup(tables, s, v).frame;
      PatchSettled(a, c, top, phys.total, s, v, c.pages[f]);
      var p := Patched(pages[f], off, bytes);
      PatchSettled(a, c, top, phys.total, s, v, p);
      pages := pages[f := p];
    }

    /** A user read: the byte behind the walk, if the page is mapped. */
    method ReadByte(s: nat, v: nat, off: nat) returns (r: Option<Byte>)
      requires Valid() && s in spaces && v < USER_PAGES && off < PAGE_SIZE
      ensures r == if (s, v) in MemOf(View().pt, View().pages) then Some(MemOf(View().pt, View().pages)[(s, v)][off])
              else None
    {
      FaultingPage(Snap(), View(), top, phys.total, s, v);
      var e := Lookup(tables, s, v);
      r := if e.Absent? then None else Some(pages[e.frame][off]);
    }
  }
}
