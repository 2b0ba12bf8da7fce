/** What creating, cloning and retiring a space do to tables, roles and counts. */
module SpaceSharing {
  import opened Layout
  import opened PageTable
  import opened PhysMem
  import opened CopyOnWrite
  import opened CowInvariant
  import opened MemoryView

  // ---------- create ----------

  /** A free frame became the root of a new space. */
  ghost predicate RootTaken(a: Snapshot, b: Snapshot, top: Table, g: nat) {
    && |top| == 256 && g in a.free && g < |a.tables| && |b.counts| == |a.counts| && b.pages == a.pages
    && b.tables == a.tables[g := RootTable(top)] && b.roles == RootRoles(a.roles, g) && b.free == a.free - {g}
    && forall i :: 0 <= i < |a.counts| && i != g ==> b.counts[i] == a.counts[i]
  }

  lemma RootSound(a: Snapshot, b: Snapshot, roots: set<nat>, top: Table, total: nat, g: nat)
    requires Sound(a, roots, top, total) && RootTaken(a, b, top, g)
    ensures Sound(b, roots + {g}, top, total) && Kept(a, b) && g !in roots
  {
    RootTree(a.tables, a.roles, roots, top, g);
    RootUpper(a.tables, roots, top, g);
    if Tight(a.tables, a.roles) {
      RootTight(a.tables, a.roles, roots, top, g);
    }
    assert b.free + b.roles.Keys == a.free + a.roles.Keys;
  }

  lemma RootUpper(t: Tables, roots: set<nat>, top: Table, g: nat)
    requires Upper(t, roots, top) && g < |t| && |top| == 256
    ensures Upper(t[g := RootTable(top)], roots + {g}, top)
  {
  }

  lemma RootAgrees(a: Snapshot, b: Snapshot, pt: Mapping, roots: set<nat>, top: Table, total: nat, g: nat)
    requires Sound(a, roots, top, total) && RootTaken(a, b, top, g) && Agrees(a.tables, pt, roots)
    requires forall x :: x in pt ==> x.0 in roots
    ensures Agrees(b.tables, pt, roots + {g})
  {
    forall s, v: nat | s in roots + {g} && v < USER_PAGES
      ensures Lookup(b.tables, s, v) == At(pt, s, v)
    {
      RootLookup(a.tables, a.roles, roots, top, g, s, v);
    }
  }

  lemma RootView(a: Snapshot, b: Snapshot, top: Table, g: nat)
    requires RootTaken(a, b, top, g) && g !in a.roles
    ensures CountsOf(b.roles, b.counts) == CountsOf(a.roles, a.counts)
    ensures PagesOf(b.roles, b.pages) == PagesOf(a.roles, a.pages)
  {
  }

  lemma CreateSettled(a: Snapshot, b: Snapshot, c: State, top: Table, total: nat, g: nat)
    requires Settled(a, c, top, total) && RootTaken(a, b, top, g)
    ensures g !in c.spaces && Settled(b, DoCreate(c, g), top, total) && Kept(a, b)
  {
    hide Tree, Upper, Tiled, Bits, Counted, Exclusive, OnePage, CountsOf, PagesOf, Lookup, Tight;
    RootSound(a, b, c.spaces.Keys, top, total, g);
    RootAgrees(a, b, c.pt, c.spaces.Keys, top, total, g);
    RootView(a, b, top, g);
    CreateKeeps(c, g);
    assert c.spaces[g := Space([], 0, 0)].Keys == c.spaces.Keys + {g};
  }

  // ---------- retire ----------

  /** The root of a space was given back; tables of its own that are left are lost with it. */
  ghost predicate RootDropped(a: Snapshot, b: Snapshot, s: nat) {
    && s < |a.counts| && b.tables == a.tables && b.pages == a.pages && |b.counts| == |a.counts|
    && b.roles == WithoutSpace(a.roles, s) && b.free == a.free + {s}
    && forall i :: 0 <= i < |a.counts| && i != s ==> b.counts[i] == a.counts[i]
  }

  lemma RetireSettled(a: Snapshot, b: Snapshot, c: State, top: Table, total: nat, s: nat)
    requires Settled(a, c, top, total) && s in c.spaces && c.spaces[s].regions == [] && RootDropped(a, b, s)
    ensures Settled(b, DoRetire(c, s), top, total)
    ensures Tight(a.tables, a.roles) ==> Kept(a, b)
  {
    hide Tree, Upper, Tiled, Bits, Exact, Exclusive, OnePage, CountsOf, PagesOf, Lookup, Tight, Agrees;
    RootManaged(a, c.spaces.Keys, top, total, s);
    RetireTree(a.tables, a.roles, c.spaces.Keys, s);
    RetireSound(a, b, c.spaces.Keys, top, total, s);
    RetireView(a, b, c.spaces.Keys, s);
    RetireKeeps(c, s);
    RetireAgrees(a.tables, c, s);
    assert (c.spaces - {s}).Keys == c.spaces.Keys - {s};
    if Tight(a.tables, a.roles) {
      RetireTight(a.tables, a.roles, c.spaces.Keys, s);
      RetireKept(a, b, s);
    }
  }

  lemma RetireKept(a: Snapshot, b: Snapshot, s: nat)
    requires s in a.roles && RootDropped(a, b, s) && b.roles == a.roles - {s}
    requires Tight(a.tables, a.roles - {s})
    ensures Kept(a, b)
  {
    assert b.free + b.roles.Keys == a.free + a.roles.Keys;
  }

  lemma RetireSound(a: Snapshot, b: Snapshot, roots: set<nat>, top: Table, total: nat, s: nat)
    requires Sound(a, roots, top, total) && s in roots && RootDropped(a, b, s)
    requires Tree(a.tables, WithoutSpace(a.roles, s), roots - {s})
    ensures Sound(b, roots - {s}, top, total)
  {
  }

  lemma RetireView(a: Snapshot, b: Snapshot, roots: set<nat>, s: nat)
    requires s in roots && Tree(a.tables, a.roles, roots) && RootDropped(a, b, s)
    ensures CountsOf(b.roles, b.counts) == CountsOf(a.roles, a.counts)
    ensures PagesOf(b.roles, b.pages) == PagesOf(a.roles, a.pages)
  {
  }

  lemma RetireAgrees(t: Tables, c: State, s: nat)
    requires Agrees(t, c.pt, c.spaces.Keys) && Tiled(c) && s in c.spaces && c.spaces[s].regions == []
    ensures Agrees(t, c.pt, c.spaces.Keys - {s})
    ensures forall v: nat :: v < USER_PAGES ==> Lookup(t, s, v) == Absent
  {
    NoPages(c.spaces[s], c.pt, s);
    forall v: nat | v < USER_PAGES
      ensures Lookup(t, s, v) == Absent
    {
      AgreesAt(t, c.pt, c.spaces.Keys, s, v);
    }
  }

  lemma RootManaged(a: Snapshot, roots: set<nat>, top: Table, total: nat, s: nat)
    requires Sound(a, roots, top, total) && s in roots
    ensures s in a.roles && s < total
  {
  }

  // ---------- clone ----------

  /** What the tables say when the pages in `done` of `s` have been shared with `d`. */
  function PartAt(pt: Mapping, s: nat, d: nat, done: set<nat>, q: nat, w: nat): Entry {
    if w in done && (s, w) in pt && (q == s || q == d) then ReadOnly(pt[(s, w)]) else At(pt, q, w)
  }

  function FramesAt(pt: Mapping, s: nat, done: set<nat>): set<nat> {
    set x | x in pt && x.0 == s && x.1 in done && pt[x].Entry? :: pt[x].frame
  }

  /** From `a` to `b` the pages in `done` were shared: demoted in `s`, mapped in `d`, their frames counted up. */
  ghost predicate PartShared(a: Snapshot, b: Snapshot, pt: Mapping, roots: set<nat>, s: nat, d: nat, done: set<nat>) {
    && (forall q, w: nat :: q in roots && w < USER_PAGES ==> Lookup(b.tables, q, w) == PartAt(pt, s, d, done, q, w))
    && Extends(a.roles, b.roles) && Kept(a, b)
    && b.pages == a.pages && |b.counts| == |a.counts|
    && (forall f :: f in a.roles && f < |a.counts| ==>
          b.counts[f] == if f in FramesAt(pt, s, done) then (a.counts[f] + 1) % U32 else a.counts[f])
  }

  lemma NothingShared(a: Snapshot, pt: Mapping, roots: set<nat>, s: nat, d: nat)
    requires Agrees(a.tables, pt, roots)
    ensures PartShared(a, a, pt, roots, s, d, {})
  {
    assert FramesAt(pt, s, {}) == {};
  }

  /** A page that is not mapped is skipped. */
  lemma SkippedPage(a: Snapshot, b: Snapshot, pt: Mapping, roots: set<nat>, s: nat, d: nat, done: set<nat>, v: nat)
    requires PartShared(a, b, pt, roots, s, d, done) && (s, v) !in pt
    ensures PartShared(a, b, pt, roots, s, d, done + {v})
  {
    assert FramesAt(pt, s, done + {v}) == FramesAt(pt, s, done) by {
      forall x: Slot | x in pt && x.0 == s && x.1 in done + {v}
        ensures x.1 in done
      {
        assert x == (s, x.1);
      }
    }
  }

  lemma NextFrame(pt: Mapping, s: nat, done: set<nat>, v: nat)
    requires OnePage(pt) && (s, v) in pt && pt[(s, v)].Entry? && v !in done
    ensures FramesAt(pt, s, done + {v}) == FramesAt(pt, s, done) + {pt[(s, v)].frame}
    ensures pt[(s, v)].frame !in FramesAt(pt, s, done)
  {
    forall x: Slot | x in pt && x.0 == s && x.1 in done + {v}
      ensures x.1 in done || x == (s, v)
    {
      assert x == (s, x.1);
    }
  }

  /** The count of the page's frame goes up, then it is mapped read-only in the copy and in the source. */
  ghost predicate PageShared(b: Snapshot, e: Snapshot, roots: set<nat>, s: nat, d: nat, v: nat, ro: Entry, f: nat) {
    && (forall q, w: nat :: q in roots && w < USER_PAGES ==>
          Lookup(e.tables, q, w) == if (q == s || q == d) && w == v then ro else Lookup(b.tables, q, w))
    && Extends(b.roles, e.roles) && Kept(b, e)
    && e.pages == b.pages && |e.counts| == |b.counts|
    && (forall g :: g in b.roles && g < |b.counts| ==>
       e.counts[g] == if g == f then (b.counts[g] + 1) % U32 else b.counts[g])
  }

  lemma CountedUp(b: Snapshot, b1: Snapshot, b2: Snapshot, e: Snapshot, roots: set<nat>, s: nat, d: nat, v: nat,
      ro: Entry, f: nat)
    requires b1 == b.(counts := b1.counts) && |b1.counts| == |b.counts|
    requires forall g :: 0 <= g < |b.counts| ==> b1.counts[g] == if g == f then (b.counts[g] + 1) % U32 else b.counts[g]
    requires Mapped(b1, b2, roots, d, v, ro) && Mapped(b2, e, roots, s, v, ro) && Kept(b1, b2) && Kept(b2, e)
    ensures PageShared(b, e, roots, s, d, v, ro, f)
  {
  }

  lemma SharedNext(a: Snapshot, b: Snapshot, e: Snapshot, pt: Mapping, roots: set<nat>, s: nat, d: nat, done: set<nat>,
      v: nat)
    requires PartShared(a, b, pt, roots, s, d, done) && OnePage(pt) && (s, v) in pt && pt[(s, v)].Entry? && v !in done
    requires PageShared(b, e, roots, s, d, v, ReadOnly(pt[(s, v)]), pt[(s, v)].frame)
    requires pt[(s, v)].frame in a.roles
    ensures PartShared(a, e, pt, roots, s, d, done + {v})
  {
    NextFrame(pt, s, done, v);
    forall q, w: nat | q in roots && w < USER_PAGES
      ensures Lookup(e.tables, q, w) == PartAt(pt, s, d, done + {v}, q, w)
    {
      assert Lookup(b.tables, q, w) == PartAt(pt, s, d, done, q, w);
    }
  }

  /** All pages shared: the tables say what the clone of the mapping says. */
  lemma SharedAll(a: Snapshot, b: Snapshot, pt: Mapping, roots: set<nat>, s: nat, d: nat, done: set<nat>)
    requires PartShared(a, b, pt, roots, s, d, done) && s != d
    requires forall x :: x in pt ==> x.0 != d
    requires forall v: nat :: (s, v) in pt ==> v in done
    ensures Agrees(b.tables, Share(pt, s, d), roots)
    ensures FramesAt(pt, s, done) == FramesOf(pt, s)
  {
    forall q, w: nat | q in roots && w < USER_PAGES
      ensures Lookup(b.tables, q, w) == At(Share(pt, s, d), q, w)
    {
      ShareAt(pt, s, d, (q, w));
      assert Lookup(b.tables, q, w) == PartAt(pt, s, d, done, q, w);
    }
    forall x: Slot | x in pt && x.0 == s
      ensures x.1 in done
    {
      assert x == (s, x.1);
    }
  }

  lemma SharedKept(a: Snapshot, b: Snapshot, pt: Mapping, roots: set<nat>, s: nat, d: nat, done: set<nat>)
    requires PartShared(a, b, pt, roots, s, d, done)
    ensures Kept(a, b)
  {
  }

  lemma SharedCounts(a: Snapshot, b: Snapshot, frames: set<nat>)
    requires Extends(a.roles, b.roles) && b.pages == a.pages && |b.counts| == |a.counts| == |a.pages|
    requires forall f :: f in b.roles ==> f < |b.counts|
    requires forall f :: f in a.roles && f < |a.counts| ==>
               b.counts[f] == if f in frames then (a.counts[f] + 1) % U32 else a.counts[f]
    ensures CountsOf(b.roles, b.counts) == ShareCounts(CountsOf(a.roles, a.counts), frames)
    ensures PagesOf(b.roles, b.pages) == PagesOf(a.roles, a.pages)
  {
  }

  /** The finished clone, seen flat. */
  lemma CloneShown(a: Snapshot, b: Snapshot, c: State, top: Table, total: nat, s: nat, d: nat, done: set<nat>)
    requires Shown(a, DoCreate(c, d), top, total) && Base(c) && CloneOk(c, s, d)
    requires Sound(b, c.spaces.Keys + {d}, top, total) && PartShared(a, b, c.pt, c.spaces.Keys + {d}, s, d, done)
    requires forall v: nat :: (s, v) in c.pt ==> v in done
    ensures Shown(b, DoClone(c, s, d), top, total)
  {
    hide Tree, Upper, Tiled, Bits, Exclusive, OnePage, CountsOf, PagesOf, Lookup, Agrees, FramesAt, FramesOf, PartAt,
        Share, CowSpace;
    SharedAll(a, b, c.pt, c.spaces.Keys + {d}, s, d, done);
    SharedCounts(a, b, FramesOf(c.pt, s));
    assert DoClone(c, s, d).spaces.Keys == c.spaces.Keys + {d};
  }

  // ---------- region lists during a clone ----------

  lemma AppendNode(rs: seq<Region>, i: nat)
    requires Sorted(rs) && i < |rs|
    ensures Insert(CowRegions(rs[..i]), rs[i].(flags := CowFlags(rs[i].flags))) == CowRegions(rs[..i + 1])
    ensures TotalPages(rs[..i + 1]) == TotalPages(rs[..i]) + rs[i].pages
  {
    assert rs[..i + 1][..i] == rs[..i];
    var k := InsertAt(CowRegions(rs[..i]), rs[i].first);
    assert CowRegions(rs[..i])[..i] == CowRegions(rs[..i]);
  }

  /** The pages a clone has gone through after `i` regions and `j` pages of the next. */
  function Visited(rs: seq<Region>, i: nat, j: nat): set<nat>
    requires i <= |rs|
  {
    set v: nat | v < USER_PAGES && (Covered(rs[..i], v) || (i < |rs| && rs[i].first <= v < rs[i].first + j))
  }

  lemma VisitNext(rs: seq<Region>, i: nat, j: nat)
    requires Sorted(rs) && i < |rs| && j < rs[i].pages
    ensures Visited(rs, i, j + 1) == Visited(rs, i, j) + {rs[i].first + j}
    ensures rs[i].first + j < USER_PAGES && rs[i].first + j !in Visited(rs, i, j)
  {
    var v := rs[i].first + j;
    assert rs[i].Covers(v);
  }

  lemma VisitRegion(rs: seq<Region>, i: nat)
    requires i < |rs|
    ensures Visited(rs, i, rs[i].pages) == Visited(rs, i + 1, 0)
  {
    forall v: nat
      ensures Covered(rs[..i + 1], v) <==> Covered(rs[..i], v) || rs[i].Covers(v)
    {
      if Covered(rs[..i + 1], v) {
        var m: nat :| m < i + 1 && rs[..i + 1][m].Covers(v);
        if m < i {
          CoveredBy(rs[..i], m, v);
        }
      }
      if Covered(rs[..i], v) {
        var m: nat :| m < i && rs[..i][m].Covers(v);
        CoveredBy(rs[..i + 1], m, v);
      }
      if rs[i].Covers(v) {
        CoveredBy(rs[..i + 1], i, v);
      }
    }
  }

  lemma VisitAll(c: State, s: nat)
    requires Tiled(c) && s in c.spaces
    ensures forall v: nat :: (s, v) in c.pt ==> v in Visited(c.spaces[s].regions, |c.spaces[s].regions|, 0)
  {
    var rs := c.spaces[s].regions;
    assert TiledSpace(c.spaces[s], c.pt, s);
    assert rs[..|rs|] == rs;
    forall v: nat | (s, v) in c.pt
      ensures v < USER_PAGES
    {
      var i: nat :| i < |rs| && rs[i].Covers(v);
    }
  }

  lemma VisitNone(rs: seq<Region>)
    ensures Visited(rs, 0, 0) == {}
  {
    forall v: nat
      ensures !Covered(rs[..0], v)
    {
    }
  }

  /** What a clone in progress keeps in mind: the memory `a` and the flat state `c` before the copy is filled. */
  ghost predicate Sharing(a: Snapshot, c: State, s: nat, d: nat) {
    && Base(c) && CloneOk(c, s, d)
    && CountsOf(a.roles, a.counts) == c.rc
  }

  lemma SharingPage(a: Snapshot, b: Snapshot, c: State, roots: set<nat>, top: Table, total: nat, s: nat, d: nat,
      i: nat, j: nat)
    requires Sharing(a, c, s, d) && Sound(b, roots, top, total) && roots == c.spaces.Keys + {d}
    requires i < |c.spaces[s].regions| && j < c.spaces[s].regions[i].pages
    requires PartShared(a, b, c.pt, roots, s, d, Visited(c.spaces[s].regions, i, j))
    ensures var v := c.spaces[s].regions[i].first + j;
            var done := Visited(c.spaces[s].regions, i, j);
            && v < USER_PAGES && v !in done && Visited(c.spaces[s].regions, i, j + 1) == done + {v}
            && Lookup(b.tables, s, v) == At(c.pt, s, v)
            && ((s, v) in c.pt ==> c.pt[(s, v)].Entry? && c.pt[(s, v)].frame in a.roles && c.pt[(s, v)].frame in b.roles
                                   && b.roles[c.pt[(s, v)].frame] == DataFrame
                                   && ReadOnly(c.pt[(s, v)]) == ReadOnly(PteFor(c.pt[(s, v)].frame,
                                      c.spaces[s].regions[i].flags)))
            && OnePage(c.pt)
  {
    hide Mem, Exclusive, InUse, Lookup, OnePage, CowRegions, TotalPages, Mappers;
    var rs := c.spaces[s].regions;
    var v := rs[i].first + j;
    assert TiledSpace(c.spaces[s], c.pt, s) && BitsSpace(rs, c.pt, s);
    VisitNext(rs, i, j);
    assert Lookup(b.tables, s, v) == PartAt(c.pt, s, d, Visited(rs, i, j), s, v);
    if (s, v) in c.pt {
      assert rs[i].Covers(v);
      assert c.pt[(s, v)].frame in CountsOf(a.roles, a.counts);
      assert BitsMatch(c.pt[(s, v)], rs[i].flags);
    }
  }

  lemma StartSharing(a: Snapshot, c: State, spaces: map<nat, Space>, s: nat, d: nat)
    requires Base(c) && CloneOk(c, s, d) && spaces == DoCreate(c, d).spaces
    requires Agrees(a.tables, c.pt, spaces.Keys) && CountsOf(a.roles, a.counts) == c.rc
    ensures Sharing(a, c, s, d) && s in spaces && spaces[s] == c.spaces[s]
    ensures spaces.Keys == c.spaces.Keys + {d}
    ensures PartShared(a, a, c.pt, spaces.Keys, s, d, Visited(c.spaces[s].regions, 0, 0))
    ensures SpaceOk(c.spaces[s]) && Tiled(c)
  {
    VisitNone(c.spaces[s].regions);
    NothingShared(a, c.pt, spaces.Keys, s, d);
    assert TiledSpace(c.spaces[s], c.pt, s);
  }

  lemma CloneBase(c: State, s: nat, d: nat)
    requires Inv(c) && CloneOk(c, s, d)
    ensures Base(DoClone(c, s, d)) && (Exact(DoClone(c, s, d)) <==> CloneGuard(c, s))
    ensures Inv(DoClone(c, s, d)) <==> CloneGuard(c, s)
  {
    CloneKeepsBase(c, s, d);
    CloneExactIff(c, s, d);
  }

  lemma CloneFields(c: State, e: Snapshot, spaces: map<nat, Space>, s: nat, d: nat, copy: Space, top: Table, total: nat)
    requires CloneOk(c, s, d) && spaces == DoCreate(c, d).spaces && SpaceOk(c.spaces[s])
    requires copy.regions == CowRegions(c.spaces[s].regions) && copy.regionCount == |c.spaces[s].regions|
    requires copy.usedPages == TotalPages(c.spaces[s].regions)
    requires Shown(e, DoClone(c, s, d), top, total)
    ensures spaces[s := CowSpace(c.spaces[s])][d := copy].Keys == spaces.Keys
    ensures ViewAt(spaces[s := CowSpace(c.spaces[s])][d := copy], Share(c.pt, s, d), e) == DoClone(c, s, d)
  {
    CopyOf(c.spaces[s], copy);
    ClonedMap(c, spaces, s, d);
  }

  lemma CopyOf(sp: Space, copy: Space)
    requires SpaceOk(sp) && copy.regions == CowRegions(sp.regions) && copy.regionCount == |sp.regions|
    requires copy.usedPages == TotalPages(sp.regions)
    ensures copy == CowSpace(sp)
  {
  }

  lemma ClonedMap(c: State, spaces: map<nat, Space>, s: nat, d: nat)
    requires CloneOk(c, s, d) && spaces == c.spaces[d := Space([], 0, 0)]
    ensures spaces[s := CowSpace(c.spaces[s])][d := CowSpace(c.spaces[s])] == DoClone(c, s, d).spaces
  {
    var sp := CowSpace(c.spaces[s]);
    assert spaces[s := sp][d := sp] == c.spaces[s := sp][d := sp];
  }

  // ---------- break ----------

  lemma AgreesMoved(a: Snapshot, b: Snapshot, pt: Mapping, roots: set<nat>, s: nat, v: nat, e: Entry)
    requires Agrees(a.tables, pt, roots) && SetAt(a.tables, b.tables, roots, s, v, e) && s in roots
    ensures Agrees(b.tables, pt[(s, v) := e], roots)
  {
    forall q, w: nat | q in roots && w < USER_PAGES
      ensures Lookup(b.tables, q, w) == At(pt[(s, v) := e], q, w)
    {
      AgreesAt(a.tables, pt, roots, q, w);
    }
  }

  /** The last counted sharer: the count drops to 0 and the entry is rewritten over the same frame. */
  ghost predicate TakenOver(a: Snapshot, m: Snapshot, b: Snapshot, roots: set<nat>, s: nat, v: nat, f: nat, e: Entry) {
    && f < |a.counts| && m == a.(counts := a.counts[f := 0])
    && Mapped(m, b, roots, s, v, e) && Kept(m, b)
  }

  lemma TakenOverView(a: Snapshot, m: Snapshot, b: Snapshot, roots: set<nat>, s: nat, v: nat, f: nat, e: Entry)
    requires TakenOver(a, m, b, roots, s, v, f, e) && f in a.roles && a.roles[f] == DataFrame && |a.pages| == |a.counts|
    requires forall g :: g in b.roles ==> g < |a.counts|
    ensures CountsOf(b.roles, b.counts) == CountsOf(a.roles, a.counts)[f := 0]
    ensures PagesOf(b.roles, b.pages) == PagesOf(a.roles, a.pages)
    ensures Kept(a, b)
  {
  }

  /** A sharer among several: the count drops by one, a fresh frame gets the bytes and the entry. */
  ghost predicate CopiedOut(a: Snapshot, m: Snapshot, n: Snapshot, b: Snapshot, roots: set<nat>, s: nat, v: nat,
      f: nat, g: nat, e: Entry) {
    && f < |a.counts| && f < |a.pages| && a.counts[f] > 1 && m == a.(counts := a.counts[f := a.counts[f] - 1])
    && DataTaken(m, n, g) && n.pages[g] == a.pages[f]
    && Mapped(n, b, roots, s, v, e) && Kept(n, b)
  }

  lemma CopiedOutView(a: Snapshot, m: Snapshot, n: Snapshot, b: Snapshot, roots: set<nat>, top: Table, total: nat,
      s: nat, v: nat,
                      f: nat, g: nat, e: Entry)
    requires Sound(a, roots, top, total) && CopiedOut(a, m, n, b, roots, s, v, f, g, e) && Sound(b, roots, top, total)
    requires f in a.roles && a.roles[f] == DataFrame
    ensures g !in a.roles && TookIn(m, n, {g})
    ensures CountsOf(b.roles, b.counts) == CountsOf(a.roles, a.counts)[f := a.counts[f] - 1][g := 1]
    ensures PagesOf(b.roles, b.pages) == PagesOf(a.roles, a.pages)[g := a.pages[f]]
    ensures Kept(a, b)
  {
    DataTakenSound(m, n, roots, top, total, g);
    CopiedCounts(a, m, n, b, f, g);
    CopiedPages(a, m, n, b, f, g);
  }

  lemma CopiedCounts(a: Snapshot, m: Snapshot, n: Snapshot, b: Snapshot, f: nat, g: nat)
    requires f < |a.counts| && a.counts[f] > 1 && m == a.(counts := a.counts[f := a.counts[f] - 1])
    requires TookIn(m, n, {g}) && TookIn(n, b, {}) && f in a.roles && a.roles[f] == DataFrame
    requires forall h :: h in b.roles ==> h < |a.counts|
    ensures CountsOf(b.roles, b.counts) == CountsOf(a.roles, a.counts)[f := a.counts[f] - 1][g := 1]
  {
  }

  lemma CopiedPages(a: Snapshot, m: Snapshot, n: Snapshot, b: Snapshot, f: nat, g: nat)
    requires f < |a.pages| && m.roles == a.roles && m.pages == a.pages
    requires TookIn(m, n, {g}) && TookIn(n, b, {}) && f in a.roles && a.roles[f] == DataFrame
    requires b.pages == n.pages && g < |a.pages| && n.pages == a.pages[g := a.pages[f]]
    requires forall h :: h in b.roles ==> h < |a.pages|
    ensures PagesOf(b.roles, b.pages) == PagesOf(a.roles, a.pages)[g := a.pages[f]]
  {
  }

  /** Either way the result shows the broken flat state. */
  lemma BreakShown(a: Snapshot, b: Snapshot, c: State, top: Table, total: nat, s: nat, v: nat, g: nat)
    requires Settled(a, c, top, total) && BreakOk(c, s, v, g) && Sound(b, c.spaces.Keys, top, total)
    requires var x := DoBreak(c, s, v, g);
             && SetAt(a.tables, b.tables, c.spaces.Keys, s, v, x.pt[(s, v)])
             && CountsOf(b.roles, b.counts) == x.rc && PagesOf(b.roles, b.pages) == x.pages
    ensures Settled(b, DoBreak(c, s, v, g), top, total)
  {
    BreakKeeps(c, s, v, g);
    BreakFields(c, s, v, g);
    AgreesMoved(a, b, c.pt, c.spaces.Keys, s, v, DoBreak(c, s, v, g).pt[(s, v)]);
  }

  lemma BreakFields(c: State, s: nat, v: nat, g: nat)
    requires Breakable(c, s, v)
    ensures var x := DoBreak(c, s, v, g);
            && x.spaces.Keys == c.spaces.Keys
            && x.spaces == c.spaces[s := MarkBroken(c.spaces[s], IndexOf(c.spaces[s].regions, v))]
            && x.pt == c.pt[(s, v) := BreakEntry(c, s, v, g)]
  {
  }

  function MarkBroken(sp: Space, i: nat): Space
    requires i < |sp.regions|
  {
    sp.(regions := SetFlags(sp.regions, i, BrokenFlags(sp.regions[i].flags)))
  }

  function BreakEntry(c: State, s: nat, v: nat, g: nat): Entry
    requires Breakable(c, s, v)
  {
    PteFor(BreakFrame(c, s, v, g), BrokenFlags(c.spaces[s].regions[IndexOf(c.spaces[s].regions, v)].flags))
  }

  /** Page `v`, mapped to `f`, came to be mapped to `g` with its region's new flags. */
  ghost predicate Rehoused(a: Snapshot, b: Snapshot, roots: set<nat>, s: nat, v: nat, f: nat, g: nat, flags: Flags) {
    && f < |a.counts| && f < |a.pages| && Kept(a, b) && SetAt(a.tables, b.tables, roots, s, v, PteFor(g, flags))
    && if a.counts[f] <= 1 then
         g == f && CountsOf(b.roles, b.counts) == CountsOf(a.roles, a.counts)[f := 0]
         && PagesOf(b.roles, b.pages) == PagesOf(a.roles, a.pages)
       else
         g !in a.roles && CountsOf(b.roles, b.counts) == CountsOf(a.roles, a.counts)[f := a.counts[f] - 1][g := 1]
         && PagesOf(b.roles, b.pages) == PagesOf(a.roles, a.pages)[g := a.pages[f]]
  }

  lemma CopiedSet(a: Snapshot, m: Snapshot, n: Snapshot, b: Snapshot, roots: set<nat>, s: nat, v: nat, e: Entry)
    requires m.tables == a.tables && n.tables == m.tables && SetAt(n.tables, b.tables, roots, s, v, e)
    ensures SetAt(a.tables, b.tables, roots, s, v, e)
  {
  }

  lemma FreeManaged(a: Snapshot, roots: set<nat>, top: Table, total: nat, f: nat, g: nat)
    requires Sound(a, roots, top, total) && f in a.roles && g in a.free
    ensures f < total && g !in a.roles
  {
  }

  /** The copied-out page, put together. */
  lemma CopiedOutAll(a: Snapshot, m: Snapshot, n: Snapshot, b: Snapshot, roots: set<nat>, top: Table, total: nat,
      s: nat, v: nat, f: nat, g: nat, flags: Flags)
    requires Sound(a, roots, top, total) && Sound(b, roots, top, total) && f in a.roles && a.roles[f] == DataFrame
    requires CopiedOut(a, m, n, b, roots, s, v, f, g, PteFor(g, flags))
    ensures Rehoused(a, b, roots, s, v, f, g, flags)
  {
    CopiedOutView(a, m, n, b, roots, top, total, s, v, f, g, PteFor(g, flags));
    CopiedSet(a, m, n, b, roots, s, v, PteFor(g, flags));
    hide Sound, SetAt, Kept, CountsOf, PagesOf;
  }

  /** What the fault handler finds behind a mapped page. */
  lemma FaultingPage(a: Snapshot, c: State, top: Table, total: nat, s: nat, v: nat)
    requires Settled(a, c, top, total) && s in c.spaces && v < USER_PAGES
    ensures Lookup(a.tables, s, v) == At(c.pt, s, v)
    ensures Lookup(a.tables, s, v).Entry? ==> (s, v) in c.pt
    ensures (s, v) in c.pt ==>
              c.pt[(s, v)].Entry? && c.pt[(s, v)].frame in a.roles && a.roles[c.pt[(s, v)].frame] == DataFrame
              && c.pt[(s, v)].frame in c.rc && c.pt[(s, v)].frame in c.pages
  {
    AgreesAt(a.tables, c.pt, c.spaces.Keys, s, v);
    if (s, v) in c.pt {
      FrameIsData(a, c, top, total, (s, v));
    }
  }

  /** A frame number for the private copy; when the frame was taken over, any that is not in use. */
  ghost function SpareOf(c: State, f: nat, g: nat): (spare: nat)
    requires g == f || g !in c.rc
    ensures spare !in c.rc && (g != f ==> spare == g)
  {
    if g != f then g else Unused(c.rc)
  }

  ghost function Unused(rc: map<nat, nat>): (u: nat)
    ensures u !in rc
  {
    UnusedExists(rc.Keys, 0);
    var u: nat :| u !in rc; u
  }

  lemma {:induction false} UnusedExists(used: set<nat>, from: nat)
    ensures exists u: nat :: u >= from && u !in used
    decreases |used|
  {
    if from !in used {
      assert from >= from && from !in used;
    } else {
      UnusedExists(used - {from}, from + 1);
      var u: nat :| u >= from + 1 && u !in used - {from};
      assert u !in used;
    }
  }

  lemma RehousedShown(a: Snapshot, b: Snapshot, c: State, top: Table, total: nat, s: nat, v: nat, spare: nat, g: nat)
    requires Settled(a, c, top, total) && BreakOk(c, s, v, spare) && Sound(b, c.spaces.Keys, top, total)
    requires g == BreakFrame(c, s, v, spare) && c.pt[(s, v)].frame < |a.counts|
             && a.counts[c.pt[(s, v)].frame] == c.rc[c.pt[(s, v)].frame]
    requires Rehoused(a, b, c.spaces.Keys, s, v, c.pt[(s, v)].frame, g,
                      BrokenFlags(c.spaces[s].regions[IndexOf(c.spaces[s].regions, v)].flags))
    ensures Settled(b, DoBreak(c, s, v, spare), top, total)
    ensures DoBreak(c, s, v, spare).pt == c.pt[(s, v) := BreakEntry(c, s, v, spare)]
    ensures DoBreak(c, s, v, spare).spaces == c.spaces[s := MarkBroken(c.spaces[s], IndexOf(c.spaces[s].regions, v))]
  {
    BreakFields(c, s, v, spare);
    RehousedParts(a, b, c, s, v, spare, g);
    BreakShown(a, b, c, top, total, s, v, spare);
  }

  lemma RehousedParts(a: Snapshot, b: Snapshot, c: State, s: nat, v: nat, spare: nat, g: nat)
    requires BreakOk(c, s, v, spare) && g == BreakFrame(c, s, v, spare)
    requires CountsOf(a.roles, a.counts) == c.rc && PagesOf(a.roles, a.pages) == c.pages
    requires c.pt[(s, v)].frame < |a.counts| && a.counts[c.pt[(s, v)].frame] == c.rc[c.pt[(s, v)].frame]
    requires Rehoused(a, b, c.spaces.Keys, s, v, c.pt[(s, v)].frame, g,
                      BrokenFlags(c.spaces[s].regions[IndexOf(c.spaces[s].regions, v)].flags))
    ensures CountsOf(b.roles, b.counts) == DoBreak(c, s, v, spare).rc
    ensures PagesOf(b.roles, b.pages) == DoBreak(c, s, v, spare).pages
  {
    assert a.pages[c.pt[(s, v)].frame] == PagesOf(a.roles, a.pages)[c.pt[(s, v)].frame];
  }

  /** The retry after a break finds a writable entry. */
  lemma BreakLeaves(c: State, s: nat, v: nat, spare: nat)
    requires Inv(c) && BreakOk(c, s, v, spare)
    ensures Storable(DoBreak(c, s, v, spare), s, v)
    ensures s in DoBreak(c, s, v, spare).spaces
  {
    BreakThenStore(c, s, v, spare);
    BreakFields(c, s, v, spare);
  }

  lemma StoreSettled(a: Snapshot, c: State, top: Table, total: nat, s: nat, v: nat, off: nat, byte: Byte)
    requires Settled(a, c, top, total) && Storable(c, s, v) && off < PAGE_SIZE
    ensures c.pt[(s, v)].frame < |a.pages|
    ensures var f := c.pt[(s, v)].frame;
            Settled(a.(pages := a.pages[f := a.pages[f][off := byte]]), DoStore(c, s, v, off, byte), top, total)
  {
    hide Tiled, Bits, Exclusive, OnePage, Exact, Mem, InUse, Agrees, CountsOf;
    FrameIsData(a, c, top, total, (s, v));
    StoreKeeps(c, s, v, off, byte);
    var f := c.pt[(s, v)].frame;
    assert PagesOf(a.roles, a.pages)[f] == a.pages[f];
    StorePages(a.roles, a.pages, f, a.pages[f][off := byte]);
  }

  lemma PatchSettled(a: Snapshot, c: State, top: Table, total: nat, s: nat, v: nat, p: Page)
    requires Settled(a, c, top, total) && (s, v) in c.pt && c.pt[(s, v)].Entry?
    ensures c.pt[(s, v)].frame < |a.pages| && c.pt[(s, v)].frame in c.pages
    ensures a.pages[c.pt[(s, v)].frame] == c.pages[c.pt[(s, v)].frame]
    ensures Settled(a.(pages := a.pages[c.pt[(s, v)].frame := p]), DoPatch(c, s, v, p), top, total)
  {
    hide Tiled, Bits, Exclusive, OnePage, Exact, Mem, InUse, Agrees, CountsOf;
    FrameIsData(a, c, top, total, (s, v));
    PatchKeeps(c, s, v, p);
    var f := c.pt[(s, v)].frame;
    assert PagesOf(a.roles, a.pages)[f] == a.pages[f];
    StorePages(a.roles, a.pages, f, p);
  }

  lemma StorePages(roles: Roles, pages: seq<Page>, f: nat, p: Page)
    requires f in roles && roles[f] == DataFrame && f < |pages|
    ensures PagesOf(roles, pages[f := p]) == PagesOf(roles, pages)[f := p]
  {
  }
}
