/** Every operation keeps the invariant of the flat mapping; cloning keeps it exactly under its guard. */
module CowInvariant {
  import opened Layout
  import opened CopyOnWrite

  // ---------- when an operation may happen ----------

  ghost predicate AllocOk(a: State, s: nat, first: nat, flags: Flags, frames: seq<nat>, fill: seq<Page>) {
    && s in a.spaces && |frames| > 0 && |fill| == |frames| && first + |frames| <= USER_PAGES
    && (forall v: nat :: first <= v < first + |frames| ==> !Covered(a.spaces[s].regions, v))
    && NoDup(frames) && (forall f :: f in frames ==> f !in a.rc)
    && Cow !in flags && Mmio !in flags
  }

  predicate CloneOk(a: State, s: nat, d: nat) {
    s in a.spaces && d !in a.spaces
  }

  /** What the count of every frame of the source must satisfy for sharing to be recorded. */
  predicate CloneGuard(a: State, s: nat) {
    forall f :: f in FramesOf(a.pt, s) && f in a.rc ==> 1 <= a.rc[f] < U32 - 1
  }

  predicate BreakOk(a: State, s: nat, v: nat, spare: nat) {
    Breakable(a, s, v) && spare !in a.rc
  }

  // ---------- counting mappings ----------

  predicate InRange(x: Slot, s: nat, first: nat, n: nat) {
    x.0 == s && first <= x.1 < first + n
  }

  lemma NewEntriesAt(s: nat, first: nat, flags: Flags, frames: seq<nat>, x: Slot)
    ensures var r := NewEntries(s, first, flags, frames);
            && (x in r <==> InRange(x, s, first, |frames|))
            && (x in r ==> r[x] == PteFor(frames[x.1 - first], flags))
  {
    var r := NewEntries(s, first, flags, frames);
    if InRange(x, s, first, |frames|) {
      assert (s, x.1) in r;
      assert x == (s, x.1);
    }
  }

  lemma MapRangeAt(pt: Mapping, s: nat, first: nat, flags: Flags, frames: seq<nat>, x: Slot)
    ensures var r := MapRange(pt, s, first, flags, frames);
            && (x in r <==> x in pt || InRange(x, s, first, |frames|))
            && (InRange(x, s, first, |frames|) ==> r[x] == PteFor(frames[x.1 - first], flags))
            && (x in pt && !InRange(x, s, first, |frames|) ==> r[x] == pt[x])
  {
    NewEntriesAt(s, first, flags, frames, x);
  }

  /** A mapped frame gains no mapping. */
  lemma MappersOld(pt: Mapping, s: nat, first: nat, flags: Flags, frames: seq<nat>, f: nat)
    requires f !in frames
    requires forall v: nat :: first <= v < first + |frames| ==> (s, v) !in pt
    ensures Mappers(MapRange(pt, s, first, flags, frames), f) == Mappers(pt, f)
  {
    var r := MapRange(pt, s, first, flags, frames);
    forall x: Slot
      ensures x in Mappers(r, f) <==> x in Mappers(pt, f)
    {
      MapRangeAt(pt, s, first, flags, frames, x);
      if InRange(x, s, first, |frames|) {
        assert frames[x.1 - first] in frames;
        assert x == (s, x.1);
      }
    }
  }

  /** Each new frame has exactly one mapping. */
  lemma MappersNew(pt: Mapping, s: nat, first: nat, flags: Flags, frames: seq<nat>, i: nat)
    requires NoDup(frames) && i < |frames|
    requires forall x :: x in pt && pt[x].Entry? ==> pt[x].frame !in frames
    ensures Mappers(MapRange(pt, s, first, flags, frames), frames[i]) == {(s, first + i)}
  {
    var r := MapRange(pt, s, first, flags, frames);
    var f := frames[i];
    MapRangeAt(pt, s, first, flags, frames, (s, first + i));
    forall x: Slot | x in Mappers(r, f)
      ensures x == (s, first + i)
    {
      MapRangeAt(pt, s, first, flags, frames, x);
      assert f in frames;
      assert InRange(x, s, first, |frames|);
      assert x == (s, x.1);
    }
  }

  lemma ShareAt(pt: Mapping, s: nat, d: nat, x: Slot)
    requires s != d
    requires forall y :: y in pt ==> y.0 != d
    ensures var r := Share(pt, s, d);
            && (x in r <==> x in pt || (x.0 == d && (s, x.1) in pt))
            && (x in pt ==> r[x] == if x.0 == s then ReadOnly(pt[x]) else pt[x])
            && (x.0 == d && (s, x.1) in pt ==> r[x] == ReadOnly(pt[(s, x.1)]))
  {
    var copies := map y | y in pt && y.0 == s :: (d, y.1) := ReadOnly(pt[y]);
    if x.0 == d && (s, x.1) in pt {
      assert x == (d, (s, x.1).1);
      assert x in copies;
    }
  }

  /** Sharing adds one mapping to each frame of the source and none to any other. */
  lemma MappersShare(pt: Mapping, s: nat, d: nat, f: nat)
    requires s != d && OnePage(pt)
    requires forall y :: y in pt ==> y.0 != d && pt[y].Entry?
    ensures |Mappers(Share(pt, s, d), f)| == |Mappers(pt, f)| + if f in FramesOf(pt, s) then 1 else 0
    ensures Mappers(Share(pt, s, d), f) >= Mappers(pt, f)
  {
    var r := Share(pt, s, d);
    if f in FramesOf(pt, s) {
      var y :| y in pt && y.0 == s && pt[y].frame == f;
      forall x: Slot
        ensures x in Mappers(r, f) <==> x in Mappers(pt, f) || x == (d, y.1)
      {
        ShareAt(pt, s, d, x);
      }
      assert Mappers(r, f) == Mappers(pt, f) + {(d, y.1)};
    } else {
      forall x: Slot
        ensures x in Mappers(r, f) <==> x in Mappers(pt, f)
      {
        ShareAt(pt, s, d, x);
      }
      assert Mappers(r, f) == Mappers(pt, f);
    }
  }

  lemma MappersUnmap(pt: Mapping, s: nat, r: Region, f: nat)
    requires OnePage(pt)
    ensures Mappers(Unmap(pt, s, r), f) <= Mappers(pt, f)
    ensures |Mappers(Unmap(pt, s, r), f)| == |Mappers(pt, f)| - if f in FramesIn(pt, s, r) then 1 else 0
  {
    var u := Unmap(pt, s, r);
    if f in FramesIn(pt, s, r) {
      var y :| y in pt && y.0 == s && r.Covers(y.1) && pt[y].Entry? && pt[y].frame == f;
      assert Mappers(u, f) == Mappers(pt, f) - {y};
    } else {
      assert Mappers(u, f) == Mappers(pt, f);
    }
  }

  lemma MappersMove(pt: Mapping, x: Slot, e: Entry, f: nat)
    requires x in pt && pt[x].Entry? && e.Entry?
    ensures pt[x].frame == e.frame ==> Mappers(pt[x := e], f) == Mappers(pt, f)
    ensures pt[x].frame != e.frame ==>
      Mappers(pt[x := e], f) == if f == e.frame then Mappers(pt, f) + {x}
                                else if f == pt[x].frame then Mappers(pt, f) - {x} else Mappers(pt, f)
  {
  }

  // ---------- create ----------

  /** A space whose pages keep their entries stays tiled with matching bits. */
  lemma SpaceUntouched(sp: Space, pt: Mapping, qt: Mapping, s: nat)
    requires TiledSpace(sp, pt, s) && BitsSpace(sp.regions, pt, s)
    requires forall v: nat :: ((s, v) in pt <==> (s, v) in qt) && ((s, v) in pt ==> qt[(s, v)] == pt[(s, v)])
    ensures TiledSpace(sp, qt, s) && BitsSpace(sp.regions, qt, s)
  {
  }

  lemma CreateSpaces(a: State, s: nat)
    requires Tiled(a) && Bits(a) && s !in a.spaces
    requires forall x :: x in a.pt ==> x.0 in a.spaces
    ensures Tiled(DoCreate(a, s)) && Bits(DoCreate(a, s))
  {
    var b := DoCreate(a, s);
    forall t | t in b.spaces
      ensures TiledSpace(b.spaces[t], b.pt, t) && BitsSpace(b.spaces[t].regions, b.pt, t)
    {
      if t != s {
        assert TiledSpace(a.spaces[t], a.pt, t);
      }
    }
  }

  lemma CreateKeeps(a: State, s: nat)
    requires Inv(a) && s !in a.spaces
    ensures Inv(DoCreate(a, s))
  {
    CreateSpaces(a, s);
  }

  // ---------- alloc ----------

  lemma AllocClosed(a: State, s: nat, first: nat, flags: Flags, frames: seq<nat>, fill: seq<Page>)
    requires Base(a) && AllocOk(a, s, first, flags, frames, fill)
    ensures Closed(DoAlloc(a, s, first, flags, frames, fill))
  {
    var b := DoAlloc(a, s, first, flags, frames, fill);
    forall x: Slot | x in b.pt
      ensures x.0 in b.spaces && b.pt[x].Entry? && b.pt[x].frame in b.rc
    {
      MapRangeAt(a.pt, s, first, flags, frames, x);
    }
    forall f | f in b.rc
      ensures Mappers(b.pt, f) != {}
    {
      AllocMappers(a, s, first, flags, frames, fill, f);
    }
  }

  lemma AllocMappers(a: State, s: nat, first: nat, flags: Flags, frames: seq<nat>, fill: seq<Page>, f: nat)
    requires Base(a) && AllocOk(a, s, first, flags, frames, fill)
    ensures var b := DoAlloc(a, s, first, flags, frames, fill);
            if f in frames then |Mappers(b.pt, f)| == 1 else Mappers(b.pt, f) == Mappers(a.pt, f)
  {
    if f in frames {
      var i: nat :| i < |frames| && frames[i] == f;
      MappersNew(a.pt, s, first, flags, frames, i);
    } else {
      MappersOld(a.pt, s, first, flags, frames, f);
    }
  }

  lemma AllocExact(a: State, s: nat, first: nat, flags: Flags, frames: seq<nat>, fill: seq<Page>)
    requires Base(a) && Exact(a) && AllocOk(a, s, first, flags, frames, fill)
    ensures Exact(DoAlloc(a, s, first, flags, frames, fill))
  {
    var b := DoAlloc(a, s, first, flags, frames, fill);
    forall f | f in b.rc
      ensures CountOk(b.rc[f], |Mappers(b.pt, f)|)
    {
      AllocMappers(a, s, first, flags, frames, fill, f);
    }
  }

  /** Two mappings of one frame after an allocation are old ones, or the same new one. */
  lemma AllocSame(pt: Mapping, s: nat, first: nat, flags: Flags, frames: seq<nat>, x: Slot, y: Slot)
    requires NoDup(frames)
    requires forall z :: z in pt && pt[z].Entry? ==> pt[z].frame !in frames
    requires forall v: nat :: first <= v < first + |frames| ==> (s, v) !in pt
    requires var r := MapRange(pt, s, first, flags, frames);
             x in r && y in r && r[x].Entry? && r[y].Entry? && r[x].frame == r[y].frame
    ensures x == y || (x in pt && y in pt && !InRange(x, s, first, |frames|) && !InRange(y, s, first, |frames|))
  {
    MapRangeAt(pt, s, first, flags, frames, x);
    MapRangeAt(pt, s, first, flags, frames, y);
    var n := |frames|;
    if InRange(x, s, first, n) && InRange(y, s, first, n) {
      assert frames[x.1 - first] == frames[y.1 - first];
    }
  }

  lemma AllocSharing(a: State, s: nat, first: nat, flags: Flags, frames: seq<nat>, fill: seq<Page>)
    requires Base(a) && AllocOk(a, s, first, flags, frames, fill)
    ensures var b := DoAlloc(a, s, first, flags, frames, fill); OnePage(b.pt) && Exclusive(b.pt)
  {
    var b := DoAlloc(a, s, first, flags, frames, fill);
    forall x: Slot, y: Slot | x in b.pt && y in b.pt && b.pt[x].Entry? && b.pt[y].Entry?
        && b.pt[x].frame == b.pt[y].frame
      ensures x.1 == y.1 && (b.pt[x].writable ==> x == y)
    {
      AllocSame(a.pt, s, first, flags, frames, x, y);
      MapRangeAt(a.pt, s, first, flags, frames, x);
      MapRangeAt(a.pt, s, first, flags, frames, y);
    }
  }

  lemma AllocSpace(a: State, s: nat, first: nat, flags: Flags, frames: seq<nat>, fill: seq<Page>)
    requires Base(a) && AllocOk(a, s, first, flags, frames, fill)
    ensures var b := DoAlloc(a, s, first, flags, frames, fill); TiledSpace(b.spaces[s], b.pt, s)
  {
    var b := DoAlloc(a, s, first, flags, frames, fill);
    var r := Region(first, |frames|, flags + {Used});
    var rs := a.spaces[s].regions;
    InsertSorted(rs, r);
    InsertTotal(rs, r);
    forall v: nat
      ensures (s, v) in b.pt <==> Covered(b.spaces[s].regions, v)
    {
      MapRangeAt(a.pt, s, first, flags, frames, (s, v));
      InsertCovered(rs, r, v);
    }
    forall i: nat | i < |rs| + 1
      ensures Used in b.spaces[s].regions[i].flags && Mmio !in b.spaces[s].regions[i].flags
    {
      InsertIndex(rs, r, i);
    }
  }

  lemma AllocSpaceBits(a: State, s: nat, first: nat, flags: Flags, frames: seq<nat>, fill: seq<Page>)
    requires Base(a) && AllocOk(a, s, first, flags, frames, fill)
    ensures var b := DoAlloc(a, s, first, flags, frames, fill); BitsSpace(b.spaces[s].regions, b.pt, s)
  {
    hide Exclusive, OnePage, Linked, TotalPages, Sorted;
    var b := DoAlloc(a, s, first, flags, frames, fill);
    var r := Region(first, |frames|, flags + {Used});
    var rs := a.spaces[s].regions;
    var ns := b.spaces[s].regions;
    var k := InsertAt(rs, first);
    forall i: nat, v: nat | i < |ns| && ns[i].Covers(v) && (s, v) in b.pt
      ensures BitsMatch(b.pt[(s, v)], ns[i].flags)
    {
      MapRangeAt(a.pt, s, first, flags, frames, (s, v));
      InsertIndex(rs, r, i);
      if i != k {
        CoveredBy(rs, if i < k then i else i - 1, v);
      }
    }
  }

  lemma AllocSpaces(a: State, s: nat, first: nat, flags: Flags, frames: seq<nat>, fill: seq<Page>)
    requires Base(a) && AllocOk(a, s, first, flags, frames, fill)
    ensures Tiled(DoAlloc(a, s, first, flags, frames, fill)) && Bits(DoAlloc(a, s, first, flags, frames, fill))
  {
    var b := DoAlloc(a, s, first, flags, frames, fill);
    AllocSpace(a, s, first, flags, frames, fill);
    AllocSpaceBits(a, s, first, flags, frames, fill);
    forall t | t in b.spaces && t != s
      ensures TiledSpace(b.spaces[t], b.pt, t) && BitsSpace(b.spaces[t].regions, b.pt, t)
    {
      forall v: nat {
        MapRangeAt(a.pt, s, first, flags, frames, (t, v));
      }
      SpaceUntouched(a.spaces[t], a.pt, b.pt, t);
    }
  }

  lemma InsertIndex(rs: seq<Region>, r: Region, i: nat)
    requires i < |rs| + 1
    ensures var k := InsertAt(rs, r.first);
            Insert(rs, r)[i] == if i < k then rs[i] else if i == k then r else rs[i - 1]
  {
  }

  lemma AllocKeeps(a: State, s: nat, first: nat, flags: Flags, frames: seq<nat>, fill: seq<Page>)
    requires Inv(a) && AllocOk(a, s, first, flags, frames, fill)
    ensures Inv(DoAlloc(a, s, first, flags, frames, fill))
  {
    AllocClosed(a, s, first, flags, frames, fill);
    AllocExact(a, s, first, flags, frames, fill);
    AllocSharing(a, s, first, flags, frames, fill);
    AllocSpaces(a, s, first, flags, frames, fill);
  }

  // ---------- clone ----------

  lemma CloneAt(a: State, s: nat, d: nat, x: Slot)
    requires Closed(a) && CloneOk(a, s, d)
    ensures var r := DoClone(a, s, d).pt;
            && (x in r <==> x in a.pt || (x.0 == d && (s, x.1) in a.pt))
            && (x in a.pt ==> r[x] == if x.0 == s then ReadOnly(a.pt[x]) else a.pt[x])
            && (x.0 == d && (s, x.1) in a.pt ==> r[x] == ReadOnly(a.pt[(s, x.1)]))
  {
    ShareAt(a.pt, s, d, x);
  }

  lemma CloneClosed(a: State, s: nat, d: nat)
    requires Base(a) && CloneOk(a, s, d)
    ensures Closed(DoClone(a, s, d))
  {
    hide Exclusive, Tiled, Bits, Share;
    var b := DoClone(a, s, d);
    forall x: Slot | x in b.pt
      ensures x.0 in b.spaces && b.pt[x].Entry? && b.pt[x].frame in b.rc
    {
      CloneAt(a, s, d, x);
    }
    forall f | f in b.rc
      ensures Mappers(b.pt, f) != {}
    {
      MappersShare(a.pt, s, d, f);
    }
  }

  /** Behind every mapping of the clone stands a mapping of the same frame and page before it. */
  function Origin(a: State, s: nat, x: Slot): Slot {
    if x in a.pt then x else (s, x.1)
  }

  lemma CloneSharing(a: State, s: nat, d: nat)
    requires Base(a) && CloneOk(a, s, d)
    ensures var b := DoClone(a, s, d); OnePage(b.pt) && Exclusive(b.pt)
  {
    var b := DoClone(a, s, d);
    forall x: Slot, y: Slot | x in b.pt && y in b.pt && b.pt[x].Entry? && b.pt[y].Entry?
        && b.pt[x].frame == b.pt[y].frame
      ensures x.1 == y.1 && (b.pt[x].writable ==> x == y)
    {
      CloneAt(a, s, d, x);
      CloneAt(a, s, d, y);
      var p, q := Origin(a, s, x), Origin(a, s, y);
      assert a.pt[p].frame == a.pt[q].frame;
    }
  }

  lemma CowCovered(rs: seq<Region>, v: nat)
    ensures Covered(CowRegions(rs), v) <==> Covered(rs, v)
  {
    var cs := CowRegions(rs);
    if Covered(rs, v) {
      var i: nat :| i < |rs| && rs[i].Covers(v);
      CoveredBy(cs, i, v);
    }
    if Covered(cs, v) {
      var i: nat :| i < |cs| && cs[i].Covers(v);
      CoveredBy(rs, i, v);
    }
  }

  lemma {:induction false} CowTotal(rs: seq<Region>)
    ensures TotalPages(CowRegions(rs)) == TotalPages(rs)
  {
    if rs != [] {
      CowTotal(rs[..|rs| - 1]);
      assert CowRegions(rs)[..|rs| - 1] == CowRegions(rs[..|rs| - 1]);
    }
  }

  lemma CowSpaceOk(sp: Space)
    requires SpaceOk(sp)
    ensures SpaceOk(sp.(regions := CowRegions(sp.regions)))
  {
    CowTotal(sp.regions);
  }

  lemma ClonePage(a: State, s: nat, d: nat, t: nat, v: nat)
    requires Base(a) && CloneOk(a, s, d) && (t == s || t == d)
    ensures var b := DoClone(a, s, d);
            && ((t, v) in b.pt <==> (s, v) in a.pt)
            && ((t, v) in b.pt ==> b.pt[(t, v)] == ReadOnly(a.pt[(s, v)]))
  {
    CloneAt(a, s, d, (t, v));
  }

  /** Source and clone cover the same pages. */
  lemma CloneTiled(a: State, s: nat, d: nat, t: nat)
    requires Base(a) && CloneOk(a, s, d) && (t == s || t == d)
    ensures var b := DoClone(a, s, d); TiledSpace(b.spaces[t], b.pt, t)
  {
    CowSpaceOk(a.spaces[s]);
    assert TiledSpace(a.spaces[s], a.pt, s);
    var b := DoClone(a, s, d);
    assert b.spaces[t] == a.spaces[s].(regions := CowRegions(a.spaces[s].regions));
    forall v: nat
      ensures (t, v) in b.pt <==> Covered(b.spaces[t].regions, v)
    {
      CloneTiledAt(a, s, d, t, v);
    }
  }

  lemma CloneTiledAt(a: State, s: nat, d: nat, t: nat, v: nat)
    requires Base(a) && CloneOk(a, s, d) && (t == s || t == d)
    ensures (t, v) in DoClone(a, s, d).pt <==> Covered(CowRegions(a.spaces[s].regions), v)
  {
    assert TiledSpace(a.spaces[s], a.pt, s);
    ClonePage(a, s, d, t, v);
    CowCovered(a.spaces[s].regions, v);
  }

  lemma ReadOnlyBits(rs: seq<Region>, pt: Mapping, s: nat, qt: Mapping, t: nat)
    requires BitsSpace(rs, pt, s)
    requires forall v: nat :: (t, v) in qt ==> (s, v) in pt && qt[(t, v)] == ReadOnly(pt[(s, v)])
    ensures BitsSpace(CowRegions(rs), qt, t)
  {
    var cs := CowRegions(rs);
    forall i: nat, v: nat | i < |cs| && cs[i].Covers(v) && (t, v) in qt
      ensures BitsMatch(qt[(t, v)], cs[i].flags)
    {
      assert rs[i].Covers(v);
      assert BitsMatch(pt[(s, v)], rs[i].flags);
    }
  }

  /** Both are read-only, under copy-on-write regions. */
  lemma CloneBits(a: State, s: nat, d: nat, t: nat)
    requires Base(a) && CloneOk(a, s, d) && (t == s || t == d)
    ensures BitsSpace(CowRegions(a.spaces[s].regions), DoClone(a, s, d).pt, t)
  {
    var qt := DoClone(a, s, d).pt;
    forall v: nat
      ensures (t, v) in qt ==> (s, v) in a.pt && qt[(t, v)] == ReadOnly(a.pt[(s, v)])
    {
      ClonePage(a, s, d, t, v);
    }
    ReadOnlyBits(a.spaces[s].regions, a.pt, s, qt, t);
  }

  lemma CloneSpaces(a: State, s: nat, d: nat)
    requires Base(a) && CloneOk(a, s, d)
    ensures Tiled(DoClone(a, s, d)) && Bits(DoClone(a, s, d))
  {
    var b := DoClone(a, s, d);
    forall t | t in b.spaces
      ensures TiledSpace(b.spaces[t], b.pt, t) && BitsSpace(b.spaces[t].regions, b.pt, t)
    {
      if t == s || t == d {
        CloneTiled(a, s, d, t);
        CloneBits(a, s, d, t);
      } else {
        forall v: nat {
          CloneAt(a, s, d, (t, v));
        }
        SpaceUntouched(a.spaces[t], a.pt, b.pt, t);
      }
    }
  }

  lemma CloneKeepsBase(a: State, s: nat, d: nat)
    requires Base(a) && CloneOk(a, s, d)
    ensures Base(DoClone(a, s, d))
  {
    CloneClosed(a, s, d);
    CloneSharing(a, s, d);
    CloneSpaces(a, s, d);
  }

  lemma SharedCount(rc: nat, n: nat, hit: bool)
    requires CountOk(rc, n) && n > 0
    ensures CountOk(if hit then (rc + 1) % U32 else rc, n + if hit then 1 else 0) <==> (hit ==> 1 <= rc < U32 - 1)
  {
  }

  lemma CloneCount(a: State, s: nat, d: nat, f: nat)
    requires Closed(a) && OnePage(a.pt) && CloneOk(a, s, d) && f in a.rc && CountOk(a.rc[f], |Mappers(a.pt, f)|)
    ensures var b := DoClone(a, s, d);
            CountOk(b.rc[f], |Mappers(b.pt, f)|) <==> (f in FramesOf(a.pt, s) ==> 1 <= a.rc[f] < U32 - 1)
  {
    hide Share, FramesOf, CowSpace, OnePage, Mappers;
    MappersShare(a.pt, s, d, f);
    assert Mappers(a.pt, f) != {};
    SharedCount(a.rc[f], |Mappers(a.pt, f)|, f in FramesOf(a.pt, s));
  }

  lemma CloneGuarded(a: State, s: nat, d: nat)
    requires Closed(a) && OnePage(a.pt) && Exact(a) && CloneOk(a, s, d) && CloneGuard(a, s)
    ensures Exact(DoClone(a, s, d))
  {
    var b := DoClone(a, s, d);
    forall f | f in b.rc
      ensures CountOk(b.rc[f], |Mappers(b.pt, f)|)
    {
      CloneCount(a, s, d, f);
    }
  }

  lemma CloneUnguarded(a: State, s: nat, d: nat, f: nat)
    requires Closed(a) && OnePage(a.pt) && Exact(a) && CloneOk(a, s, d)
    requires f in FramesOf(a.pt, s) && f in a.rc && !(1 <= a.rc[f] < U32 - 1)
    ensures !Exact(DoClone(a, s, d))
  {
    CloneCount(a, s, d, f);
    assert f in DoClone(a, s, d).rc;
  }

  /** Counts stay exact over a clone if and only if the guard holds: a frame taken over in place
      (count 0) is undercounted as soon as it is shared again. */
  lemma CloneExactIff(a: State, s: nat, d: nat)
    requires Closed(a) && OnePage(a.pt) && Exact(a) && CloneOk(a, s, d)
    ensures Exact(DoClone(a, s, d)) <==> CloneGuard(a, s)
  {
    if CloneGuard(a, s) {
      CloneGuarded(a, s, d);
    } else {
      var f :| f in FramesOf(a.pt, s) && f in a.rc && !(1 <= a.rc[f] < U32 - 1);
      CloneUnguarded(a, s, d, f);
    }
  }

  // ---------- break ----------

  lemma SetFlagsCovered(rs: seq<Region>, i: nat, flags: Flags, v: nat)
    requires i < |rs|
    ensures Covered(SetFlags(rs, i, flags), v) <==> Covered(rs, v)
  {
    var ns := SetFlags(rs, i, flags);
    if Covered(rs, v) {
      var j: nat :| j < |rs| && rs[j].Covers(v);
      CoveredBy(ns, j, v);
    }
    if Covered(ns, v) {
      var j: nat :| j < |ns| && ns[j].Covers(v);
      CoveredBy(rs, j, v);
    }
  }

  lemma {:induction false} SetFlagsTotal(rs: seq<Region>, i: nat, flags: Flags)
    requires i < |rs|
    ensures TotalPages(SetFlags(rs, i, flags)) == TotalPages(rs)
  {
    var n := |rs| - 1;
    if i == n {
      assert SetFlags(rs, i, flags)[..n] == rs[..n];
    } else {
      SetFlagsTotal(rs[..n], i, flags);
      assert SetFlags(rs, i, flags)[..n] == SetFlags(rs[..n], i, flags);
    }
  }

  lemma SetFlagsOk(sp: Space, i: nat, flags: Flags)
    requires SpaceOk(sp) && i < |sp.regions| && Used in flags && Mmio !in flags
    ensures SpaceOk(sp.(regions := SetFlags(sp.regions, i, flags)))
  {
    SetFlagsTotal(sp.regions, i, flags);
  }

  /** What a break changes: one entry, which becomes writable, one count or two, and the flags of one region. */
  lemma BreakShape(a: State, s: nat, v: nat, spare: nat)
    requires BreakOk(a, s, v, spare)
    ensures var b := DoBreak(a, s, v, spare);
            var i := IndexOf(a.spaces[s].regions, v);
            var flags := BrokenFlags(a.spaces[s].regions[i].flags);
            var f := a.pt[(s, v)].frame;
            var e := PteFor(if a.rc[f] <= 1 then f else spare, flags);
            && b.spaces == a.spaces[s := a.spaces[s].(regions := SetFlags(a.spaces[s].regions, i, flags))]
            && b.pt == a.pt[(s, v) := e] && e.writable
            && (e.frame == f ==> b.rc == a.rc[f := 0] && b.pages == a.pages)
            && (e.frame != f ==> b.rc == a.rc[f := a.rc[f] - 1][spare := 1] && b.pages == a.pages[spare := a.pages[f]])
  {
  }

  /** A mapped frame whose count is 0 or 1 has one mapping. */
  lemma LoneMapper(rc: map<nat, nat>, pt: Mapping, x: Slot)
    requires x in pt && pt[x].Entry? && pt[x].frame in rc && CountOk(rc[pt[x].frame], |Mappers(pt, pt[x].frame)|)
    requires rc[pt[x].frame] <= 1
    ensures Mappers(pt, pt[x].frame) == {x}
  {
    var m := Mappers(pt, pt[x].frame);
    assert x in m;
    assert |m - {x}| == 0;
  }

  /** Moving a lone mapping onto itself, or any mapping to an unmapped frame, keeps sharing well formed. */
  lemma MoveSharing(pt: Mapping, x: Slot, e: Entry)
    requires OnePage(pt) && Exclusive(pt) && x in pt && pt[x].Entry? && e.Entry?
    requires Mappers(pt, e.frame) == if e.frame == pt[x].frame then {x} else {}
    ensures OnePage(pt[x := e]) && Exclusive(pt[x := e])
  {
    var qt, f := pt[x := e], e.frame;
    forall y: Slot | y in qt && y != x && qt[y].Entry?
      ensures qt[y].frame != f
    {
      assert pt[y].frame == f ==> y in Mappers(pt, f);
    }
  }

  lemma MoveCount(rc: map<nat, nat>, pt: Mapping, x: Slot, e: Entry, g: nat)
    requires x in pt && pt[x].Entry? && e.Entry? && pt[x].frame in rc && e.frame !in rc && Mappers(pt, e.frame) == {}
    requires rc[pt[x].frame] > 1
    requires g in rc && CountOk(rc[g], |Mappers(pt, g)|) && Mappers(pt, g) != {}
    ensures Mappers(pt[x := e], g) != {}
    ensures CountOk(if g == pt[x].frame then rc[g] - 1 else rc[g], |Mappers(pt[x := e], g)|)
  {
    MappersMove(pt, x, e, g);
    if g == pt[x].frame {
      assert x in Mappers(pt, g);
      assert |Mappers(pt, g) - {x}| == |Mappers(pt, g)| - 1;
    }
  }

  lemma NoMappers(a: State, f: nat)
    requires Closed(a) && f !in a.rc
    ensures Mappers(a.pt, f) == {}
  {
  }

  lemma BreakMappers(a: State, s: nat, v: nat, spare: nat)
    requires Closed(a) && Exact(a) && BreakOk(a, s, v, spare)
    ensures Mappers(a.pt, BreakFrame(a, s, v, spare)) == if a.rc[a.pt[(s, v)].frame] <= 1 then {(s, v)} else {}
  {
    if a.rc[a.pt[(s, v)].frame] <= 1 {
      LoneMapper(a.rc, a.pt, (s, v));
    } else {
      NoMappers(a, spare);
    }
  }

  lemma BreakSharing(a: State, s: nat, v: nat, spare: nat)
    requires Closed(a) && Exact(a) && OnePage(a.pt) && Exclusive(a.pt) && BreakOk(a, s, v, spare)
    ensures var b := DoBreak(a, s, v, spare); OnePage(b.pt) && Exclusive(b.pt)
  {
    BreakShape(a, s, v, spare);
    BreakMappers(a, s, v, spare);
    MoveSharing(a.pt, (s, v), DoBreak(a, s, v, spare).pt[(s, v)]);
  }

  lemma BreakCount(a: State, s: nat, v: nat, spare: nat, g: nat)
    requires Closed(a) && Exact(a) && BreakOk(a, s, v, spare)
    requires g in DoBreak(a, s, v, spare).rc
    ensures var b := DoBreak(a, s, v, spare); Mappers(b.pt, g) != {} && CountOk(b.rc[g], |Mappers(b.pt, g)|)
  {
    hide DoBreak;
    BreakShape(a, s, v, spare);
    BreakMappers(a, s, v, spare);
    var x := (s, v);
    var f := a.pt[x].frame;
    var b := DoBreak(a, s, v, spare);
    MappersMove(a.pt, x, b.pt[x], g);
    if a.rc[f] > 1 && g != spare {
      MoveCount(a.rc, a.pt, x, b.pt[x], g);
    }
  }

  lemma BreakSpace(a: State, s: nat, v: nat, spare: nat)
    requires Base(a) && BreakOk(a, s, v, spare)
    ensures var b := DoBreak(a, s, v, spare); TiledSpace(b.spaces[s], b.pt, s)
  {
    hide DoBreak, SetFlags, Exclusive, OnePage, Linked, TotalPages, BitsSpace;
    BreakShape(a, s, v, spare);
    var b := DoBreak(a, s, v, spare);
    var rs := a.spaces[s].regions;
    var i := IndexOf(rs, v);
    assert TiledSpace(a.spaces[s], a.pt, s);
    SetFlagsOk(a.spaces[s], i, BrokenFlags(rs[i].flags));
    forall w: nat
      ensures (s, w) in b.pt <==> Covered(b.spaces[s].regions, w)
    {
      SetFlagsCovered(rs, i, BrokenFlags(rs[i].flags), w);
    }
  }

  /** The broken region's other pages stay read-only; the broken page is writable under a writable region. */
  lemma SetFlagsBits(rs: seq<Region>, pt: Mapping, s: nat, i: nat, v: nat, e: Entry)
    requires Sorted(rs) && BitsSpace(rs, pt, s) && i < |rs| && rs[i].Covers(v)
    requires Cow in rs[i].flags && BitsMatch(e, BrokenFlags(rs[i].flags))
    ensures BitsSpace(SetFlags(rs, i, BrokenFlags(rs[i].flags)), pt[(s, v) := e], s)
  {
    var ns := SetFlags(rs, i, BrokenFlags(rs[i].flags));
    forall j: nat, w: nat | j < |ns| && ns[j].Covers(w) && (s, w) in pt[(s, v) := e]
      ensures BitsMatch(pt[(s, v) := e][(s, w)], ns[j].flags)
    {
      if w == v {
        SameRegion(rs, i, j, v);
      } else {
        assert rs[j].Covers(w);
        assert BitsMatch(pt[(s, w)], rs[j].flags);
      }
    }
  }

  lemma BreakSpaceBits(a: State, s: nat, v: nat, spare: nat)
    requires Base(a) && BreakOk(a, s, v, spare)
    ensures var b := DoBreak(a, s, v, spare); BitsSpace(b.spaces[s].regions, b.pt, s)
  {
    hide DoBreak, Exclusive, OnePage, Linked;
    BreakShape(a, s, v, spare);
    var b := DoBreak(a, s, v, spare);
    var rs := a.spaces[s].regions;
    assert TiledSpace(a.spaces[s], a.pt, s) && BitsSpace(rs, a.pt, s);
    var flags := rs[IndexOf(rs, v)].flags;
    assert BitsMatch(a.pt[(s, v)], flags);
    SetFlagsBits(rs, a.pt, s, IndexOf(rs, v), v, b.pt[(s, v)]);
  }

  lemma OneSlot(sps: map<nat, Space>, pt: Mapping, s: nat, v: nat, sp: Space, e: Entry)
    requires TiledAll(sps, pt) && BitsAll(sps, pt)
    requires TiledSpace(sp, pt[(s, v) := e], s) && BitsSpace(sp.regions, pt[(s, v) := e], s)
    ensures TiledAll(sps[s := sp], pt[(s, v) := e]) && BitsAll(sps[s := sp], pt[(s, v) := e])
  {
    OthersUntouched(sps, sps[s := sp], pt, pt[(s, v) := e], s);
  }

  lemma BreakSpaces(a: State, s: nat, v: nat, spare: nat)
    requires Base(a) && BreakOk(a, s, v, spare)
    ensures Tiled(DoBreak(a, s, v, spare)) && Bits(DoBreak(a, s, v, spare))
  {
    BreakShape(a, s, v, spare);
    BreakSpace(a, s, v, spare);
    BreakSpaceBits(a, s, v, spare);
    var b := DoBreak(a, s, v, spare);
    OneSlot(a.spaces, a.pt, s, v, b.spaces[s], b.pt[(s, v)]);
  }

  /** Changing one space and its own entries leaves every other space tiled. */
  lemma OthersUntouched(sps: map<nat, Space>, tps: map<nat, Space>, pt: Mapping, qt: Mapping, s: nat)
    requires TiledAll(sps, pt) && BitsAll(sps, pt)
    requires forall t :: t in tps && t != s ==> t in sps && tps[t] == sps[t]
    requires forall x: Slot :: x.0 != s ==> (x in pt <==> x in qt) && (x in pt ==> qt[x] == pt[x])
    requires s in tps ==> TiledSpace(tps[s], qt, s) && BitsSpace(tps[s].regions, qt, s)
    ensures TiledAll(tps, qt) && BitsAll(tps, qt)
  {
    forall t | t in tps && t != s
      ensures TiledSpace(tps[t], qt, t) && BitsSpace(tps[t].regions, qt, t)
    {
      SpaceUntouched(sps[t], pt, qt, t);
    }
  }

  lemma BreakClosed(a: State, s: nat, v: nat, spare: nat)
    requires Closed(a) && Exact(a) && BreakOk(a, s, v, spare)
    ensures Closed(DoBreak(a, s, v, spare)) && Exact(DoBreak(a, s, v, spare))
  {
    BreakShape(a, s, v, spare);
    var b := DoBreak(a, s, v, spare);
    forall g | g in b.rc
      ensures Mappers(b.pt, g) != {} && CountOk(b.rc[g], |Mappers(b.pt, g)|)
    {
      BreakCount(a, s, v, spare, g);
    }
  }

  lemma BreakKeeps(a: State, s: nat, v: nat, spare: nat)
    requires Inv(a) && BreakOk(a, s, v, spare)
    ensures Inv(DoBreak(a, s, v, spare))
  {
    BreakClosed(a, s, v, spare);
    BreakSharing(a, s, v, spare);
    BreakSpaces(a, s, v, spare);
  }

  // ---------- store ----------

  lemma StoreKeeps(a: State, s: nat, v: nat, off: nat, byte: Byte)
    requires Inv(a) && Storable(a, s, v) && off < PAGE_SIZE
    ensures Inv(DoStore(a, s, v, off, byte))
  {
  }

  lemma SameSpaces(a: State, b: State)
    requires Tiled(a) && Bits(a) && b.spaces == a.spaces && b.pt == a.pt
    ensures Tiled(b) && Bits(b)
  {
  }

  lemma PatchKeeps(a: State, s: nat, v: nat, p: Page)
    requires Inv(a) && (s, v) in a.pt && a.pt[(s, v)].Entry? && a.pt[(s, v)].frame in a.pages
    ensures Inv(DoPatch(a, s, v, p))
  {
    hide Linked, OnePage, Exclusive, Tiled, Bits;
    assert a.pages[a.pt[(s, v)].frame := p].Keys == a.pages.Keys;
    SameSpaces(a, DoPatch(a, s, v, p));
  }

  /** After a break the page can be stored to. */
  lemma BreakThenStore(a: State, s: nat, v: nat, spare: nat)
    requires Base(a) && BreakOk(a, s, v, spare)
    ensures Storable(DoBreak(a, s, v, spare), s, v)
  {
    BreakShape(a, s, v, spare);
  }

  // ---------- free ----------

  lemma UnmapAt(pt: Mapping, s: nat, r: Region, x: Slot)
    ensures x in Unmap(pt, s, r) <==> x in pt && !(x.0 == s && r.Covers(x.1))
    ensures x in Unmap(pt, s, r) ==> Unmap(pt, s, r)[x] == pt[x]
  {
  }

  lemma DropCount(a: State, s: nat, r: Region, f: nat)
    requires Closed(a) && OnePage(a.pt) && Exact(a) && f in a.rc
    ensures var b := DropRange(a, s, r);
            && (f in b.rc <==> Mappers(b.pt, f) != {})
            && (f in b.rc ==> CountOk(b.rc[f], |Mappers(b.pt, f)|))
  {
    MappersUnmap(a.pt, s, r, f);
    assert CountOk(a.rc[f], |Mappers(a.pt, f)|);
    assert Mappers(a.pt, f) != {};
    assert |Mappers(Unmap(a.pt, s, r), f)| == 0 <==> Mappers(Unmap(a.pt, s, r), f) == {};
  }

  /** Unmapping keeps counts exact and gives back exactly the frames that lost their last mapping. */
  lemma DropClosed(a: State, s: nat, r: Region)
    requires Closed(a) && OnePage(a.pt) && Exact(a)
    ensures Closed(DropRange(a, s, r)) && Exact(DropRange(a, s, r)) && OnePage(DropRange(a, s, r).pt)
  {
    var b := DropRange(a, s, r);
    forall f | f in b.rc
      ensures Mappers(b.pt, f) != {} && CountOk(b.rc[f], |Mappers(b.pt, f)|)
    {
      DropCount(a, s, r, f);
    }
    forall x | x in b.pt
      ensures x.0 in b.spaces && b.pt[x].Entry? && b.pt[x].frame in b.rc
    {
      var f := a.pt[x].frame;
      DropCount(a, s, r, f);
      assert x in Mappers(b.pt, f);
    }
  }

  lemma FreeClosed(a: State, s: nat, k: nat)
    requires Closed(a) && OnePage(a.pt) && Exact(a) && s in a.spaces && k < |a.spaces[s].regions|
    ensures Closed(DoFree(a, s, k)) && Exact(DoFree(a, s, k))
  {
    DropClosed(a, s, a.spaces[s].regions[k]);
  }

  /** Dropping a range page by page. */
  lemma DropNext(a: State, s: nat, first: nat, j: nat)
    requires OnePage(a.pt) && forall x :: x in a.pt ==> a.pt[x].Entry?
    ensures DropRange(DropRange(a, s, Region(first, j, {})), s, Region(first + j, 1, {}))
            == DropRange(a, s, Region(first, j + 1, {}))
  {
    var r, p, q := Region(first, j, {}), Region(first + j, 1, {}), Region(first, j + 1, {});
    var pt := Unmap(a.pt, s, r);
    assert Unmap(pt, s, p) == Unmap(a.pt, s, q);
    DropFrames(a.pt, s, first, j);
    var h, g := FramesIn(a.pt, s, r), FramesIn(pt, s, p);
    hide FramesIn, Unmap, DropCounts, Gone;
    DropTwice(a.rc, a.pages, h, g);
  }

  /** Counting down two disjoint sets of frames in turn is counting down their union. */
  lemma DropTwice(rc: map<nat, nat>, pages: map<nat, Page>, h: set<nat>, g: set<nat>)
    requires h !! g
    ensures DropCounts(DropCounts(rc, h), g) == DropCounts(rc, h + g)
    ensures Gone(rc, h + g) == Gone(rc, h) + Gone(DropCounts(rc, h), g)
    ensures pages - Gone(rc, h) - Gone(DropCounts(rc, h), g) == pages - Gone(rc, h + g)
  {
  }

  lemma DropFrames(pt: Mapping, s: nat, first: nat, j: nat)
    requires OnePage(pt) && forall x :: x in pt ==> pt[x].Entry?
    ensures var h, g := FramesIn(pt, s, Region(first, j, {})),
            FramesIn(Unmap(pt, s, Region(first, j, {})), s, Region(first + j, 1, {}));
            h !! g && h + g == FramesIn(pt, s, Region(first, j + 1, {}))
  {
    var r, p, q := Region(first, j, {}), Region(first + j, 1, {}), Region(first, j + 1, {});
    var h, g, u := FramesIn(pt, s, r), FramesIn(Unmap(pt, s, r), s, p), FramesIn(pt, s, q);
    forall f
      ensures f in h + g <==> f in u
    {
      if f in u {
        var x :| x in pt && x.0 == s && q.Covers(x.1) && pt[x].frame == f;
        if x.1 == first + j {
          assert x in Unmap(pt, s, r) && p.Covers(x.1);
        } else {
          assert r.Covers(x.1);
        }
      }
      if f in g {
        var x :| x in Unmap(pt, s, r) && x.0 == s && p.Covers(x.1) && Unmap(pt, s, r)[x].frame == f;
        assert q.Covers(x.1);
      }
      if f in h {
        var x :| x in pt && x.0 == s && r.Covers(x.1) && pt[x].frame == f;
        assert q.Covers(x.1);
      }
    }
  }

  lemma FreeSpace(a: State, s: nat, k: nat)
    requires Base(a) && s in a.spaces && k < |a.spaces[s].regions|
    ensures var b := DoFree(a, s, k); TiledSpace(b.spaces[s], b.pt, s)
  {
    var b := DoFree(a, s, k);
    var rs := a.spaces[s].regions;
    assert TiledSpace(a.spaces[s], a.pt, s);
    RemoveSorted(rs, k);
    RemoveTotal(rs, k);
    forall v: nat
      ensures (s, v) in b.pt <==> Covered(RemoveAt(rs, k), v)
    {
      RemoveCovered(rs, k, v);
    }
  }

  lemma FreeSpaceBits(rs: seq<Region>, pt: Mapping, s: nat, k: nat)
    requires BitsSpace(rs, pt, s) && k < |rs|
    ensures BitsSpace(RemoveAt(rs, k), Unmap(pt, s, rs[k]), s)
  {
    var qt := Unmap(pt, s, rs[k]);
    forall i: nat, v: nat | i < |rs| - 1 && RemoveAt(rs, k)[i].Covers(v) && (s, v) in qt
      ensures BitsMatch(qt[(s, v)], RemoveAt(rs, k)[i].flags)
    {
      RemoveIndex(rs, k, i);
    }
  }

  lemma FreeSpaces(a: State, s: nat, k: nat)
    requires Base(a) && s in a.spaces && k < |a.spaces[s].regions|
    ensures Tiled(DoFree(a, s, k)) && Bits(DoFree(a, s, k))
  {
    FreeSpace(a, s, k);
    FreeSpaceBits(a.spaces[s].regions, a.pt, s, k);
    var b := DoFree(a, s, k);
    OthersUntouched(a.spaces, b.spaces, a.pt, b.pt, s);
  }

  lemma FreeKeeps(a: State, s: nat, k: nat)
    requires Inv(a) && s in a.spaces && k < |a.spaces[s].regions|
    ensures Inv(DoFree(a, s, k))
  {
    FreeClosed(a, s, k);
    FreeSpaces(a, s, k);
  }

  // ---------- retire ----------

  lemma NoPages(sp: Space, pt: Mapping, s: nat)
    requires TiledSpace(sp, pt, s) && sp.regions == []
    ensures forall x :: x in pt ==> x.0 != s
  {
    forall x: Slot | x in pt
      ensures x.0 != s
    {
      assert x == (x.0, x.1);
    }
  }

  lemma RetireKeeps(a: State, s: nat)
    requires Inv(a) && s in a.spaces && a.spaces[s].regions == []
    ensures Inv(DoRetire(a, s))
  {
    NoPages(a.spaces[s], a.pt, s);
    RetireLinked(a, s);
    OthersUntouched(a.spaces, a.spaces - {s}, a.pt, a.pt, s);
  }

  lemma RetireLinked(a: State, s: nat)
    requires Closed(a)
    requires forall x :: x in a.pt ==> x.0 != s
    ensures Closed(DoRetire(a, s))
  {
  }
}
