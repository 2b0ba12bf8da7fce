/** Where the promise ends: what an unguarded clone does, and what one break does to its region. */
module CowLimits {
  import opened Layout
  import opened CopyOnWrite
  import opened CowInvariant
  import opened EagerCopy

  lemma AliasedFrom(a: State, b: State, s: nat, d: nat, v: nat)
    requires s != d && (s, v) in a.pt && a.pt[(s, v)].Entry?
    requires Breakable(b, d, v) && b.pt[(d, v)] == ReadOnly(a.pt[(s, v)])
    requires (s, v) in b.pt && b.pt[(s, v)] == ReadOnly(a.pt[(s, v)])
    requires a.pt[(s, v)].frame in b.rc && b.rc[a.pt[(s, v)].frame] <= 1
    ensures Aliased(b, s, d, v)
  {
  }

  /** Two spaces map one frame at `v`, read-only in `d`, and its count says that nobody shares it. */
  predicate Aliased(b: State, s: nat, d: nat, v: nat) {
    && s != d && Breakable(b, d, v) && !Storable(b, d, v)
    && (s, v) in b.pt && b.pt[(s, v)].Entry? && b.pt[(s, v)].frame == b.pt[(d, v)].frame
    && b.rc[b.pt[(d, v)].frame] <= 1
  }

  /** Then the next write by `d` shows up in `s`; with eager copying it would not. */
  lemma AliasedWrite(b: State, s: nat, d: nat, v: nat, off: nat, byte: Byte, spare: nat)
    requires Aliased(b, s, d, v) && spare !in b.rc && off < PAGE_SIZE
    ensures (s, v) in Contents(DoWrite(b, d, v, off, byte, spare)).mem
    ensures Contents(DoWrite(b, d, v, off, byte, spare)).mem[(s, v)] == Contents(b).mem[(s, v)][off := byte]
    ensures EagerApply(Contents(b), Op.Write(d, v, off, byte, spare)).mem[(s, v)] == Contents(b).mem[(s, v)]
  {
    BreakShape(b, d, v, spare);
  }

  /** A clone leaves some page aliased exactly if it is unguarded. */
  lemma GuardIff(a: State, s: nat, d: nat)
    requires Inv(a) && CloneOk(a, s, d)
    ensures CloneGuard(a, s) <==> forall v: nat :: !Aliased(DoClone(a, s, d), s, d, v)
  {
    hide Inv, Base, Exact, Aliased, DoClone, FramesOf;
    InvBase(a);
    if CloneGuard(a, s) {
      forall v: nat
        ensures !Aliased(DoClone(a, s, d), s, d, v)
      {
        GuardedShared(a, s, d, v);
      }
    } else {
      var f :| f in FramesOf(a.pt, s) && f in a.rc && !(1 <= a.rc[f] < U32 - 1);
      var v := SourceOf(a.pt, s, f);
      UnguardedClone(a, s, d, v);
    }
  }

  lemma InvBase(a: State)
    requires Inv(a)
    ensures Base(a) && Closed(a) && forall f :: f in a.rc ==> a.rc[f] < U32
  {
    forall f | f in a.rc
      ensures a.rc[f] < U32
    {
      assert CountOk(a.rc[f], |Mappers(a.pt, f)|);
    }
  }

  lemma GuardedShared(a: State, s: nat, d: nat, v: nat)
    requires Base(a) && CloneOk(a, s, d) && CloneGuard(a, s)
    ensures !Aliased(DoClone(a, s, d), s, d, v)
  {
    hide Base, DoClone, FramesOf, CloneGuard;
    var b := DoClone(a, s, d);
    if (s, v) in b.pt {
      SourcePage(a, s, d, v);
      CloneBreakable(a, s, d, v);
      MappedFrame(a, s, v);
      GuardedCount(a, s, a.pt[(s, v)].frame);
      Recorded(a, s, d, a.pt[(s, v)].frame);
    }
  }

  lemma GuardedCount(a: State, s: nat, f: nat)
    requires CloneGuard(a, s) && f in FramesOf(a.pt, s) && f in a.rc
    ensures 1 <= a.rc[f] < U32 - 1
  {
  }

  lemma MappedFrame(a: State, s: nat, v: nat)
    requires Base(a) && (s, v) in a.pt
    ensures a.pt[(s, v)].Entry? && a.pt[(s, v)].frame in FramesOf(a.pt, s) && a.pt[(s, v)].frame in a.rc
  {
  }

  lemma SourceOf(pt: Mapping, s: nat, f: nat) returns (v: nat)
    requires f in FramesOf(pt, s)
    ensures (s, v) in pt && pt[(s, v)].Entry? && pt[(s, v)].frame == f
  {
    var x :| x in pt && x.0 == s && pt[x].Entry? && pt[x].frame == f;
    v := x.1;
  }

  lemma SourcePage(a: State, s: nat, d: nat, v: nat)
    requires CloneOk(a, s, d) && Base(a) && (s, v) in DoClone(a, s, d).pt
    ensures (s, v) in a.pt
  {
    ClonePage(a, s, d, s, v);
  }

  /** Sharing a page whose count is 0, after a takeover, or about to wrap records one mapping where there are more. */
  lemma UnguardedClone(a: State, s: nat, d: nat, v: nat)
    requires Base(a) && CloneOk(a, s, d) && (s, v) in a.pt && a.rc[a.pt[(s, v)].frame] < U32
    requires !(1 <= a.rc[a.pt[(s, v)].frame] < U32 - 1)
    ensures !CloneGuard(a, s)
    ensures Aliased(DoClone(a, s, d), s, d, v)
  {
    hide Base, DoClone;
    MappedFrame(a, s, v);
    CloneBreakable(a, s, d, v);
    Recorded(a, s, d, a.pt[(s, v)].frame);
    AliasedFrom(a, DoClone(a, s, d), s, d, v);
  }

  /** What cloning makes of the count of a source frame. */
  lemma Recorded(a: State, s: nat, d: nat, f: nat)
    requires s in a.spaces && f in FramesOf(a.pt, s) && f in a.rc && a.rc[f] < U32
    ensures var b := DoClone(a, s, d);
            f in b.rc && if 1 <= a.rc[f] < U32 - 1 then b.rc[f] == a.rc[f] + 1 else b.rc[f] <= 1
  {
    hide FramesOf, DoClone;
    RecordedOne(a, s, d, f);
    CountUp(a.rc[f]);
  }

  lemma RecordedOne(a: State, s: nat, d: nat, f: nat)
    requires s in a.spaces && f in FramesOf(a.pt, s) && f in a.rc
    ensures f in DoClone(a, s, d).rc && DoClone(a, s, d).rc[f] == (a.rc[f] + 1) % U32
  {
  }

  lemma CountUp(n: nat)
    requires n < U32
    ensures if 1 <= n < U32 - 1 then (n + 1) % U32 == n + 1 else (n + 1) % U32 <= 1
  {
  }

  /** Every write that can come next does to the contents what it does to the eager copies `e`. */
  ghost predicate WritesAgree(b: State, e: Eager) {
    forall t: nat, v: nat, off: nat, byte: Byte, spare: nat ::
      Writable(b, t, v) && off < PAGE_SIZE && spare !in b.rc ==>
      Contents(DoWrite(b, t, v, off, byte, spare)) == EagerApply(e, Op.Write(t, v, off, byte, spare))
  }

  /** The exact condition on contents: after a clone every next write agrees with eager copying if and only if the
      clone is guarded. */
  lemma CloneAgreesIff(a: State, s: nat, d: nat)
    requires Inv(a) && CloneOk(a, s, d)
    ensures CloneGuard(a, s) <==> WritesAgree(DoClone(a, s, d), EagerApply(Contents(a), Clone(s, d)))
  {
    hide Inv, CloneGuard, Aliased, DoClone, DoWrite, EagerApply, Writable;
    var b, e := DoClone(a, s, d), EagerApply(Contents(a), Clone(s, d));
    InvBase(a);
    SimClone(a, s, d);
    GuardIff(a, s, d);
    if CloneGuard(a, s) {
      GuardedInv(a, s, d);
      forall t: nat, v: nat, off: nat, byte: Byte, spare: nat | Writable(b, t, v) && off < PAGE_SIZE && spare !in b.rc
        ensures Contents(DoWrite(b, t, v, off, byte, spare)) == EagerApply(e, Op.Write(t, v, off, byte, spare))
      {
        SimWrite(b, t, v, off, byte, spare);
      }
    } else {
      var v: nat :| Aliased(b, s, d, v);
      Disagrees(b, s, d, v);
    }
  }

  lemma GuardedInv(a: State, s: nat, d: nat)
    requires Inv(a) && CloneOk(a, s, d) && CloneGuard(a, s)
    ensures Inv(DoClone(a, s, d))
  {
    hide Exact, CloneGuard, Base, DoClone;
    assert Base(a) && Exact(a);
    ClosedOnePage(a);
    CloneKeepsBase(a, s, d);
    CloneExactIff(a, s, d);
  }

  lemma ClosedOnePage(a: State)
    requires Base(a)
    ensures Closed(a) && OnePage(a.pt)
  {
  }

  lemma {:induction false} Fresh(used: set<nat>) returns (n: nat)
    ensures n !in used && forall m :: m in used ==> m < n
    decreases used
  {
    if used == {} {
      n := 0;
    } else {
      var m :| m in used;
      var k := Fresh(used - {m});
      n := if k > m then k else m + 1;
      assert forall x :: x in used ==> x == m || x in used - {m};
    }
  }

  /** On an aliased page a write that changes a byte goes wrong. */
  lemma Disagrees(b: State, s: nat, d: nat, v: nat)
    requires Aliased(b, s, d, v)
    ensures !WritesAgree(b, Contents(b))
  {
    hide DoWrite, Aliased, EagerApply;
    var spare := Fresh(b.rc.Keys);
    var was := PageOf(b, s, d, v);
    var byte: Byte := if was[0] == 0 then 1 else 0;
    AliasedWrite(b, s, d, v, 0, byte, spare);
    var op := Op.Write(d, v, 0, byte, spare);
    assert was[0 := byte][0] != was[0];
    assert Contents(DoWrite(b, d, v, 0, byte, spare)) != EagerApply(Contents(b), op);
  }

  lemma PageOf(b: State, s: nat, d: nat, v: nat) returns (p: Page)
    requires Aliased(b, s, d, v)
    ensures (s, v) in Contents(b).mem && p == Contents(b).mem[(s, v)] && Writable(b, d, v)
  {
    p := Contents(b).mem[(s, v)];
  }

  /** Right after a clone every page of the source and of the copy can be broken. */
  lemma CloneBreakable(a: State, s: nat, d: nat, v: nat)
    requires Base(a) && CloneOk(a, s, d) && (s, v) in a.pt
    ensures var b := DoClone(a, s, d);
            && Breakable(b, s, v) && b.pt[(s, v)] == ReadOnly(a.pt[(s, v)])
            && Breakable(b, d, v) && b.pt[(d, v)] == ReadOnly(a.pt[(s, v)])
  {
    var b := DoClone(a, s, d);
    ClonePage(a, s, d, s, v);
    ClonePage(a, s, d, d, v);
    CloneClosed(a, s, d);
    assert TiledSpace(a.spaces[s], a.pt, s);
    CloneLists(a, s, d);
    BreakableFrom(b, s, v, a.spaces[s].regions);
    BreakableFrom(b, d, v, a.spaces[s].regions);
  }

  lemma CloneLists(a: State, s: nat, d: nat)
    requires s in a.spaces
    ensures var b := DoClone(a, s, d);
            s in b.spaces && d in b.spaces
                && b.spaces[s].regions == b.spaces[d].regions == CowRegions(a.spaces[s].regions)
  {
  }

  lemma BreakableFrom(b: State, t: nat, v: nat, rs: seq<Region>)
    requires Closed(b) && t in b.spaces && b.spaces[t].regions == CowRegions(rs) && Covered(rs, v) && (t, v) in b.pt
    ensures Breakable(b, t, v)
  {
    CowCovered(rs, v);
    var i := IndexOf(CowRegions(rs), v);
    assert CowRegions(rs)[i].flags == CowFlags(rs[i].flags);
  }

  /** Every write that takes a frame over in place makes its space unfit for the next clone. */
  lemma TakeoverUnguards(a: State, s: nat, v: nat, off: nat, byte: Byte, spare: nat)
    requires Inv(a) && BreakOk(a, s, v, spare) && !Storable(a, s, v) && off < PAGE_SIZE && a.rc[a.pt[(s, v)].frame] <= 1
    ensures !CloneGuard(DoWrite(a, s, v, off, byte, spare), s)
  {
    BreakShape(a, s, v, spare);
    var b := DoWrite(a, s, v, off, byte, spare);
    assert (s, v) in b.pt && b.pt[(s, v)].frame in FramesOf(b.pt, s);
  }

  /** A write by one of two sharers leaves the other one alone on the frame, still to be broken. */
  lemma LastSharer(a: State, s: nat, d: nat, v: nat, off: nat, byte: Byte, spare: nat)
    requires Inv(a) && s != d && BreakOk(a, s, v, spare) && Breakable(a, d, v) && !Storable(a, s, v) && off < PAGE_SIZE
    requires a.pt[(d, v)].frame == a.pt[(s, v)].frame && a.rc[a.pt[(d, v)].frame] == 2 && !Storable(a, d, v)
    ensures var b := DoWrite(a, s, v, off, byte, spare);
            Breakable(b, d, v) && !Storable(b, d, v) && b.rc[b.pt[(d, v)].frame] == 1
  {
    hide Inv;
    BreakShape(a, s, v, spare);
  }

  lemma LegalStep(a: State, op: Op, rest: seq<Op>)
    requires Enabled(a, op) && Guarded(a, op) && Legal(Apply(a, op), rest)
    ensures Legal(a, [op] + rest) && Run(a, [op] + rest) == Run(Apply(a, op), rest)
  {
    assert ([op] + rest)[1..] == rest;
  }

  function BlankPage(): Page { seq(PAGE_SIZE, _ => 0) }

  /** One space with one writable page. */
  ghost function OnePageState(): State
  {
    DoAlloc(DoCreate(EMPTY, 1), 1, 1, {RegionFlag.Write}, [10], [BlankPage()])
  }

  lemma OnePageInv()
    ensures AllocOk(DoCreate(EMPTY, 1), 1, 1, {RegionFlag.Write}, [10], [BlankPage()])
    ensures Inv(DoCreate(EMPTY, 1)) && Inv(OnePageState())
  {
    assert Inv(EMPTY);
    CreateKeeps(EMPTY, 1);
    assert AllocOk(DoCreate(EMPTY, 1), 1, 1, {RegionFlag.Write}, [10], [BlankPage()]);
    AllocKeeps(DoCreate(EMPTY, 1), 1, 1, {RegionFlag.Write}, [10], [BlankPage()]);
  }

  lemma OnePageAllocated()
    ensures var b := OnePageState();
            && (1, 1) in b.pt && b.pt[(1, 1)] == PteFor(10, {RegionFlag.Write}) && b.rc == map[10 := 1]
            && b.spaces.Keys == {1} && CloneOk(b, 1, 2) && CloneGuard(b, 1)
  {
    var a := DoCreate(EMPTY, 1);
    MapRangeAt(a.pt, 1, 1, {RegionFlag.Write}, [10], (1, 1));
    assert forall f :: f in [10] <==> f == 10;
    assert OnePageState().rc == map[10 := 1];
  }

  lemma ForkedCount(a: State)
    requires a.rc == map[10 := 1] && a.spaces.Keys == {1} && (1, 1) in a.pt
             && a.pt[(1, 1)] == PteFor(10, {RegionFlag.Write})
    ensures var b := DoClone(a, 1, 2); b.rc == map[10 := 2] && b.spaces.Keys == {1, 2}
  {
    assert 10 in FramesOf(a.pt, 1);
    assert DoClone(a, 1, 2).rc[10] == 2;
  }

  /** That page is shared by a clone. */
  lemma Forked()
    ensures 1 in OnePageState().spaces
    ensures var b := DoClone(OnePageState(), 1, 2);
            && Inv(b) && b.spaces.Keys == {1, 2} && b.rc == map[10 := 2]
            && Breakable(b, 1, 1) && !Storable(b, 1, 1) && Breakable(b, 2, 1) && !Storable(b, 2, 1)
            && b.pt[(1, 1)].frame == b.pt[(2, 1)].frame == 10
  {
    hide Exact, CloneGuard, OnePageState, DoClone, Closed, OnePage, Exclusive, Tiled, Bits, Breakable;
    OnePageInv();
    OnePageAllocated();
    CloneKeepsBase(OnePageState(), 1, 2);
    CloneExactIff(OnePageState(), 1, 2);
    CloneBreakable(OnePageState(), 1, 2, 1);
    ForkedCount(OnePageState());
  }

  /** A few ordinary calls lead to a clone that must not happen: create, map one page, clone, and let each
      side write to it. The second writer takes the frame over, and its next clone is the harmful one. */
  lemma UnguardedReachable() returns (ops: seq<Op>)
    ensures Legal(EMPTY, ops) && CloneOk(Run(EMPTY, ops), 2, 3) && !CloneGuard(Run(EMPTY, ops), 2)
  {
    hide Inv, DoWrite, DoClone, DoAlloc, CloneGuard, Writable, AllocOk, Closed;
    OnePageAllocated();
    var b := DoClone(OnePageState(), 1, 2);
    var d := BothWrote();
    var c := DoWrite(b, 1, 1, 0, 7, 11);
    assert Legal(d, []) && Run(d, []) == d;
    LegalStep(c, Op.Write(2, 1, 0, 8, 12), []);
    assert [Op.Write(2, 1, 0, 8, 12)] + [] == [Op.Write(2, 1, 0, 8, 12)];
    LegalStep(b, Op.Write(1, 1, 0, 7, 11), [Op.Write(2, 1, 0, 8, 12)]);
    ops := [Op.Write(1, 1, 0, 7, 11)] + [Op.Write(2, 1, 0, 8, 12)];
    LegalStep(OnePageState(), Clone(1, 2), ops);
    ops := [Clone(1, 2)] + ops;
    OnePageInv();
    LegalStep(DoCreate(EMPTY, 1), Alloc(1, 1, {RegionFlag.Write}, [10], [BlankPage()]), ops);
    ops := [Alloc(1, 1, {RegionFlag.Write}, [10], [BlankPage()])] + ops;
    LegalStep(EMPTY, Create(1), ops);
    ops := [Create(1)] + ops;
  }

  lemma BothWrote() returns (d: State)
    ensures 1 in OnePageState().spaces
    ensures var b := DoClone(OnePageState(), 1, 2);
            && Writable(b, 1, 1) && 11 !in b.rc
            && var c := DoWrite(b, 1, 1, 0, 7, 11);
            && Writable(c, 2, 1) && 12 !in c.rc
            && d == DoWrite(c, 2, 1, 0, 8, 12) && CloneOk(d, 2, 3) && !CloneGuard(d, 2)
  {
    hide Inv, CloneGuard, OnePageState, DoClone;
    Forked();
    var b := DoClone(OnePageState(), 1, 2);
    LastSharer(b, 1, 2, 1, 0, 7, 11);
    BreakShape(b, 1, 1, 11);
    var c := DoWrite(b, 1, 1, 0, 7, 11);
    SimWrite(b, 1, 1, 0, 7, 11);
    assert c.rc.Keys == {10, 11};
    assert c.spaces.Keys == {1, 2};
    TakeoverUnguards(c, 2, 1, 0, 8, 12);
    BreakShape(c, 2, 1, 12);
    d := DoWrite(c, 2, 1, 0, 8, 12);
  }

  /** One break ends copy-on-write for the whole region: a further write to another page of it that is
      still read-only faults and finds nothing to break, until the region is cloned again. */
  lemma SecondFaultStuck(a: State, s: nat, v: nat, w: nat, spare: nat)
    requires Base(a) && BreakOk(a, s, v, spare) && w != v
    requires a.spaces[s].regions[IndexOf(a.spaces[s].regions, v)].Covers(w)
    ensures !Writable(DoBreak(a, s, v, spare), s, w)
  {
    assert TiledSpace(a.spaces[s], a.pt, s);
    SiblingReadOnly(a, s, IndexOf(a.spaces[s].regions, v), w);
    BreakSiblings(a, s, v, w, spare);
    StuckFrom(a, DoBreak(a, s, v, spare), s, v, w, IndexOf(a.spaces[s].regions, v));
  }

  /** Which pages can be written after a break: the broken one, and those that could be before, except the other pages
      of its region. */
  lemma WritableAfterBreak(a: State, s: nat, v: nat, spare: nat, t: nat, w: nat)
    requires Base(a) && BreakOk(a, s, v, spare)
    ensures Writable(DoBreak(a, s, v, spare), t, w)
            <==> (t == s && w == v)
                 || (Writable(a, t, w) && !(t == s && a.spaces[s].regions[IndexOf(a.spaces[s].regions, v)].Covers(w)))
  {
    var r := a.spaces[s].regions[IndexOf(a.spaces[s].regions, v)];
    if t == s && w == v {
      BreakThenStore(a, s, v, spare);
    } else if t == s && r.Covers(w) {
      SecondFaultStuck(a, s, v, w, spare);
    } else {
      ElsewhereSame(a, s, v, spare, t, w);
    }
  }

  lemma ElsewhereSame(a: State, s: nat, v: nat, spare: nat, t: nat, w: nat)
    requires Base(a) && BreakOk(a, s, v, spare) && !(t == s && w == v)
    requires !(t == s && a.spaces[s].regions[IndexOf(a.spaces[s].regions, v)].Covers(w))
    ensures Writable(DoBreak(a, s, v, spare), t, w) <==> Writable(a, t, w)
  {
    var b := DoBreak(a, s, v, spare);
    var rs, i := a.spaces[s].regions, IndexOf(a.spaces[s].regions, v);
    BreakShape(a, s, v, spare);
    hide DoBreak, Breakable, Storable, Base, SetFlags;
    FramesThere(a, t, w);
    assert (t, w) in b.pt <==> (t, w) in a.pt;
    if t == s {
      SpaceSorted(a, s);
      SameIndex(rs, i, BrokenFlags(rs[i].flags), w);
    }
    WritableAlike(a, b, t, w);
  }

  lemma FramesThere(a: State, t: nat, w: nat)
    requires Base(a)
    ensures (t, w) in a.pt ==>
              t in a.spaces && a.pt[(t, w)].Entry? && a.pt[(t, w)].frame in a.rc && a.pt[(t, w)].frame in a.pages
  {
  }

  lemma SpaceSorted(a: State, s: nat)
    requires Base(a) && s in a.spaces
    ensures Sorted(a.spaces[s].regions)
  {
    assert TiledSpace(a.spaces[s], a.pt, s);
  }

  /** The same entry under a region with the same flags. */
  lemma WritableAlike(a: State, b: State, t: nat, w: nat)
    requires (t in b.spaces <==> t in a.spaces) && ((t, w) in b.pt <==> (t, w) in a.pt)
    requires (t, w) in a.pt ==>
               b.pt[(t, w)] == a.pt[(t, w)] && t in a.spaces && a.pt[(t, w)].Entry? && a.pt[(t, w)].frame in a.rc
               && a.pt[(t, w)].frame in a.pages && a.pt[(t, w)].frame in b.rc && a.pt[(t, w)].frame in b.pages
    requires t in a.spaces ==>
               (Covered(b.spaces[t].regions, w) <==> Covered(a.spaces[t].regions, w))
               && (Covered(a.spaces[t].regions, w) ==>
                     b.spaces[t].regions[IndexOf(b.spaces[t].regions, w)]
                         == a.spaces[t].regions[IndexOf(a.spaces[t].regions, w)])
    ensures Writable(b, t, w) <==> Writable(a, t, w)
  {
  }

  /** Marking one region leaves the others what they are. */
  lemma SameIndex(rs: seq<Region>, i: nat, flags: Flags, w: nat)
    requires i < |rs| && Sorted(rs) && !rs[i].Covers(w)
    ensures Covered(SetFlags(rs, i, flags), w) <==> Covered(rs, w)
    ensures Covered(rs, w) ==> SetFlags(rs, i, flags)[IndexOf(SetFlags(rs, i, flags), w)] == rs[IndexOf(rs, w)]
  {
    SetFlagsCovered(rs, i, flags, w);
    if Covered(rs, w) {
      var j := IndexOf(SetFlags(rs, i, flags), w);
      assert j != i && rs[j].Covers(w);
      SameRegion(rs, j, IndexOf(rs, w), w);
    }
  }

  /** One space with a region of two writable pages. */
  ghost function TwoPageState(): State
  {
    DoAlloc(DoCreate(EMPTY, 1), 1, 1, {RegionFlag.Write}, [10, 11], [BlankPage(), BlankPage()])
  }

  lemma TwoPageInv()
    ensures AllocOk(DoCreate(EMPTY, 1), 1, 1, {RegionFlag.Write}, [10, 11], [BlankPage(), BlankPage()])
    ensures Inv(TwoPageState())
  {
    assert Inv(EMPTY);
    CreateKeeps(EMPTY, 1);
    AllocKeeps(DoCreate(EMPTY, 1), 1, 1, {RegionFlag.Write}, [10, 11], [BlankPage(), BlankPage()]);
  }

  lemma FirstRegion(r: Region)
    ensures Insert([], r) == [r]
  {
  }

  lemma TwoPagesRegion()
    ensures TwoPageState().spaces.Keys == {1}
    ensures TwoPageState().spaces[1].regions == [Region(1, 2, {RegionFlag.Write, Used})]
  {
    var a := DoCreate(EMPTY, 1);
    assert a.spaces[1].regions == [];
    FirstRegion(Region(1, 2, {RegionFlag.Write} + {Used}));
    assert {RegionFlag.Write} + {Used} == {RegionFlag.Write, Used};
  }

  lemma TwoPagesAllocated()
    ensures var b := TwoPageState();
            && (1, 1) in b.pt && (1, 2) in b.pt && b.rc == map[10 := 1, 11 := 1] && b.spaces.Keys == {1}
            && b.spaces[1].regions == [Region(1, 2, {RegionFlag.Write, Used})] && CloneOk(b, 1, 2) && CloneGuard(b, 1)
  {
    TwoPagesRegion();
    hide Insert;
    var a := DoCreate(EMPTY, 1);
    MapRangeAt(a.pt, 1, 1, {RegionFlag.Write}, [10, 11], (1, 1));
    MapRangeAt(a.pt, 1, 1, {RegionFlag.Write}, [10, 11], (1, 2));
    assert forall f :: f in [10, 11] <==> f == 10 || f == 11;
    assert TwoPageState().rc == map[10 := 1, 11 := 1];
  }

  /** That region cloned: both its pages can be written. */
  lemma TwoPagesForked()
    ensures 1 in TwoPageState().spaces
    ensures var b := DoClone(TwoPageState(), 1, 2);
            && Inv(b) && 12 !in b.rc && BreakOk(b, 1, 1, 12) && !Storable(b, 1, 1) && Breakable(b, 1, 2)
            && b.spaces[1].regions[IndexOf(b.spaces[1].regions, 1)].Covers(2)
  {
    hide Exact, CloneGuard, TwoPageState, DoClone, Closed, OnePage, Exclusive, Tiled, Bits;
    TwoPageInv();
    TwoPagesAllocated();
    var a := TwoPageState();
    CloneKeepsBase(a, 1, 2);
    CloneExactIff(a, 1, 2);
    CloneBreakable(a, 1, 2, 1);
    CloneBreakable(a, 1, 2, 2);
    CloneLists(a, 1, 2);
    SameCounts(a, 1, 2);
  }

  lemma SameCounts(a: State, s: nat, d: nat)
    requires s in a.spaces
    ensures DoClone(a, s, d).rc.Keys == a.rc.Keys
  {
  }

  /** A few ordinary calls lead to a page that cannot be written any more: create, map two pages, clone, write one.
      Before that write the other page could be written too. */
  lemma StuckReachable() returns (ops: seq<Op>, last: Op)
    ensures Legal(EMPTY, ops + [last]) && Legal(EMPTY, ops) && last.Write? && last.s == 1 && last.v == 1
    ensures Writable(Run(EMPTY, ops), 1, 2) && !Writable(Run(EMPTY, ops + [last]), 1, 2)
  {
    hide Inv, DoWrite, DoClone, DoAlloc, CloneGuard, AllocOk, Closed, Writable, TwoPageState, DoBreak, Breakable,
        Storable;
    TwoPageInv();
    TwoPagesAllocated();
    TwoPagesForked();
    var a, pages := TwoPageState(), [BlankPage(), BlankPage()];
    var b := DoClone(a, 1, 2);
    StuckStep(b);
    last := Op.Write(1, 1, 0, 7, 12);
    var c := DoWrite(b, 1, 1, 0, 7, 12);
    assert Legal(c, []) && Run(c, []) == c && Legal(b, []) && Run(b, []) == b;
    LegalStep(b, last, []);
    assert [last] + [] == [last];
    ForkOps(b, [], pages);
    ForkOps(b, [last], pages);
    ops := [Create(1), Alloc(1, 1, {RegionFlag.Write}, [10, 11], pages), Clone(1, 2)];
    assert ops + [] == ops;
  }

  lemma StuckStep(b: State)
    requires Inv(b) && BreakOk(b, 1, 1, 12) && !Storable(b, 1, 1) && Breakable(b, 1, 2)
    requires b.spaces[1].regions[IndexOf(b.spaces[1].regions, 1)].Covers(2)
    ensures Writable(b, 1, 1) && Writable(b, 1, 2) && !Writable(DoWrite(b, 1, 1, 0, 7, 12), 1, 2)
  {
    hide DoBreak, Exact, Base;
    assert Base(b);
    BreakReady(b, 12);
    SecondFaultStuck(b, 1, 1, 2, 12);
    assert Storable(DoBreak(b, 1, 1, 12), 1, 1);
  }

  lemma BreakReady(b: State, spare: nat)
    requires Base(b) && BreakOk(b, 1, 1, spare)
    ensures Storable(DoBreak(b, 1, 1, spare), 1, 1)
  {
    BreakThenStore(b, 1, 1, spare);
  }

  /** The three calls before. */
  lemma ForkOps(b: State, rest: seq<Op>, pages: seq<Page>)
    requires pages == [BlankPage(), BlankPage()] && 1 in TwoPageState().spaces && b == DoClone(TwoPageState(), 1, 2)
    requires Legal(b, rest)
    ensures var ops := [Create(1), Alloc(1, 1, {RegionFlag.Write}, [10, 11], pages), Clone(1, 2)];
            Legal(EMPTY, ops + rest) && Run(EMPTY, ops + rest) == Run(b, rest)
  {
    hide Inv, DoWrite, DoClone, CloneGuard, AllocOk, Closed, DoAlloc;
    TwoPageInv();
    TwoPagesAllocated();
    var alloc := Alloc(1, 1, {RegionFlag.Write}, [10, 11], pages);
    LegalStep(TwoPageState(), Clone(1, 2), rest);
    LegalStep(DoCreate(EMPTY, 1), alloc, [Clone(1, 2)] + rest);
    LegalStep(EMPTY, Create(1), [alloc] + ([Clone(1, 2)] + rest));
    assert [Create(1), alloc, Clone(1, 2)] + rest == [Create(1)] + ([alloc] + ([Clone(1, 2)] + rest));
  }

  lemma BreakSiblings(a: State, s: nat, v: nat, w: nat, spare: nat)
    requires Breakable(a, s, v) && Sorted(a.spaces[s].regions) && w != v
    ensures var b := DoBreak(a, s, v, spare);
            var i := IndexOf(a.spaces[s].regions, v);
            && s in b.spaces && Sorted(b.spaces[s].regions) && |b.spaces[s].regions| == |a.spaces[s].regions|
            && (forall u :: b.spaces[s].regions[i].Covers(u) <==> a.spaces[s].regions[i].Covers(u))
            && Cow !in b.spaces[s].regions[i].flags
            && ((s, w) in a.pt ==> (s, w) in b.pt && b.pt[(s, w)] == a.pt[(s, w)])
  {
  }

  lemma StuckFrom(a: State, b: State, s: nat, v: nat, w: nat, i: nat)
    requires (s, w) in a.pt && a.pt[(s, w)].Entry? && !a.pt[(s, w)].writable && w != v
    requires (s, w) in b.pt && b.pt[(s, w)] == a.pt[(s, w)]
    requires s in b.spaces && Sorted(b.spaces[s].regions) && i < |b.spaces[s].regions|
    requires b.spaces[s].regions[i].Covers(w) && Cow !in b.spaces[s].regions[i].flags
    ensures !Writable(b, s, w)
  {
    NotBreakable(b, s, w, i);
  }

  lemma SiblingReadOnly(a: State, s: nat, i: nat, w: nat)
    requires Tiled(a) && Bits(a) && s in a.spaces && i < |a.spaces[s].regions| && a.spaces[s].regions[i].Covers(w)
    requires Cow in a.spaces[s].regions[i].flags
    ensures (s, w) in a.pt && a.pt[(s, w)].Entry? && !a.pt[(s, w)].writable
  {
    assert TiledSpace(a.spaces[s], a.pt, s) && BitsSpace(a.spaces[s].regions, a.pt, s);
    CoveredBy(a.spaces[s].regions, i, w);
  }

  lemma NotBreakable(b: State, s: nat, w: nat, i: nat)
    requires s in b.spaces && Sorted(b.spaces[s].regions) && i < |b.spaces[s].regions|
    requires b.spaces[s].regions[i].Covers(w) && Cow !in b.spaces[s].regions[i].flags
    ensures !Breakable(b, s, w)
  {
    if Covered(b.spaces[s].regions, w) {
      SameRegion(b.spaces[s].regions, i, IndexOf(b.spaces[s].regions, w), w);
    }
  }
}
