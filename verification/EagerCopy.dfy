/** Copy-on-write refines eager copying: along every guarded run each space reads exactly the bytes it
    would hold had every clone copied its pages at once. */
module EagerCopy {
  import opened Layout
  import opened CopyOnWrite
  import opened CowInvariant

  /** The reference: every mapped page of every space owns its bytes. */
  datatype Eager = Eager(spaces: set<nat>, mem: map<Slot, Page>)

  function Contents(a: State): Eager {
    Eager(a.spaces.Keys, MemOf(a.pt, a.pages))
  }

  type Memory = map<Slot, Page>

  function MemOf(pt: Mapping, pages: map<nat, Page>): Memory {
    map x | x in pt && pt[x].Entry? && pt[x].frame in pages :: pages[pt[x].frame]
  }

  function NewPages(s: nat, first: nat, fill: seq<Page>): Memory {
    map v: nat | first <= v < first + |fill| :: (s, v) := fill[v - first]
  }

  function Copies(mem: Memory, s: nat, d: nat): Memory {
    map x | x in mem && x.0 == s :: (d, x.1) := mem[x]
  }

  datatype Op =
    | Create(s: nat)
    | Alloc(s: nat, first: nat, flags: Flags, frames: seq<nat>, fill: seq<Page>)
    | Clone(s: nat, d: nat)
    | Write(s: nat, v: nat, off: nat, byte: Byte, spare: nat)
    | Free(s: nat, first: nat, pages: nat)
    | Retire(s: nat)

  ghost predicate Enabled(a: State, op: Op) {
    match op
    case Create(s) => s !in a.spaces
    case Alloc(s, first, flags, frames, fill) => AllocOk(a, s, first, flags, frames, fill)
    case Clone(s, d) => CloneOk(a, s, d)
    case Write(s, v, off, _, spare) => Writable(a, s, v) && off < PAGE_SIZE && spare !in a.rc
    case Free(s, first, pages) =>
      s in a.spaces && first > 0 && FindBase(a.spaces[s].regions, first).Some?
      && a.spaces[s].regions[FindBase(a.spaces[s].regions, first).value].pages == pages
    case Retire(s) => s in a.spaces && a.spaces[s].regions == []
  }

  /** The only operation with a further condition is cloning. */
  ghost predicate Guarded(a: State, op: Op) {
    op.Clone? ==> CloneGuard(a, op.s)
  }

  ghost function Apply(a: State, op: Op): State
    requires Enabled(a, op)
  {
    match op
    case Create(s) => DoCreate(a, s)
    case Alloc(s, first, flags, frames, fill) => DoAlloc(a, s, first, flags, frames, fill)
    case Clone(s, d) => DoClone(a, s, d)
    case Write(s, v, off, byte, spare) => DoWrite(a, s, v, off, byte, spare)
    case Free(s, first, pages) =>
      DoFree(a, s, FindBase(a.spaces[s].regions, first).value)
    case Retire(s) => DoRetire(a, s)
  }

  /** The same operations on the reference: a clone copies every page, a write touches one page of one space. */
  function EagerApply(e: Eager, op: Op): Eager {
    match op
    case Create(s) => e.(spaces := e.spaces + {s})
    case Alloc(s, first, flags, frames, fill) =>
      e.(mem := e.mem + NewPages(s, first, fill))
    case Clone(s, d) =>
      Eager(e.spaces + {d}, e.mem + Copies(e.mem, s, d))
    case Write(s, v, off, byte, _) =>
      if (s, v) in e.mem && off < PAGE_SIZE then e.(mem := e.mem[(s, v) := e.mem[(s, v)][off := byte]]) else e
    case Free(s, first, pages) =>
      e.(mem := map x | x in e.mem && !(x.0 == s && first <= x.1 < first + pages) :: e.mem[x])
    case Retire(s) => e.(spaces := e.spaces - {s})
  }

  // ---------- one step ----------

  lemma SimCreate(a: State, s: nat)
    requires Inv(a) && s !in a.spaces
    ensures Contents(DoCreate(a, s)) == EagerApply(Contents(a), Create(s))
  {
  }

  lemma NewPagesAt(s: nat, first: nat, fill: seq<Page>, x: Slot)
    ensures x in NewPages(s, first, fill) <==> InRange(x, s, first, |fill|)
    ensures x in NewPages(s, first, fill) ==> NewPages(s, first, fill)[x] == fill[x.1 - first]
  {
    if InRange(x, s, first, |fill|) {
      assert (s, x.1) in NewPages(s, first, fill);
      assert x == (s, x.1);
    }
  }

  lemma CopiesAt(mem: Memory, s: nat, d: nat, x: Slot)
    ensures x in Copies(mem, s, d) <==> x.0 == d && (s, x.1) in mem
    ensures x in Copies(mem, s, d) ==> Copies(mem, s, d)[x] == mem[(s, x.1)]
  {
    if x.0 == d && (s, x.1) in mem {
      assert x == (d, (s, x.1).1);
      assert (d, (s, x.1).1) in Copies(mem, s, d);
    }
  }

  lemma {:induction false} DistinctIndex(frames: seq<nat>, i: nat)
    requires NoDup(frames) && i < |frames|
    ensures FrameIndex(frames, frames[i]) == i
  {
    var j := FrameIndex(frames, frames[i]);
    assert frames[j] == frames[i];
  }

  lemma FillMemAt(pt: Mapping, pages: map<nat, Page>, s: nat, first: nat, flags: Flags, frames: seq<nat>,
      fill: seq<Page>, x: Slot)
    requires |fill| == |frames| && NoDup(frames)
    requires forall y :: y in pt ==> pt[y].Entry? && pt[y].frame in pages && pt[y].frame !in frames
    ensures SameAt(MemOf(MapRange(pt, s, first, flags, frames), pages + NewContents(frames, fill)),
                   MemOf(pt, pages) + NewPages(s, first, fill), x)
  {
    NewPagesAt(s, first, fill, x);
    MapRangeAt(pt, s, first, flags, frames, x);
    if InRange(x, s, first, |frames|) {
      DistinctIndex(frames, x.1 - first);
      assert frames[x.1 - first] in frames;
    }
  }

  lemma FillMem(pt: Mapping, pages: map<nat, Page>, s: nat, first: nat, flags: Flags, frames: seq<nat>, fill: seq<Page>)
    requires |fill| == |frames| && NoDup(frames)
    requires forall y :: y in pt ==> pt[y].Entry? && pt[y].frame in pages && pt[y].frame !in frames
    ensures MemOf(MapRange(pt, s, first, flags, frames), pages + NewContents(frames, fill))
            == MemOf(pt, pages) + NewPages(s, first, fill)
  {
    forall x: Slot
      ensures SameAt(MemOf(MapRange(pt, s, first, flags, frames), pages + NewContents(frames, fill)),
                     MemOf(pt, pages) + NewPages(s, first, fill), x)
    {
      FillMemAt(pt, pages, s, first, flags, frames, fill, x);
    }
    Extensional(MemOf(MapRange(pt, s, first, flags, frames), pages + NewContents(frames, fill)),
                MemOf(pt, pages) + NewPages(s, first, fill));
  }

  lemma SimAlloc(a: State, s: nat, first: nat, flags: Flags, frames: seq<nat>, fill: seq<Page>)
    requires Closed(a) && AllocOk(a, s, first, flags, frames, fill)
    ensures Contents(DoAlloc(a, s, first, flags, frames, fill))
            == EagerApply(Contents(a), Alloc(s, first, flags, frames, fill))
  {
    FillMem(a.pt, a.pages, s, first, flags, frames, fill);
    KeptKeys(a.spaces, s, LinkRegion(a.spaces[s], Region(first, |frames|, flags + {Used})));
  }

  lemma KeptKeys(spaces: map<nat, Space>, s: nat, sp: Space)
    ensures spaces[s := sp].Keys == spaces.Keys + {s}
    ensures s in spaces ==> spaces[s := sp].Keys == spaces.Keys
  {
  }

  lemma ShareMemAt(pt: Mapping, pages: map<nat, Page>, s: nat, d: nat, x: Slot)
    requires s != d && forall y :: y in pt ==> y.0 != d && pt[y].Entry? && pt[y].frame in pages
    ensures var m := MemOf(Share(pt, s, d), pages);
            var e := MemOf(pt, pages) + Copies(MemOf(pt, pages), s, d);
            SameAt(m, e, x)
  {
    ShareAt(pt, s, d, x);
    CopiesAt(MemOf(pt, pages), s, d, x);
  }

  lemma ShareMem(pt: Mapping, pages: map<nat, Page>, s: nat, d: nat)
    requires s != d && forall y :: y in pt ==> y.0 != d && pt[y].Entry? && pt[y].frame in pages
    ensures MemOf(Share(pt, s, d), pages) == MemOf(pt, pages) + Copies(MemOf(pt, pages), s, d)
  {
    forall x: Slot
      ensures SameAt(MemOf(Share(pt, s, d), pages), MemOf(pt, pages) + Copies(MemOf(pt, pages), s, d), x)
    {
      ShareMemAt(pt, pages, s, d, x);
    }
    Extensional(MemOf(Share(pt, s, d), pages), MemOf(pt, pages) + Copies(MemOf(pt, pages), s, d));
  }

  predicate SameAt(m: Memory, e: Memory, x: Slot) {
    (x in m <==> x in e) && (x in m ==> m[x] == e[x])
  }

  lemma Extensional(m: Memory, e: Memory)
    requires forall x: Slot :: SameAt(m, e, x)
    ensures m == e
  {
    assert forall x: Slot :: SameAt(m, e, x) ==> (x in m <==> x in e) && (x in m ==> m[x] == e[x]);
  }

  lemma SimClone(a: State, s: nat, d: nat)
    requires Closed(a) && CloneOk(a, s, d)
    ensures Contents(DoClone(a, s, d)) == EagerApply(Contents(a), Clone(s, d))
  {
    ShareMem(a.pt, a.pages, s, d);
    var sp := CowSpace(a.spaces[s]);
    KeptKeys(a.spaces, s, sp);
    KeptKeys(a.spaces[s := sp], d, sp);
  }

  /** Breaking the sharing of a page changes no byte that anyone reads. */
  lemma BreakInvisible(a: State, s: nat, v: nat, spare: nat)
    requires Closed(a) && BreakOk(a, s, v, spare)
    ensures Contents(DoBreak(a, s, v, spare)) == Contents(a)
  {
    BreakShape(a, s, v, spare);
  }

  /** A store through a writable entry is seen at one page of one space, because that entry is exclusive. */
  lemma SimStore(a: State, s: nat, v: nat, off: nat, byte: Byte, spare: nat)
    requires Closed(a) && Exclusive(a.pt) && Storable(a, s, v) && off < PAGE_SIZE
    ensures Contents(DoStore(a, s, v, off, byte)) == EagerApply(Contents(a), Op.Write(s, v, off, byte, spare))
  {
    var b := DoStore(a, s, v, off, byte);
    forall x | x in a.pt && x != (s, v)
      ensures a.pt[x].frame != a.pt[(s, v)].frame
    {
    }
  }

  /** Patching a frame that one page maps is seen at that page. */
  lemma PatchSeen(a: State, s: nat, v: nat, p: Page)
    requires Inv(a) && (s, v) in a.pt && a.pt[(s, v)].frame in a.rc && a.rc[a.pt[(s, v)].frame] <= 1
    ensures MemOf(a.pt, a.pages).Keys == a.pt.Keys
    ensures MemOf(DoPatch(a, s, v, p).pt, DoPatch(a, s, v, p).pages) == MemOf(a.pt, a.pages)[(s, v) := p]
  {
    hide Tiled, Bits, OnePage, Exclusive;
    LoneMapper(a.rc, a.pt, (s, v));
    assert a.pt[(s, v)].Entry?;
    hide Inv;
    var f := a.pt[(s, v)].frame;
    forall x | x in a.pt && x != (s, v)
      ensures a.pt[x].frame != f
    {
      assert x !in Mappers(a.pt, f);
    }
  }

  lemma StoreStep(a: State, s: nat, v: nat, off: nat, byte: Byte, spare: nat)
    requires Inv(a) && Storable(a, s, v) && off < PAGE_SIZE
    ensures Inv(DoStore(a, s, v, off, byte))
    ensures Contents(DoStore(a, s, v, off, byte)) == EagerApply(Contents(a), Op.Write(s, v, off, byte, spare))
  {
    SimStore(a, s, v, off, byte, spare);
    StoreKeeps(a, s, v, off, byte);
  }

  /** The write after a fault: the break is invisible and makes the page exclusive. */
  lemma SimFault(a: State, s: nat, v: nat, off: nat, byte: Byte, spare: nat)
    requires Inv(a) && BreakOk(a, s, v, spare) && off < PAGE_SIZE
    ensures Storable(DoBreak(a, s, v, spare), s, v)
    ensures var c := DoStore(DoBreak(a, s, v, spare), s, v, off, byte);
            Inv(c) && Contents(c) == EagerApply(Contents(a), Op.Write(s, v, off, byte, spare))
  {
    BreakKeeps(a, s, v, spare);
    BreakThenStore(a, s, v, spare);
    BreakInvisible(a, s, v, spare);
    StoreStep(DoBreak(a, s, v, spare), s, v, off, byte, spare);
  }

  lemma SimWrite(a: State, s: nat, v: nat, off: nat, byte: Byte, spare: nat)
    requires Inv(a) && Writable(a, s, v) && off < PAGE_SIZE && spare !in a.rc
    ensures Inv(DoWrite(a, s, v, off, byte, spare))
    ensures Contents(DoWrite(a, s, v, off, byte, spare)) == EagerApply(Contents(a), Op.Write(s, v, off, byte, spare))
  {
    if Storable(a, s, v) {
      StoreStep(a, s, v, off, byte, spare);
    } else {
      SimFault(a, s, v, off, byte, spare);
    }
  }

  lemma UnmapMem(pt: Mapping, pages: map<nat, Page>, fewer: map<nat, Page>, s: nat, r: Region)
    requires forall x :: x in pt ==> pt[x].Entry? && pt[x].frame in pages
    requires forall x :: x in Unmap(pt, s, r) ==> pt[x].frame in fewer
    requires forall f :: f in fewer ==> f in pages && fewer[f] == pages[f]
    ensures MemOf(Unmap(pt, s, r), fewer)
            == map x | x in MemOf(pt, pages) && !(x.0 == s && r.first <= x.1 < r.first + r.pages) :: MemOf(pt, pages)[x]
  {
  }

  lemma SimFree(a: State, s: nat, k: nat)
    requires Closed(a) && OnePage(a.pt) && Exact(a) && s in a.spaces && k < |a.spaces[s].regions|
    ensures var r := a.spaces[s].regions[k];
            Contents(DoFree(a, s, k)) == EagerApply(Contents(a), Free(s, r.first, r.pages))
  {
    FreeClosed(a, s, k);
    SimFreeMem(a, DoFree(a, s, k), s, a.spaces[s].regions[k]);
  }

  lemma SimFreeMem(a: State, b: State, s: nat, r: Region)
    requires Closed(a) && Closed(b) && b.pt == Unmap(a.pt, s, r) && b.spaces.Keys == a.spaces.Keys
    requires forall f :: f in b.pages ==> f in a.pages && b.pages[f] == a.pages[f]
    ensures Contents(b) == EagerApply(Contents(a), Free(s, r.first, r.pages))
  {
    UnmapMem(a.pt, a.pages, b.pages, s, r);
  }

  /** Forward simulation: a guarded step keeps the invariant and is the same step of the reference. */
  lemma Simulation(a: State, op: Op)
    requires Inv(a) && Enabled(a, op) && Guarded(a, op)
    ensures Inv(Apply(a, op))
    ensures Contents(Apply(a, op)) == EagerApply(Contents(a), op)
  {
    match op
    case Create(s) =>
      SimCreate(a, s);
      CreateKeeps(a, s);
    case Alloc(s, first, flags, frames, fill) =>
      SimAlloc(a, s, first, flags, frames, fill);
      AllocKeeps(a, s, first, flags, frames, fill);
    case Clone(s, d) =>
      SimClone(a, s, d);
      CloneKeepsBase(a, s, d);
      CloneExactIff(a, s, d);
    case Write(s, v, off, byte, spare) =>
      SimWrite(a, s, v, off, byte, spare);
    case Free(s, first, pages) =>
      var k := FindBase(a.spaces[s].regions, first).value;
      SimFree(a, s, k);
      FreeKeeps(a, s, k);
    case Retire(s) =>
      RetireKeeps(a, s);
  }

  // ---------- whole runs ----------

  ghost predicate Legal(a: State, ops: seq<Op>)
    decreases |ops|
  {
    ops == [] || (Enabled(a, ops[0]) && Guarded(a, ops[0]) && Legal(Apply(a, ops[0]), ops[1..]))
  }

  ghost function Run(a: State, ops: seq<Op>): State
    requires Legal(a, ops)
    decreases |ops|
  {
    if ops == [] then a else Run(Apply(a, ops[0]), ops[1..])
  }

  function EagerRun(e: Eager, ops: seq<Op>): Eager
    decreases |ops|
  {
    if ops == [] then e else EagerRun(EagerApply(e, ops[0]), ops[1..])
  }

  lemma {:induction false} RunFrom(a: State, ops: seq<Op>)
    requires Inv(a) && Legal(a, ops)
    ensures Inv(Run(a, ops)) && Contents(Run(a, ops)) == EagerRun(Contents(a), ops)
    decreases |ops|
  {
    if ops != [] {
      Simulation(a, ops[0]);
      RunFrom(Apply(a, ops[0]), ops[1..]);
    }
  }

  /** Over every run from boot, however creations, allocations, clones, writes, frees and retirements
      interleave, copy-on-write memory and eagerly copied memory agree. */
  lemma CowRefinesEagerCopy(ops: seq<Op>)
    requires Legal(EMPTY, ops)
    ensures Contents(Run(EMPTY, ops)) == EagerRun(Eager({}, map[]), ops)
    ensures Inv(Run(EMPTY, ops))
  {
    assert Inv(EMPTY);
    assert Contents(EMPTY) == Eager({}, map[]);
    RunFrom(EMPTY, ops);
  }
}
