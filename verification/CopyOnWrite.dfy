/** Copy-on-write address spaces as seen through the page tables: each operation of vmm.c as a
    function on the flat mapping, the reference counts and the page contents. */
module CopyOnWrite {
  import opened Layout

  /** A user page of a space; a space is named by the frame of its PML4. */
  type Slot = (nat, nat)
  type Mapping = map<Slot, Entry>

  /** `pt` is the flat mapping of all live spaces; `rc` and `pages` describe the mapped frames. */
  datatype State = State(spaces: map<nat, Space>, pt: Mapping, rc: map<nat, nat>, pages: map<nat, Page>)

  const EMPTY := State(map[], map[], map[], map[])

  // ---------- operations ----------

  function DoCreate(a: State, s: nat): State {
    a.(spaces := a.spaces[s := Space([], 0, 0)])
  }

  /** `vmm_space_alloc` when every frame it asks for is there; `fill` is what the frames held before. */
  function DoAlloc(a: State, s: nat, first: nat, flags: Flags, frames: seq<nat>, fill: seq<Page>): State
    requires s in a.spaces && |fill| == |frames|
  {
    State(
      a.spaces[s := LinkRegion(a.spaces[s], Region(first, |frames|, flags + {Used}))],
      MapRange(a.pt, s, first, flags, frames),
      a.rc + NewCounts(frames),
      a.pages + NewContents(frames, fill))
  }

  /** A region is linked into the sorted list. */
  function LinkRegion(sp: Space, r: Region): Space {
    Space(Insert(sp.regions, r), sp.regionCount + 1, sp.usedPages + r.pages)
  }

  function NewCounts(frames: seq<nat>): map<nat, nat> {
    map f | f in frames :: 1
  }

  function NewContents(frames: seq<nat>, fill: seq<Page>): map<nat, Page>
    requires |fill| == |frames|
  {
    map f | f in frames :: fill[FrameIndex(frames, f)]
  }

  function MapRange(pt: Mapping, s: nat, first: nat, flags: Flags, frames: seq<nat>): Mapping {
    pt + NewEntries(s, first, flags, frames)
  }

  function NewEntries(s: nat, first: nat, flags: Flags, frames: seq<nat>): Mapping {
    map v: nat | first <= v < first + |frames| :: (s, v) := PteFor(frames[v - first], flags)
  }

  function FrameIndex(frames: seq<nat>, f: nat): (i: nat)
    requires f in frames
    ensures i < |frames| && frames[i] == f
  {
    if frames[0] == f then 0 else 1 + FrameIndex(frames[1..], f)
  }

  function CowFlags(flags: Flags): Flags { flags + {Cow} - {Write} }

  function CowRegions(rs: seq<Region>): (r: seq<Region>)
    ensures |r| == |rs|
    ensures forall i :: 0 <= i < |rs| ==> r[i] == rs[i].(flags := CowFlags(rs[i].flags))
  {
    seq(|rs|, i requires 0 <= i < |rs| => rs[i].(flags := CowFlags(rs[i].flags)))
  }

  function FramesOf(pt: Mapping, s: nat): set<nat> {
    set x | x in pt && x.0 == s && pt[x].Entry? :: pt[x].frame
  }

  function ReadOnly(e: Entry): Entry {
    if e.Entry? then e.(writable := false) else e
  }

  function Share(pt: Mapping, s: nat, d: nat): Mapping {
    (map x | x in pt :: if x.0 == s then ReadOnly(pt[x]) else pt[x])
    + map x | x in pt && x.0 == s :: (d, x.1) := ReadOnly(pt[x])
  }

  /** `vmm_clone_space`: the source is demoted to read-only, the copy shares its frames. */
  function DoClone(a: State, s: nat, d: nat): State
    requires s in a.spaces
  {
    var sp := CowSpace(a.spaces[s]);
    State(a.spaces[s := sp][d := sp], Share(a.pt, s, d), ShareCounts(a.rc, FramesOf(a.pt, s)), a.pages)
  }

  function CowSpace(sp: Space): Space {
    sp.(regions := CowRegions(sp.regions))
  }

  function ShareCounts(rc: map<nat, nat>, shared: set<nat>): map<nat, nat> {
    map f | f in rc :: if f in shared then (rc[f] + 1) % U32 else rc[f]
  }

  /** A write fault on page `v` finds a copy-on-write region. */
  predicate Breakable(a: State, s: nat, v: nat) {
    && s in a.spaces
    && (s, v) in a.pt && a.pt[(s, v)].Entry? && a.pt[(s, v)].frame in a.rc && a.pt[(s, v)].frame in a.pages
    && Covered(a.spaces[s].regions, v)
    && Cow in a.spaces[s].regions[IndexOf(a.spaces[s].regions, v)].flags
  }

  function BrokenFlags(flags: Flags): Flags { flags - {Cow} + {Write, Used} }

  /** The frame a broken page ends up on: its own if no other mapping is counted, else a private copy. */
  function BreakFrame(a: State, s: nat, v: nat, spare: nat): nat
    requires Breakable(a, s, v)
  {
    var f := a.pt[(s, v)].frame;
    if a.rc[f] <= 1 then f else spare
  }

  function SetFlags(rs: seq<Region>, i: nat, flags: Flags): seq<Region>
    requires i < |rs|
  {
    rs[i := rs[i].(flags := flags)]
  }

  /** `vmm_cow_break`: the last sharer takes the frame over, any other gets a private copy in `spare`. */
  function DoBreak(a: State, s: nat, v: nat, spare: nat): State
    requires Breakable(a, s, v)
  {
    var rs := a.spaces[s].regions;
    var i := IndexOf(rs, v);
    var flags := BrokenFlags(rs[i].flags);
    var f := a.pt[(s, v)].frame;
    var g := BreakFrame(a, s, v, spare);
    State(
      a.spaces[s := a.spaces[s].(regions := SetFlags(rs, i, flags))],
      a.pt[(s, v) := PteFor(g, flags)],
      if g == f then a.rc[f := 0] else a.rc[f := a.rc[f] - 1][g := 1],
      if g == f then a.pages else a.pages[g := a.pages[f]])
  }

  predicate Storable(a: State, s: nat, v: nat) {
    (s, v) in a.pt && a.pt[(s, v)].Entry? && a.pt[(s, v)].writable && a.pt[(s, v)].frame in a.pages
  }

  function DoStore(a: State, s: nat, v: nat, off: nat, b: Byte): State
    requires Storable(a, s, v) && off < PAGE_SIZE
  {
    var f := a.pt[(s, v)].frame;
    a.(pages := a.pages[f := a.pages[f][off := b]])
  }

  /** The kernel writes through its own mapping of the frame behind page `v`, whatever the page allows. */
  function DoPatch(a: State, s: nat, v: nat, p: Page): State
    requires (s, v) in a.pt && a.pt[(s, v)].Entry?
  {
    a.(pages := a.pages[a.pt[(s, v)].frame := p])
  }

  /** A write either goes through, or faults, breaks the sharing and is retried; nothing else succeeds. */
  predicate Writable(a: State, s: nat, v: nat) {
    Storable(a, s, v) || Breakable(a, s, v)
  }

  function DoWrite(a: State, s: nat, v: nat, off: nat, b: Byte, spare: nat): State
    requires Writable(a, s, v) && off < PAGE_SIZE
  {
    DoStore(if Storable(a, s, v) then a else DoBreak(a, s, v, spare), s, v, off, b)
  }

  function Unmap(pt: Mapping, s: nat, r: Region): Mapping {
    map x | x in pt && !(x.0 == s && r.Covers(x.1)) :: pt[x]
  }

  function FramesIn(pt: Mapping, s: nat, r: Region): set<nat> {
    set x | x in pt && x.0 == s && r.Covers(x.1) && pt[x].Entry? :: pt[x].frame
  }

  /** `vmm_space_free` of the region at index `k`. */
  function DoFree(a: State, s: nat, k: nat): State
    requires s in a.spaces && k < |a.spaces[s].regions|
  {
    DropRange(a, s, a.spaces[s].regions[k]).(spaces := a.spaces[s := UnlinkRegion(a.spaces[s], k)])
  }

  /** The pages of `r` are unmapped, their frames counted down and, at 0, given back. */
  function DropRange(a: State, s: nat, r: Region): State {
    var hit := FramesIn(a.pt, s, r);
    State(a.spaces, Unmap(a.pt, s, r), DropCounts(a.rc, hit), a.pages - Gone(a.rc, hit))
  }

  function UnlinkRegion(sp: Space, k: nat): Space
    requires k < |sp.regions|
  {
    Space(RemoveAt(sp.regions, k), Minus(sp.regionCount, 1), Minus(sp.usedPages, sp.regions[k].pages))
  }

  /** Frames whose last counted mapping is dropped. */
  function Gone(rc: map<nat, nat>, hit: set<nat>): set<nat> {
    set f | f in rc && f in hit && rc[f] <= 1
  }

  function DropCounts(rc: map<nat, nat>, hit: set<nat>): map<nat, nat> {
    map f | f in rc && !(f in hit && rc[f] <= 1) :: if f in hit then rc[f] - 1 else rc[f]
  }

  function Minus(x: nat, y: nat): nat { if x < y then 0 else x - y }

  function DoRetire(a: State, s: nat): State {
    a.(spaces := a.spaces - {s})
  }

  /** `vmm_space_destroy`: the first region is freed until none is left, then the space goes. */
  function DoDestroy(a: State, s: nat): State
    requires s in a.spaces
    decreases |a.spaces[s].regions|
  {
    if a.spaces[s].regions == [] then DoRetire(a, s)
    else DoDestroy(DoFree(a, s, 0), s)
  }

  // ---------- invariants ----------

  function Mappers(pt: Mapping, f: nat): set<Slot> {
    set x | x in pt && pt[x].Entry? && pt[x].frame == f
  }

  /** Every PTE is present, belongs to a live space and names a counted frame; every counted frame is mapped. */
  ghost predicate Linked(spaces: set<nat>, pt: Mapping, frames: set<nat>) {
    && (forall x :: x in pt ==> x.0 in spaces && pt[x].Entry? && pt[x].frame in frames)
    && (forall f :: f in frames ==> Mappers(pt, f) != {})
  }

  ghost predicate Closed(a: State) {
    Linked(a.spaces.Keys, a.pt, a.rc.Keys) && a.rc.Keys == a.pages.Keys
  }

  /** A frame is mapped at one page number only, so at most once in a space. */
  ghost predicate OnePage(pt: Mapping) {
    forall x, y :: x in pt && y in pt && pt[x].Entry? && pt[y].Entry? && pt[x].frame == pt[y].frame ==> x.1 == y.1
  }

  /** A writable mapping is the only mapping of its frame. */
  ghost predicate Exclusive(pt: Mapping) {
    forall x, y :: x in pt && y in pt && pt[x].Entry? && pt[y].Entry? && pt[x].frame == pt[y].frame && pt[x].writable
                   ==> x == y
  }

  predicate CountOk(rc: nat, sharers: nat) {
    rc < U32 && (rc == sharers || (rc == 0 && sharers == 1))
  }

  /** The count of a frame is the number of its mappings, or 0 after an in-place takeover. */
  ghost predicate Counted(rc: map<nat, nat>, pt: Mapping) {
    forall f :: f in rc ==> CountOk(rc[f], |Mappers(pt, f)|)
  }

  ghost predicate Exact(a: State) {
    Counted(a.rc, a.pt)
  }

  predicate SpaceOk(sp: Space) {
    && Sorted(sp.regions)
    && sp.regionCount == |sp.regions|
    && sp.usedPages == TotalPages(sp.regions)
    && (forall i :: 0 <= i < |sp.regions| ==> Used in sp.regions[i].flags && Mmio !in sp.regions[i].flags)
  }

  /** Exactly the pages of the regions are mapped. */
  ghost predicate TiledSpace(sp: Space, pt: Mapping, s: nat) {
    SpaceOk(sp) && forall v: nat :: (s, v) in pt <==> Covered(sp.regions, v)
  }

  ghost predicate TiledAll(spaces: map<nat, Space>, pt: Mapping) {
    forall s :: s in spaces ==> TiledSpace(spaces[s], pt, s)
  }

  ghost predicate Tiled(a: State) {
    TiledAll(a.spaces, a.pt)
  }

  predicate BitsMatch(e: Entry, flags: Flags) {
    && e.Entry?
    && e.user == (User in flags)
    && e.noExec == (Exec !in flags)
    && (e.writable ==> Write in flags && Cow !in flags)
  }

  /** Permission bits follow the region; a copy-on-write region has no writable page. */
  ghost predicate BitsSpace(rs: seq<Region>, pt: Mapping, s: nat) {
    forall i, v: nat :: 0 <= i < |rs| && rs[i].Covers(v) && (s, v) in pt ==> BitsMatch(pt[(s, v)], rs[i].flags)
  }

  ghost predicate BitsAll(spaces: map<nat, Space>, pt: Mapping) {
    forall s :: s in spaces ==> BitsSpace(spaces[s].regions, pt, s)
  }

  ghost predicate Bits(a: State) {
    BitsAll(a.spaces, a.pt)
  }

  ghost predicate Base(a: State) {
    Closed(a) && OnePage(a.pt) && Exclusive(a.pt) && Tiled(a) && Bits(a)
  }

  ghost predicate Inv(a: State) {
    Base(a) && Exact(a)
  }
}
