/** How tables, frame roles, counts and page contents stand for a flat mapping, and what each step of the
    memory manager does to them. */
module MemoryView {
  import opened Layout
  import opened PageTable
  import opened PhysMem
  import opened CopyOnWrite
  import opened CowInvariant

  /** The flat state behind roles, counts and page contents. */
  function ViewOf(spaces: map<nat, Space>, pt: Mapping, roles: Roles, counts: seq<Counter>, pages: seq<Page>): State {
    State(spaces, pt, CountsOf(roles, counts), PagesOf(roles, pages))
  }

  function CountsOf(roles: Roles, counts: seq<Counter>): map<nat, nat> {
    map f | f in roles && roles[f].DataFrame? && f < |counts| :: counts[f]
  }

  function PagesOf(roles: Roles, pages: seq<Page>): map<nat, Page> {
    map f | f in roles && roles[f].DataFrame? && f < |pages| :: pages[f]
  }

  function At(pt: Mapping, s: nat, v: nat): Entry {
    if (s, v) in pt then pt[(s, v)] else Absent
  }

  /** The tables translate exactly as `pt` says. */
  ghost predicate Agrees(t: Tables, pt: Mapping, roots: set<nat>) {
    forall s, v: nat :: s in roots && v < USER_PAGES ==> Lookup(t, s, v) == At(pt, s, v)
  }

  /** Every root shares the kernel's half. */
  ghost predicate Upper(t: Tables, roots: set<nat>, top: Table) {
    forall s :: s in roots ==> s < |t| && |t[s]| == 512 && t[s][256..] == top
  }

  /** The frames in use are managed and not free; frame 0 is neither. */
  ghost predicate InUse(used: set<nat>, free: set<nat>, total: nat) {
    used !! free && 0 !in used && 0 !in free && forall f :: f in used ==> f < total
  }

  ghost predicate Mem(t: Tables, roles: Roles, roots: set<nat>, top: Table, total: nat) {
    |t| == total && |top| == 256 && Tree(t, roles, roots) && Upper(t, roots, top)
  }

  /** Every frame in use in `fewer` has the same use in `roles`. */
  ghost predicate Subroles(fewer: Roles, roles: Roles) {
    forall f :: f in fewer ==> f in roles && fewer[f] == roles[f]
  }

  /** `roles` with more frames in use as tables. */
  ghost predicate Extends(roles: Roles, more: Roles) {
    && (forall f :: f in roles ==> f in more && more[f] == roles[f])
    && (forall f :: f in more && f !in roles ==> more[f].TableFrame?)
  }

  /** Table frames and the data frames `data` came into use, taken from the free ones; the new data frames
      count 1 and the counts of the frames that were in use stand. */
  ghost predicate Took(before: Roles, free: set<nat>, counts: seq<Counter>, after: Roles, left: set<nat>,
      now: seq<Counter>,
                       data: set<nat>)
  {
    && (forall f :: f in before ==> f in after && after[f] == before[f])
    && (forall f :: f in data ==> f in after && f !in before && after[f] == DataFrame)
    && (forall f :: f in after && f !in before && f !in data ==> after[f].TableFrame?)
    && left + after.Keys == free + before.Keys
    && |counts| == |now|
    && (forall i :: i in before && i < |counts| ==> now[i] == counts[i])
    && (forall i :: i in data && i < |now| ==> now[i] == 1)
  }

  lemma TookFrame(before: Roles, free: set<nat>, counts: seq<Counter>, after: Roles, now: seq<Counter>, g: nat,
      total: nat)
    requires InUse(before.Keys, free, total) && g in free && g < total && |counts| == |now| == total
    requires Extends(before, after) && after.Keys == before.Keys + {g}
    requires forall i :: 0 <= i < total && i != g ==> now[i] == counts[i]
    ensures InUse(after.Keys, free - {g}, total) && Took(before, free, counts, after, free - {g}, now, {})
  {
    assert (free - {g}) + after.Keys == free + before.Keys;
  }

  lemma TookThen(r0: Roles, f0: set<nat>, c0: seq<Counter>, r1: Roles, f1: set<nat>, c1: seq<Counter>,
                 r2: Roles, f2: set<nat>, c2: seq<Counter>, d1: set<nat>, d2: set<nat>)
    requires Took(r0, f0, c0, r1, f1, c1, d1) && Took(r1, f1, c1, r2, f2, c2, d2)
    ensures Took(r0, f0, c0, r2, f2, c2, d1 + d2)
  {
  }

  lemma AddData(t: Tables, roles: Roles, roots: set<nat>, top: Table, total: nat, g: nat)
    requires Mem(t, roles, roots, top, total) && g !in roles
    ensures Mem(t, roles[g := DataFrame], roots, top, total)
    ensures Tight(t, roles) ==> Tight(t, roles[g := DataFrame])
  {
    var qs := roles[g := DataFrame];
    forall f | IsTable(qs, f)
      ensures TableOk(t, qs, roots, f)
      ensures qs[f].level < 4 ==> AnchoredAt(t, qs, f)
    {
      assert TableOk(t, roles, roots, f);
      assert roles[f].level < 4 ==> AnchoredAt(t, roles, f);
    }
  }

  /** `f` is the table of level `l` that translates page `v` of space `s`. */
  predicate OnWalk(roles: Roles, f: nat, s: nat, v: nat, l: nat) {
    IsTable(roles, f) && roles[f].space == s && roles[f].level == l && roles[f].prefix == Pre(v, l)
  }

  lemma RootOnWalk(t: Tables, roles: Roles, roots: set<nat>, s: nat, v: nat)
    requires Tree(t, roles, roots) && s in roots && v < USER_PAGES
    ensures OnWalk(roles, s, s, v, 4)
    ensures Tight(t, roles) ==> TightBut(t, roles, s)
  {
    Digits(v);
  }

  lemma StepDown(t: Tables, roles: Roles, roots: set<nat>, f: nat, s: nat, v: nat, l: nat)
    requires Tree(t, roles, roots) && v < USER_PAGES && 2 <= l <= 4 && OnWalk(roles, f, s, v, l)
    ensures f < |t| && |t[f]| == 512 && Index(v, l) < Span(l)
    ensures ChildRole(roles, f, Index(v, l)) == TableFrame(s, l - 1, Pre(v, l - 1), f)
    ensures t[f][Index(v, l)].Entry? ==> t[f][Index(v, l)].frame in roles
                                         && roles[t[f][Index(v, l)].frame] == ChildRole(roles, f, Index(v, l))
  {
    assert TableOk(t, roles, roots, f);
    Digits(v);
  }

  lemma LeafSet(t: Tables, roles: Roles, roots: set<nat>, top: Table, total: nat, f: nat, s: nat, v: nat, e: Entry)
    requires Mem(t, roles, roots, top, total) && v < USER_PAGES && OnWalk(roles, f, s, v, 1)
    requires e.Entry? ==> e.frame in roles && roles[e.frame] == DataFrame
    ensures f < |t| && |t[f]| == 512
    ensures var u := SetEntry(t, f, Index(v, 1), e);
            && Mem(u, roles, roots, top, total) && SetAt(t, u, roots, s, v, e)
            && (TightBut(t, roles, f) ==> TightBut(u, roles, f) && (e.Entry? ==> Tight(u, roles)))
  {
    assert TableOk(t, roles, roots, f);
    Digits(v);
    var k := Index(v, 1);
    assert LeafWritable(t, roles, roots, f, k, e);
    LeafTree(t, roles, roots, f, k, e);
    forall q, w: nat | q in roots && w < USER_PAGES
      ensures Lookup(SetEntry(t, f, k, e), q, w) == if q == s && w == v then e else Lookup(t, q, w)
    {
      LeafLookup(t, roles, roots, f, k, e, q, w);
    }
    if TightBut(t, roles, f) {
      LeafTight(t, roles, f, k, e);
    }
    NotRoot(t, roles, roots, top, f, k, e);
  }

  lemma NotRoot(t: Tables, roles: Roles, roots: set<nat>, top: Table, f: nat, k: nat, e: Entry)
    requires Upper(t, roots, top) && f !in roots && f < |t| && k < |t[f]|
    ensures Upper(SetEntry(t, f, k, e), roots, top)
  {
  }

  /** `u` translates page `v` of `s` to `e` and everything else as `t` does. */
  ghost predicate SetAt(t: Tables, u: Tables, roots: set<nat>, s: nat, v: nat, e: Entry) {
    forall q, w: nat :: q in roots && w < USER_PAGES ==>
      Lookup(u, q, w) == if q == s && w == v then e else Lookup(t, q, w)
  }

  ghost predicate SameTranslation(t: Tables, u: Tables, roots: set<nat>) {
    forall s, v: nat :: s in roots && v < USER_PAGES ==> Lookup(u, s, v) == Lookup(t, s, v)
  }

  lemma TableEntry(t: Tables, f: nat, k: nat)
    requires k < 512 && EntryAt(t, f, k).Entry?
    ensures NonEmpty(t, f)
  {
  }

  lemma Grafted(t: Tables, roles: Roles, roots: set<nat>, top: Table, total: nat, f: nat, k: nat, g: nat)
    requires Graftable(t, roles, roots, f, k, g) && Mem(t, roles, roots, top, total)
    ensures var u, qs := Graft(t, f, k, g), GraftRoles(roles, f, k, g);
            && Mem(u, qs, roots, top, total) && SameTranslation(t, u, roots)
            && (TightBut(t, roles, f) ==> TightBut(u, qs, g))
            && qs.Keys == roles.Keys + {g} && Extends(roles, qs)
  {
    GraftTree(t, roles, roots, f, k, g);
    forall s, v: nat | s in roots && v < USER_PAGES
      ensures Lookup(Graft(t, f, k, g), s, v) == Lookup(t, s, v)
    {
      GraftLookup(t, roles, roots, f, k, g, s, v);
    }
    if TightBut(t, roles, f) {
      GraftTight(t, roles, roots, f, k, g);
    }
    GraftUpper(t, roles, roots, top, f, k, g);
  }

  lemma GraftUpper(t: Tables, roles: Roles, roots: set<nat>, top: Table, f: nat, k: nat, g: nat)
    requires Graftable(t, roles, roots, f, k, g) && Upper(t, roots, top)
    ensures Upper(Graft(t, f, k, g), roots, top)
  {
    var u := Graft(t, f, k, g);
    assert TableOk(t, roles, roots, f);
    forall s | s in roots
      ensures |u[s]| == 512 && u[s][256..] == top
    {
      assert s != g;
      if s == f {
        assert u[s][256..] == t[s][256..];
      }
    }
  }

  function ToSet(frames: seq<nat>): set<nat> {
    set f | f in frames
  }

  /** Mapping the next page extends the range by it. */
  lemma AgreesNext(t: Tables, u: Tables, pt: Mapping, roots: set<nat>, s: nat, first: nat, flags: Flags,
      frames: seq<nat>, g: nat)
    requires Agrees(t, MapRange(pt, s, first, flags, frames), roots) && s in roots
    requires SetAt(t, u, roots, s, first + |frames|, PteFor(g, flags))
    ensures Agrees(u, MapRange(pt, s, first, flags, frames + [g]), roots)
  {
    forall q, w: nat | q in roots && w < USER_PAGES
      ensures Lookup(u, q, w) == At(MapRange(pt, s, first, flags, frames + [g]), q, w)
    {
      MapRangeAt(pt, s, first, flags, frames, (q, w));
      MapRangeAt(pt, s, first, flags, frames + [g], (q, w));
    }
  }

  lemma AllocCounts(roles: Roles, counts: seq<Counter>, free: set<nat>, more: Roles, now: seq<Counter>, left: set<nat>,
                    frames: seq<nat>)
    requires Took(roles, free, counts, more, left, now, ToSet(frames))
    requires forall f :: f in more ==> f < |now|
    ensures CountsOf(more, now) == CountsOf(roles, counts) + NewCounts(frames)
  {
    var a, b := CountsOf(more, now), CountsOf(roles, counts) + NewCounts(frames);
    forall f: nat
      ensures (f in a <==> f in b) && (f in a ==> a[f] == b[f])
    {
      assert f in frames <==> f in ToSet(frames);
    }
  }

  lemma AllocPages(roles: Roles, pages: seq<Page>, more: Roles, later: seq<Page>, frames: seq<nat>, fill: seq<Page>)
    requires |pages| == |later| && |fill| == |frames|
    requires forall f :: f in more ==> f < |later|
    requires forall f :: f in roles ==> f in more && more[f] == roles[f] && later[f] == pages[f]
    requires forall f :: f in frames ==> f in more && more[f] == DataFrame && f !in roles
    requires forall f :: f in more && f !in roles && f !in frames ==> more[f].TableFrame?
    requires forall i :: 0 <= i < |frames| ==> frames[i] in more && later[frames[i]] == fill[i]
    ensures PagesOf(more, later) == PagesOf(roles, pages) + NewContents(frames, fill)
  {
  }

  /** Everything about the frames at one moment. */
  datatype Snapshot = Snapshot(tables: Tables, roles: Roles, free: set<nat>, counts: seq<Counter>, pages: seq<Page>)

  /** The frames in use form well-shaped trees over the roots and none of them is free. */
  ghost predicate Sound(a: Snapshot, roots: set<nat>, top: Table, total: nat) {
    && |a.pages| == |a.counts| == total
    && InUse(a.roles.Keys, a.free, total)
    && Mem(a.tables, a.roles, roots, top, total)
  }

  /** The old frames keep their bytes and the new ones hold `fill`. */
  ghost predicate Filled(roles: Roles, pages: seq<Page>, later: seq<Page>, frames: seq<nat>, fill: seq<Page>) {
    && |later| == |pages| && |fill| == |frames|
    && (forall f :: f in roles && f < |pages| ==> later[f] == pages[f])
    && (forall i :: 0 <= i < |frames| ==> frames[i] < |later| && later[frames[i]] == fill[i])
  }

  lemma FilledNext(roles: Roles, pages: seq<Page>, more: Roles, later: seq<Page>, next: seq<Page>, frames: seq<nat>,
                   fill: seq<Page>, g: nat)
    requires Filled(roles, pages, later, frames, fill) && NoDup(frames)
    requires g < |later| && g < |next| && next == later[g := next[g]] && g !in more
    requires forall f :: f in roles ==> f in more
    requires forall f :: f in ToSet(frames) ==> f in more
    ensures Filled(roles, pages, next, frames + [g], fill + [next[g]]) && NoDup(frames + [g])
  {
    forall i | 0 <= i < |frames|
      ensures frames[i] != g
    {
      assert frames[i] in ToSet(frames);
    }
  }

  ghost predicate TookIn(a: Snapshot, b: Snapshot, data: set<nat>) {
    Took(a.roles, a.free, a.counts, b.roles, b.free, b.counts, data)
  }

  /** Only tables were added, and every page translates as before. */
  ghost predicate Deepened(a: Snapshot, b: Snapshot, roots: set<nat>) {
    TookIn(a, b, {}) && SameTranslation(a.tables, b.tables, roots) && b.pages == a.pages
  }

  lemma DeepenedThen(a: Snapshot, b: Snapshot, c: Snapshot, roots: set<nat>)
    requires Deepened(a, b, roots) && Deepened(b, c, roots)
    ensures Deepened(a, c, roots)
  {
    TookThen(a.roles, a.free, a.counts, b.roles, b.free, b.counts, c.roles, c.free, c.counts, {}, {});
  }

  /** Page `v` was mapped to `e`; tables may have been added. */
  ghost predicate Mapped(a: Snapshot, b: Snapshot, roots: set<nat>, s: nat, v: nat, e: Entry) {
    TookIn(a, b, {}) && SetAt(a.tables, b.tables, roots, s, v, e) && b.pages == a.pages
  }

  lemma DeepenedSet(a: Snapshot, b: Snapshot, c: Snapshot, roots: set<nat>, s: nat, v: nat, e: Entry)
    requires Deepened(a, b, roots) && c == b.(tables := c.tables) && SetAt(b.tables, c.tables, roots, s, v, e)
    ensures Mapped(a, c, roots, s, v, e)
  {
  }

  /** Frame `g` was taken for data; what it holds is whatever it held. */
  ghost predicate DataTaken(a: Snapshot, b: Snapshot, g: nat) {
    && g in a.free && g < |a.pages| && |b.pages| == |a.pages| && |b.counts| == |a.counts|
    && b.tables == a.tables && b.roles == a.roles[g := DataFrame] && b.free == a.free - {g}
    && b.pages == a.pages[g := b.pages[g]]
    && forall i :: 0 <= i < |a.counts| ==> b.counts[i] == if i == g then 1 else a.counts[i]
  }

  lemma DataTakenSound(a: Snapshot, b: Snapshot, roots: set<nat>, top: Table, total: nat, g: nat)
    requires Sound(a, roots, top, total) && DataTaken(a, b, g)
    ensures Sound(b, roots, top, total) && TookIn(a, b, {g})
    ensures Tight(a.tables, a.roles) ==> Tight(b.tables, b.roles)
  {
    AddData(a.tables, a.roles, roots, top, total, g);
    assert b.free + b.roles.Keys == a.free + a.roles.Keys;
  }

  /** Frame `g`, fresh, came to be mapped at page `v`. */
  ghost predicate PageAdded(a: Snapshot, b: Snapshot, roots: set<nat>, s: nat, v: nat, flags: Flags, g: nat) {
    && SetAt(a.tables, b.tables, roots, s, v, PteFor(g, flags))
    && TookIn(a, b, {g})
    && g < |a.pages| && g < |b.pages| && b.pages == a.pages[g := b.pages[g]]
  }

  lemma PageAddedBy(a: Snapshot, b: Snapshot, c: Snapshot, roots: set<nat>, s: nat, v: nat, flags: Flags, g: nat)
    requires DataTaken(a, b, g) && TookIn(a, b, {g}) && Mapped(b, c, roots, s, v, PteFor(g, flags))
    ensures PageAdded(a, c, roots, s, v, flags, g)
  {
    TookThen(a.roles, a.free, a.counts, b.roles, b.free, b.counts, c.roles, c.free, c.counts, {g}, {});
    assert {g} + {} == {g};
  }

  /** From `a` to `b` the pages from `first` on were mapped to the fresh frames `frames`. */
  ghost predicate Progress(a: Snapshot, b: Snapshot, pt: Mapping, roots: set<nat>, s: nat, first: nat, flags: Flags,
                           frames: seq<nat>, fill: seq<Page>)
  {
    && Agrees(b.tables, MapRange(pt, s, first, flags, frames), roots)
    && TookIn(a, b, ToSet(frames))
    && NoDup(frames) && Filled(a.roles, a.pages, b.pages, frames, fill)
  }

  lemma NoProgress(a: Snapshot, pt: Mapping, roots: set<nat>, s: nat, first: nat, flags: Flags)
    requires Agrees(a.tables, pt, roots)
    ensures Progress(a, a, pt, roots, s, first, flags, [], [])
  {
    assert NewEntries(s, first, flags, []) == map[];
    assert MapRange(pt, s, first, flags, []) == pt;
  }

  lemma ProgressNext(a: Snapshot, b: Snapshot, c: Snapshot, pt: Mapping, roots: set<nat>, s: nat, first: nat,
      flags: Flags,
                     frames: seq<nat>, fill: seq<Page>, g: nat)
    requires Progress(a, b, pt, roots, s, first, flags, frames, fill) && s in roots
    requires PageAdded(b, c, roots, s, first + |frames|, flags, g)
    ensures Progress(a, c, pt, roots, s, first, flags, frames + [g], fill + [c.pages[g]])
  {
    AgreesNext(b.tables, c.tables, pt, roots, s, first, flags, frames, g);
    TookThen(a.roles, a.free, a.counts, b.roles, b.free, b.counts, c.roles, c.free, c.counts, ToSet(frames), {g});
    FilledNext(a.roles, a.pages, b.roles, b.pages, c.pages, frames, fill, g);
    assert ToSet(frames + [g]) == ToSet(frames) + {g};
  }

  lemma ProgressKept(a: Snapshot, b: Snapshot, pt: Mapping, roots: set<nat>, s: nat, first: nat, flags: Flags,
                     frames: seq<nat>, fill: seq<Page>)
    requires Progress(a, b, pt, roots, s, first, flags, frames, fill)
    requires Tight(a.tables, a.roles) ==> Tight(b.tables, b.roles)
    ensures Kept(a, b) && Subroles(a.roles, b.roles)
  {
    hide Agrees, Tight, Filled;
  }

  function ViewAt(spaces: map<nat, Space>, pt: Mapping, a: Snapshot): State {
    ViewOf(spaces, pt, a.roles, a.counts, a.pages)
  }

  /** The frames that were taken were not in use. */
  lemma ProgressFresh(a: Snapshot, b: Snapshot, pt: Mapping, roots: set<nat>, s: nat, first: nat, flags: Flags,
                      frames: seq<nat>, fill: seq<Page>, spaces: map<nat, Space>)
    requires Progress(a, b, pt, roots, s, first, flags, frames, fill)
    ensures NoDup(frames) && |fill| == |frames| && forall f :: f in frames ==> f !in ViewAt(spaces, pt, a).rc
  {
    forall f | f in frames
      ensures f !in a.roles
    {
      assert f in ToSet(frames);
    }
  }

  /** A finished page loop and a linked region are the allocation of the flat mapping. */
  lemma ProgressView(a: Snapshot, b: Snapshot, spaces: map<nat, Space>, pt: Mapping, roots: set<nat>, s: nat,
      first: nat,
                     flags: Flags, frames: seq<nat>, fill: seq<Page>, top: Table, total: nat)
    requires Sound(a, roots, top, total) && Sound(b, roots, top, total) && s in spaces && |fill| == |frames|
    requires Progress(a, b, pt, roots, s, first, flags, frames, fill)
    ensures var c := DoAlloc(ViewAt(spaces, pt, a), s, first, flags, frames, fill);
            ViewAt(c.spaces, MapRange(pt, s, first, flags, frames), b) == c
  {
    ProgressCounts(a, b, pt, roots, s, first, flags, frames, fill, top, total);
  }

  lemma ProgressCounts(a: Snapshot, b: Snapshot, pt: Mapping, roots: set<nat>, s: nat, first: nat, flags: Flags,
                       frames: seq<nat>, fill: seq<Page>, top: Table, total: nat)
    requires Sound(a, roots, top, total) && Sound(b, roots, top, total) && |fill| == |frames|
    requires Progress(a, b, pt, roots, s, first, flags, frames, fill)
    ensures CountsOf(b.roles, b.counts) == CountsOf(a.roles, a.counts) + NewCounts(frames)
    ensures PagesOf(b.roles, b.pages) == PagesOf(a.roles, a.pages) + NewContents(frames, fill)
  {
    assert forall f :: f in frames <==> f in ToSet(frames);
    AllocCounts(a.roles, a.counts, a.free, b.roles, b.counts, b.free, frames);
    AllocPages(a.roles, a.pages, b.roles, b.pages, frames, fill);
  }

  /** Data frames that nothing maps can leave the tree. */
  lemma DropData(t: Tables, roles: Roles, roots: set<nat>, top: Table, total: nat, gone: set<nat>)
    requires Mem(t, roles, roots, top, total)
    requires forall f :: f in gone && f in roles ==> roles[f] == DataFrame
    requires forall s, v: nat :: s in roots && v < USER_PAGES && Lookup(t, s, v).Entry? ==>
             Lookup(t, s, v).frame !in gone
    ensures Mem(t, roles - gone, roots, top, total)
    ensures Tight(t, roles) ==> Tight(t, roles - gone)
  {
    var qs := roles - gone;
    forall f: nat | IsTable(qs, f)
      ensures TableOk(t, qs, roots, f)
    {
      assert TableOk(t, roles, roots, f);
      forall k: nat | k < Span(roles[f].level) && t[f][k].Entry?
        ensures t[f][k].frame !in gone
      {
        EntryMapped(t, roles, roots, f, k, gone);
      }
    }
    forall f | IsTable(qs, f) && qs[f].level < 4
      ensures AnchoredAt(t, qs, f)
    {
      assert AnchoredAt(t, roles, f);
    }
  }

  /** An entry of a table is one that some walk reads. */
  lemma EntryMapped(t: Tables, roles: Roles, roots: set<nat>, f: nat, k: nat, gone: set<nat>)
    requires Tree(t, roles, roots) && IsTable(roles, f) && TableOk(t, roles, roots, f)
    requires k < Span(roles[f].level) && t[f][k].Entry?
    requires forall g :: g in gone && g in roles ==> roles[g] == DataFrame
    requires forall s, v: nat :: s in roots && v < USER_PAGES && Lookup(t, s, v).Entry? ==>
             Lookup(t, s, v).frame !in gone
    ensures t[f][k].frame !in gone
  {
    if roles[f].level == 1 {
      var v := 512 * roles[f].prefix + k;
      LeafEntry(t, roles, roots, f, k);
      assert Lookup(t, roles[f].space, v) == t[f][k];
    } else {
      assert roles[t[f][k].frame] == ChildRole(roles, f, k);
    }
  }

  lemma LeafEntry(t: Tables, roles: Roles, roots: set<nat>, f: nat, k: nat)
    requires Tree(t, roles, roots) && IsTable(roles, f) && TableOk(t, roles, roots, f) && roles[f].level == 1 && k < 512
    ensures 512 * roles[f].prefix + k < USER_PAGES
    ensures Lookup(t, roles[f].space, 512 * roles[f].prefix + k) == t[f][k]
  {
    var v := 512 * roles[f].prefix + k;
    assert Pre(v, 1) == v / 512;
    Digits(v);
    AnchoredWalk(t, roles, roots, f, v);
  }

  /** The tables translate as `m` says, except that `j` pages from `first` on were unmapped. */
  ghost predicate AgreesBut(t: Tables, m: Mapping, roots: set<nat>, s: nat, first: nat, j: nat) {
    forall q, w: nat :: q in roots && w < USER_PAGES ==>
      Lookup(t, q, w) == if q == s && first <= w < first + j then Absent else At(m, q, w)
  }

  lemma ClearNext(t: Tables, u: Tables, m: Mapping, roots: set<nat>, s: nat, first: nat, j: nat)
    requires AgreesBut(t, m, roots, s, first, j) && SetAt(t, u, roots, s, first + j, Absent)
    ensures AgreesBut(u, m, roots, s, first, j + 1)
  {
    forall q, w: nat | q in roots && w < USER_PAGES
      ensures Lookup(u, q, w) == if q == s && first <= w < first + j + 1 then Absent else At(m, q, w)
    {
      assert Lookup(u, q, w) == if q == s && w == first + j then Absent else Lookup(t, q, w);
    }
  }

  lemma ClearedAll(t: Tables, pt: Mapping, roots: set<nat>, s: nat, first: nat, flags: Flags, frames: seq<nat>)
    requires AgreesBut(t, MapRange(pt, s, first, flags, frames), roots, s, first, |frames|)
    requires forall v: nat :: first <= v < first + |frames| ==> (s, v) !in pt
    ensures Agrees(t, pt, roots)
  {
    forall q, w: nat | q in roots && w < USER_PAGES
      ensures Lookup(t, q, w) == At(pt, q, w)
    {
      MapRangeAt(pt, s, first, flags, frames, (q, w));
    }
  }

  /** The failing path: the pages are unmapped again, their frames are not given back. */
  lemma LeakView(a: Snapshot, b: Snapshot, spaces: map<nat, Space>, pt: Mapping, frames: seq<nat>, fill: seq<Page>)
    requires TookIn(a, b, ToSet(frames)) && Filled(a.roles, a.pages, b.pages, frames, fill)
    requires forall f :: f in a.roles ==> f < |a.pages| && f < |a.counts|
    ensures ViewOf(spaces, pt, b.roles - ToSet(frames), b.counts, b.pages) == ViewAt(spaces, pt, a)
  {
    var roles := b.roles - ToSet(frames);
    assert CountsOf(roles, b.counts) == CountsOf(a.roles, a.counts);
    assert PagesOf(roles, b.pages) == PagesOf(a.roles, a.pages);
  }

  lemma Unmapped(a: State, s: nat, first: nat, n: nat)
    requires Base(a) && s in a.spaces
    requires forall v: nat :: first <= v < first + n ==> !Covered(a.spaces[s].regions, v)
    ensures forall v: nat :: first <= v < first + n ==> (s, v) !in a.pt
  {
    assert TiledSpace(a.spaces[s], a.pt, s);
  }

  /** A snapshot whose tables, roles, counts and pages show the flat state `c`. */
  ghost predicate Shown(b: Snapshot, c: State, top: Table, total: nat) {
    && Sound(b, c.spaces.Keys, top, total)
    && Agrees(b.tables, c.pt, c.spaces.Keys)
    && ViewAt(c.spaces, c.pt, b) == c
  }

  ghost predicate Settled(b: Snapshot, c: State, top: Table, total: nat) {
    Shown(b, c, top, total) && Inv(c)
  }

  lemma AllocSettled(a: Snapshot, b: Snapshot, spaces: map<nat, Space>, pt: Mapping, s: nat, first: nat, flags: Flags,
                     frames: seq<nat>, fill: seq<Page>, top: Table, total: nat)
    requires Settled(a, ViewAt(spaces, pt, a), top, total) && Sound(b, spaces.Keys, top, total) && s in spaces
    requires Progress(a, b, pt, spaces.Keys, s, first, flags, frames, fill)
    requires |frames| > 0 && first + |frames| <= USER_PAGES && Cow !in flags && Mmio !in flags
    requires forall v: nat :: first <= v < first + |frames| ==> !Covered(spaces[s].regions, v)
    ensures AllocOk(ViewAt(spaces, pt, a), s, first, flags, frames, fill)
    ensures Settled(b, DoAlloc(ViewAt(spaces, pt, a), s, first, flags, frames, fill), top, total)
  {
    ProgressFresh(a, b, pt, spaces.Keys, s, first, flags, frames, fill, spaces);
    AllocKeeps(ViewAt(spaces, pt, a), s, first, flags, frames, fill);
    ProgressView(a, b, spaces, pt, spaces.Keys, s, first, flags, frames, fill, top, total);
    var c := DoAlloc(ViewAt(spaces, pt, a), s, first, flags, frames, fill);
    assert c.spaces.Keys == spaces.Keys;
    assert c.pt == MapRange(pt, s, first, flags, frames);
  }

  /** The failing path ends where it began, with fewer free frames. */
  lemma LeakSettled(a: Snapshot, b: Snapshot, spaces: map<nat, Space>, pt: Mapping, frames: seq<nat>, fill: seq<Page>,
                    top: Table, total: nat)
    requires Settled(a, ViewAt(spaces, pt, a), top, total) && Sound(b, spaces.Keys, top, total)
    requires Agrees(b.tables, pt, spaces.Keys)
    requires TookIn(a, b.(tables := a.tables), ToSet(frames)) && Filled(a.roles, a.pages, b.pages, frames, fill)
    ensures Settled(b.(roles := b.roles - ToSet(frames)), ViewAt(spaces, pt, a), top, total)
  {
    LeakView(a, b, spaces, pt, frames, fill);
    forall s, v: nat | s in spaces && v < USER_PAGES && Lookup(b.tables, s, v).Entry?
      ensures Lookup(b.tables, s, v).frame !in ToSet(frames)
    {
      assert Lookup(b.tables, s, v) == pt[(s, v)];
      assert pt[(s, v)].frame in CountsOf(a.roles, a.counts);
    }
    DropData(b.tables, b.roles, spaces.Keys, top, total, ToSet(frames));
  }

  // ---------- taking pages and tables out ----------

  /** Empty tables were cut off and given back; every page translates as before. */
  ghost predicate Shrunk(a: Snapshot, b: Snapshot, roots: set<nat>) {
    && SameTranslation(a.tables, b.tables, roots) && b.pages == a.pages
    && (forall f :: f in b.roles ==> f in a.roles && b.roles[f] == a.roles[f])
    && (forall f :: f in a.roles && f !in b.roles ==> a.roles[f].TableFrame?)
    && b.free + b.roles.Keys == a.free + a.roles.Keys
    && |b.counts| == |a.counts| && forall i :: i in b.roles && i < |a.counts| ==> b.counts[i] == a.counts[i]
  }

  lemma ShrunkThen(a: Snapshot, b: Snapshot, c: Snapshot, roots: set<nat>)
    requires Shrunk(a, b, roots) && Shrunk(b, c, roots)
    ensures Shrunk(a, c, roots)
  {
  }

  lemma NotShrunk(a: Snapshot, roots: set<nat>)
    ensures Shrunk(a, a, roots)
  {
  }

  /** Cutting off the empty table `g` behind entry `k` of `f`. */
  lemma PruneSound(a: Snapshot, b: Snapshot, roots: set<nat>, top: Table, total: nat, f: nat, k: nat, g: nat)
    requires Sound(a, roots, top, total) && Prunable(a.tables, a.roles, roots, f, k, g)
    requires b.tables == SetEntry(a.tables, f, k, Absent) && b.roles == a.roles - {g} && b.free == a.free + {g}
    requires b.pages == a.pages && |b.counts| == |a.counts|
    requires forall i :: 0 <= i < |a.counts| && i != g ==> b.counts[i] == a.counts[i]
    ensures Sound(b, roots, top, total) && Shrunk(a, b, roots)
    ensures TightBut(a.tables, a.roles, g) ==> TightBut(b.tables, b.roles, f)
  {
    PruneRole(a.tables, a.roles, roots, f, k, g);
    PruneTree(a.tables, a.roles, roots, f, k, g);
    forall s, v: nat | s in roots && v < USER_PAGES
      ensures Lookup(b.tables, s, v) == Lookup(a.tables, s, v)
    {
      PruneLookup(a.tables, a.roles, roots, f, k, g, s, v);
    }
    if TightBut(a.tables, a.roles, g) {
      PruneTight(a.tables, a.roles, f, k, g);
    }
    PruneUpper(a.tables, roots, top, f, k);
    assert b.free + b.roles.Keys == a.free + a.roles.Keys;
  }

  lemma PruneUpper(t: Tables, roots: set<nat>, top: Table, f: nat, k: nat)
    requires Upper(t, roots, top) && f < |t| && |t[f]| == 512 && k < 512 && (f in roots ==> k < 256)
    ensures Upper(SetEntry(t, f, k, Absent), roots, top)
  {
    var u := SetEntry(t, f, k, Absent);
    forall s | s in roots
      ensures |u[s]| == 512 && u[s][256..] == top
    {
      if s == f {
        assert u[s][256..] == t[s][256..];
      }
    }
  }

  /** Page `v` was unmapped, its frame counted down and, at 0, given back. */
  ghost predicate PageDropped(a: Snapshot, b: Snapshot, roots: set<nat>, s: nat, v: nat, f: nat) {
    && SetAt(a.tables, b.tables, roots, s, v, Absent) && b.pages == a.pages
    && |b.counts| == |a.counts| && f < |a.counts|
    && (forall g :: g in b.roles ==> g in a.roles && b.roles[g] == a.roles[g])
    && (forall g :: g in a.roles && g !in b.roles ==> a.roles[g].TableFrame? || (g == f && a.counts[f] <= 1))
    && (a.counts[f] <= 1 ==> f !in b.roles)
    && b.free + b.roles.Keys == a.free + a.roles.Keys
    && (forall i :: i in b.roles && i < |a.counts| && i != f ==> b.counts[i] == a.counts[i])
    && (f in b.roles ==> b.counts[f] == a.counts[f] - 1)
  }

  /** What the frame table does when the entry of `v` is cleared, before empty tables are cut off. */
  ghost predicate EntryDropped(a: Snapshot, b: Snapshot, h: nat, v: nat, f: nat) {
    && h < |a.tables| && |a.tables[h]| == 512
    && b.tables == SetEntry(a.tables, h, Index(v, 1), Absent) && b.pages == a.pages
    && |b.counts| == |a.counts| && f < |a.counts|
    && (forall i :: 0 <= i < |a.counts| && i != f ==> b.counts[i] == a.counts[i])
    && if a.counts[f] <= 1 then b.roles == a.roles - {f} && b.free == a.free + {f}
       else b.roles == a.roles && b.free == a.free && b.counts[f] == a.counts[f] - 1
  }

  lemma EntryDroppedSound(a: Snapshot, b: Snapshot, c: State, top: Table, total: nat, h: nat, s: nat, v: nat, f: nat)
    requires Shown(a, c, top, total) && Closed(c) && Exact(c) && s in c.spaces && v < USER_PAGES
    requires OnWalk(a.roles, h, s, v, 1) && (s, v) in c.pt && c.pt[(s, v)].frame == f && EntryDropped(a, b, h, v, f)
    ensures Sound(b, c.spaces.Keys, top, total) && PageDropped(a, b, c.spaces.Keys, s, v, f)
    ensures Tight(a.tables, a.roles) ==> TightBut(b.tables, b.roles, h)
    ensures OnWalk(b.roles, h, s, v, 1)
  {
    hide Agrees, Tree, Upper, Lookup, Closed, Exact, SetAt, NonEmpty;
    LeafSet(a.tables, a.roles, c.spaces.Keys, top, total, h, s, v, Absent);
    FrameIsData(a, c, top, total, (s, v));
    EntryMem(a, b, c, top, total, h, s, v, f);
    EntryRoles(a, b, c.spaces.Keys, top, total, h, s, v, f);
    DropTight(a, b, h, f);
  }

  lemma EntryMem(a: Snapshot, b: Snapshot, c: State, top: Table, total: nat, h: nat, s: nat, v: nat, f: nat)
    requires Agrees(a.tables, c.pt, c.spaces.Keys) && Exact(c) && Closed(c)
    requires (s, v) in c.pt && c.pt[(s, v)].frame == f && EntryDropped(a, b, h, v, f) && f in a.roles
             && a.roles[f] == DataFrame
    requires a.counts[f] == c.rc[f] && SetAt(a.tables, b.tables, c.spaces.Keys, s, v, Absent)
    requires Mem(b.tables, a.roles, c.spaces.Keys, top, total)
    ensures Mem(b.tables, b.roles, c.spaces.Keys, top, total)
  {
    hide Tree, Upper, Lookup, Tight, TightBut, NonEmpty;
    if a.counts[f] <= 1 {
      LoneMapper(c.rc, c.pt, (s, v));
      Unreferenced(a.tables, b.tables, c.pt, c.spaces.Keys, s, v, f);
      DropData(b.tables, a.roles, c.spaces.Keys, top, total, {f});
    }
  }

  lemma Unreferenced(t: Tables, u: Tables, pt: Mapping, roots: set<nat>, s: nat, v: nat, f: nat)
    requires Agrees(t, pt, roots) && SetAt(t, u, roots, s, v, Absent) && Mappers(pt, f) == {(s, v)}
    ensures forall q, w: nat :: q in roots && w < USER_PAGES && Lookup(u, q, w).Entry? ==> Lookup(u, q, w).frame !in {f}
  {
    forall q, w: nat | q in roots && w < USER_PAGES && Lookup(u, q, w).Entry?
      ensures Lookup(u, q, w).frame != f
    {
      assert Lookup(u, q, w) == pt[(q, w)];
      assert pt[(q, w)].frame == f ==> (q, w) in Mappers(pt, f);
    }
  }

  lemma EntryRoles(a: Snapshot, b: Snapshot, roots: set<nat>, top: Table, total: nat, h: nat, s: nat, v: nat, f: nat)
    requires Sound(a, roots, top, total) && EntryDropped(a, b, h, v, f) && f in a.roles && f < total
    requires Mem(b.tables, b.roles, roots, top, total) && SetAt(a.tables, b.tables, roots, s, v, Absent)
    ensures Sound(b, roots, top, total) && PageDropped(a, b, roots, s, v, f)
  {
    assert b.free + b.roles.Keys == a.free + a.roles.Keys;
  }

  lemma DropTight(a: Snapshot, b: Snapshot, h: nat, f: nat)
    requires forall g :: g in b.roles ==> g in a.roles && b.roles[g] == a.roles[g]
    requires Tight(a.tables, a.roles) ==> TightBut(b.tables, a.roles, h)
    ensures Tight(a.tables, a.roles) ==> TightBut(b.tables, b.roles, h)
  {
  }

  lemma FrameIsData(a: Snapshot, c: State, top: Table, total: nat, x: Slot)
    requires Shown(a, c, top, total) && Closed(c) && x in c.pt
    ensures c.pt[x].Entry? && c.pt[x].frame in a.roles && a.roles[c.pt[x].frame] == DataFrame
            && c.pt[x].frame < |a.counts|
    ensures c.rc[c.pt[x].frame] == a.counts[c.pt[x].frame]
  {
    assert c.pt[x].frame in CountsOf(a.roles, a.counts);
  }

  lemma DroppedThenShrunk(a: Snapshot, b: Snapshot, d: Snapshot, roots: set<nat>, s: nat, v: nat, f: nat)
    requires PageDropped(a, b, roots, s, v, f) && Shrunk(b, d, roots) && f in a.roles && a.roles[f] == DataFrame
    ensures PageDropped(a, d, roots, s, v, f)
  {
  }

  lemma DroppedCounts(a: Snapshot, b: Snapshot, roots: set<nat>, s: nat, v: nat, f: nat)
    requires PageDropped(a, b, roots, s, v, f) && f in a.roles && a.roles[f] == DataFrame && |a.pages| == |a.counts|
    ensures CountsOf(b.roles, b.counts) == DropCounts(CountsOf(a.roles, a.counts), {f})
    ensures PagesOf(b.roles, b.pages) == PagesOf(a.roles, a.pages) - Gone(CountsOf(a.roles, a.counts), {f})
  {
  }

  lemma OneFrame(pt: Mapping, s: nat, v: nat)
    requires (s, v) in pt && pt[(s, v)].Entry?
    ensures FramesIn(pt, s, Region(v, 1, {})) == {pt[(s, v)].frame}
  {
    forall x: Slot | x in pt && x.0 == s && Region(v, 1, {}).Covers(x.1)
      ensures x == (s, v)
    {
    }
  }

  lemma AgreesUnmap(t: Tables, u: Tables, pt: Mapping, roots: set<nat>, s: nat, v: nat)
    requires Agrees(t, pt, roots) && SetAt(t, u, roots, s, v, Absent)
    ensures Agrees(u, Unmap(pt, s, Region(v, 1, {})), roots)
  {
    forall q, w: nat | q in roots && w < USER_PAGES
      ensures Lookup(u, q, w) == At(Unmap(pt, s, Region(v, 1, {})), q, w)
    {
      UnmapAt(pt, s, Region(v, 1, {}), (q, w));
    }
  }

  /** Reclaiming a page is dropping a range of one page. */
  lemma DroppedShown(a: Snapshot, b: Snapshot, c: State, top: Table, total: nat, s: nat, v: nat, f: nat)
    requires Shown(a, c, top, total) && Closed(c) && Sound(b, c.spaces.Keys, top, total)
    requires (s, v) in c.pt && c.pt[(s, v)].frame == f && PageDropped(a, b, c.spaces.Keys, s, v, f)
    ensures Shown(b, DropRange(c, s, Region(v, 1, {})), top, total)
  {
    FrameIsData(a, c, top, total, (s, v));
    OneFrame(c.pt, s, v);
    DroppedCounts(a, b, c.spaces.Keys, s, v, f);
    AgreesUnmap(a.tables, b.tables, c.pt, c.spaces.Keys, s, v);
  }

  /** The tables on one walk point to each other. */
  lemma WalkEntry(t: Tables, roles: Roles, roots: set<nat>, f: nat, g: nat, s: nat, v: nat, l: nat)
    requires Tree(t, roles, roots) && v < USER_PAGES && 2 <= l <= 4
    requires OnWalk(roles, f, s, v, l) && OnWalk(roles, g, s, v, l - 1)
    ensures f < |t| && |t[f]| == 512 && g < |t| && |t[g]| == 512 && Index(v, l) < Span(l)
    ensures EntryAt(t, f, Index(v, l)).Entry? && EntryAt(t, f, Index(v, l)).frame == g
  {
    assert TableOk(t, roles, roots, f) && TableOk(t, roles, roots, g);
    AnchoredWalk(t, roles, roots, f, v);
    AnchoredWalk(t, roles, roots, g, v);
    StepDown(t, roles, roots, f, s, v, l);
  }

  lemma Emptied(t: Tables, roles: Roles, roots: set<nat>, f: nat, k: nat, g: nat)
    requires Tree(t, roles, roots) && IsTable(roles, f) && roles[f].level > 1 && k < Span(roles[f].level)
    requires f < |t| && |t[f]| == 512 && g < |t| && |t[g]| == 512 && EntryAt(t, f, k).Entry?
             && EntryAt(t, f, k).frame == g
    requires !NonEmpty(t, g)
    ensures Prunable(t, roles, roots, f, k, g)
  {
    assert TableOk(t, roles, roots, f);
    forall j | 0 <= j < 512
      ensures EntryAt(t, g, j) == Absent
    {
      if EntryAt(t, g, j).Entry? {
        assert NonEmpty(t, g);
      }
    }
  }

  /** Above a table of level 1 the whole walk is there. */
  lemma WalkUp(t: Tables, roles: Roles, roots: set<nat>, h: nat, s: nat, v: nat, l: nat)
    requires Tree(t, roles, roots) && s in roots && v < USER_PAGES && l == 1 && OnWalk(roles, h, s, v, 1)
    ensures WalkTo(t, s, v, 2).Some? && WalkTo(t, s, v, 3).Some?
    ensures OnWalk(roles, WalkTo(t, s, v, 2).value, s, v, 2) && OnWalk(roles, WalkTo(t, s, v, 3).value, s, v, 3)
  {
    assert TableOk(t, roles, roots, h);
    AnchoredWalk(t, roles, roots, h, v);
    WalkRole(t, roles, roots, s, v, 2);
    WalkRole(t, roles, roots, s, v, 3);
  }

  lemma RootLevel(roles: Roles, s: nat, t: Tables)
    requires IsTable(roles, s) && roles[s].level == 4
    ensures TightBut(t, roles, s) ==> Tight(t, roles)
  {
  }

  /** Unmapping a page that is not mapped changes nothing. */
  lemma NothingDropped(a: State, s: nat, v: nat)
    requires (s, v) !in a.pt
    ensures DropRange(a, s, Region(v, 1, {})) == a
  {
    var r := Region(v, 1, {});
    forall x: Slot | x.0 == s && r.Covers(x.1)
      ensures x !in a.pt
    {
      assert x == (s, v);
    }
    assert FramesIn(a.pt, s, r) == {};
    assert Unmap(a.pt, s, r) == a.pt;
    assert DropCounts(a.rc, {}) == a.rc;
    assert Gone(a.rc, {}) == {};
    assert a.pages - {} == a.pages;
  }

  lemma WalkHolds(t: Tables, roles: Roles, roots: set<nat>, s: nat, v: nat, h: nat)
    requires Tree(t, roles, roots) && s in roots && v < USER_PAGES && WalkTo(t, s, v, 1) == Some(h)
    ensures OnWalk(roles, h, s, v, 1) && h < |t| && |t[h]| == 512
  {
    WalkRole(t, roles, roots, s, v, 1);
    assert TableOk(t, roles, roots, h);
  }

  /** The flat mapping in the middle of `vmm_space_free`: the region list is behind, the rest is exact. */
  ghost predicate Midway(a: Snapshot, c: State, top: Table, total: nat) {
    Shown(a, c, top, total) && Closed(c) && OnePage(c.pt) && Exact(c)
  }

  /** No frame was lost, and no table was left empty. */
  ghost predicate Kept(a: Snapshot, b: Snapshot) {
    && b.free + b.roles.Keys == a.free + a.roles.Keys
    && (Tight(a.tables, a.roles) ==> Tight(b.tables, b.roles))
  }

  lemma MidwayNext(a: Snapshot, b: Snapshot, c: State, top: Table, total: nat, s: nat, v: nat, f: nat)
    requires Midway(a, c, top, total) && Sound(b, c.spaces.Keys, top, total)
    requires (s, v) in c.pt && c.pt[(s, v)].frame == f && PageDropped(a, b, c.spaces.Keys, s, v, f)
    ensures Midway(b, DropRange(c, s, Region(v, 1, {})), top, total)
    ensures b.free + b.roles.Keys == a.free + a.roles.Keys && Subroles(b.roles, a.roles)
  {
    DroppedShown(a, b, c, top, total, s, v, f);
    DropClosed(c, s, Region(v, 1, {}));
  }

  lemma AgreesAt(t: Tables, pt: Mapping, roots: set<nat>, s: nat, v: nat)
    requires Agrees(t, pt, roots) && s in roots && v < USER_PAGES
    ensures Lookup(t, s, v) == At(pt, s, v)
  {
  }

  lemma RegionInUserHalf(c: State, s: nat, k: nat)
    requires Tiled(c) && s in c.spaces && k < |c.spaces[s].regions|
    ensures c.spaces[s].regions[k].End() <= USER_PAGES
  {
    assert TiledSpace(c.spaces[s], c.pt, s);
  }

  lemma DropNone(c: State, s: nat, first: nat)
    ensures DropRange(c, s, Region(first, 0, {})) == c
  {
    var r := Region(first, 0, {});
    assert FramesIn(c.pt, s, r) == {};
    assert Unmap(c.pt, s, r) == c.pt;
    assert DropCounts(c.rc, {}) == c.rc;
    assert Gone(c.rc, {}) == {};
    assert c.pages - {} == c.pages;
  }

  /** Region flags do not matter to what is unmapped. */
  lemma DropFlags(c: State, s: nat, r: Region)
    ensures DropRange(c, s, Region(r.first, r.pages, {})) == DropRange(c, s, r)
  {
    var q := Region(r.first, r.pages, {});
    assert FramesIn(c.pt, s, q) == FramesIn(c.pt, s, r);
    assert Unmap(c.pt, s, q) == Unmap(c.pt, s, r);
  }

  /** All pages dropped and the node unlinked: the region is freed. */
  lemma FreeSettled(c: State, b: Snapshot, s: nat, k: nat, top: Table, total: nat)
    requires Inv(c) && s in c.spaces && k < |c.spaces[s].regions|
    requires Midway(b, DropRange(c, s, Region(c.spaces[s].regions[k].first, c.spaces[s].regions[k].pages, {})), top,
             total)
    ensures Settled(b, DoFree(c, s, k), top, total)
    ensures DoFree(c, s, k).pt == Unmap(c.pt, s, c.spaces[s].regions[k])
    ensures DoFree(c, s, k).spaces == c.spaces[s := UnlinkRegion(c.spaces[s], k)]
  {
    DropFlags(c, s, c.spaces[s].regions[k]);
    FreeKeeps(c, s, k);
    assert c.spaces[s := UnlinkRegion(c.spaces[s], k)].Keys == c.spaces.Keys;
  }

  /** A complete walk, entry by entry. */
  lemma WalkChain(t: Tables, s: nat, v: nat)
    requires WalkTo(t, s, v, 1).Some?
    ensures EntryAt(t, s, Index(v, 4)).Entry?
    ensures EntryAt(t, EntryAt(t, s, Index(v, 4)).frame, Index(v, 3)).Entry?
    ensures EntryAt(t, EntryAt(t, EntryAt(t, s, Index(v, 4)).frame, Index(v, 3)).frame, Index(v, 2)).Entry?
  {
    assert WalkTo(t, s, v, 2).Some?;
    assert WalkTo(t, s, v, 3).Some?;
    assert WalkTo(t, s, v, 4) == Some(s);
  }

  lemma LookupChain(t: Tables, s: nat, v: nat)
    ensures Lookup(t, s, v).Entry? ==> WalkTo(t, s, v, 1).Some?
  {
  }
}
