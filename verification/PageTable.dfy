/** The four-level page table in physical memory, and the three edits the kernel makes to it: hang an
    empty table into an absent entry, write a last-level entry, cut an empty table off. */
module PageTable {
  import opened Layout

  type Table = seq<Entry>
  /** What physical memory holds, frame by frame, when read as tables. */
  type Tables = seq<Table>

  /** A page of zeros, read as a table. */
  function Blank(): (t: Table)
    ensures |t| == 512 && forall k :: 0 <= k < 512 ==> t[k] == Absent
  {
    seq(512, _ => Absent)
  }

  /** What a frame is used for: a table of a space, with the page-number prefix it translates and the
      table that points to it, or user data. Space and root table share one frame number. */
  datatype Role = TableFrame(space: nat, level: nat, prefix: nat, parent: nat) | DataFrame
  type Roles = map<nat, Role>

  /** `v` without its `l` lowest 9-bit digits: the prefix a table of level `l` is reached by. */
  function Pre(v: nat, l: nat): nat {
    if l == 0 then v else Pre(v, l - 1) / 512
  }

  /** The entry index used at level `l`: bits 12+9(l-1) .. 12+9l-1 of the address. */
  function Index(v: nat, l: nat): nat
    requires l > 0
  {
    Pre(v, l - 1) % 512
  }

  /** Entries of a root table from 256 up are the kernel's. */
  function Span(level: nat): nat { if level == 4 then 256 else 512 }

  /** How many prefixes a level has in the user half. */
  function Width(level: nat): nat {
    if level >= 4 then 1
    else if level == 3 then 256
    else if level == 2 then 0x2_0000
    else 0x400_0000
  }

  function EntryAt(t: Tables, f: nat, k: nat): Entry {
    if f < |t| && k < |t[f]| then t[f][k] else Absent
  }

  function SetEntry(t: Tables, f: nat, k: nat, e: Entry): Tables
    requires f < |t| && k < |t[f]|
  {
    t[f := t[f][k := e]]
  }

  /** The table of level `l` on the walk for page `v`. */
  function WalkTo(t: Tables, root: nat, v: nat, l: nat): Option<nat>
    requires 1 <= l <= 4
    decreases 4 - l
  {
    if l == 4 then Some(root)
    else match WalkTo(t, root, v, l + 1)
      case None => None
      case Some(f) =>
        match EntryAt(t, f, Index(v, l + 1))
        case Absent => None
        case Entry(g, _, _, _) => Some(g)
  }

  /** `pte_lookup`: the last-level entry, if every level is present. */
  function Lookup(t: Tables, root: nat, v: nat): Entry {
    match WalkTo(t, root, v, 1)
    case None => Absent
    case Some(f) => EntryAt(t, f, Index(v, 1))
  }

  // ---------- shape ----------

  predicate IsTable(roles: Roles, f: nat) {
    f in roles && roles[f].TableFrame?
  }

  /** The role an entry at index `k` of table `f` requires of the frame it points to. */
  function ChildRole(roles: Roles, f: nat, k: nat): Role
    requires IsTable(roles, f)
  {
    var r := roles[f];
    if r.level > 1 then TableFrame(r.space, r.level - 1, 512 * r.prefix + k, f) else DataFrame
  }

  ghost predicate TableOk(t: Tables, roles: Roles, roots: set<nat>, f: nat)
    requires IsTable(roles, f)
  {
    && f < |t| && |t[f]| == 512
    && 1 <= roles[f].level <= 4 && roles[f].space in roots && roles[f].prefix < Width(roles[f].level)
    && (roles[f].level == 4 <==> f in roots) && (roles[f].level == 4 ==> roles[f] == TableFrame(f, 4, 0, f))
    && forall k :: 0 <= k < Span(roles[f].level) && t[f][k].Entry? ==>
         && t[f][k].frame in roles && roles[t[f][k].frame] == ChildRole(roles, f, k)
         && (roles[f].level > 1 ==> t[f][k].writable && t[f][k].user && !t[f][k].noExec)
  }

  /** Every entry of every table points to a frame whose role names this table and entry as the only way in. */
  ghost predicate Shape(t: Tables, roles: Roles, roots: set<nat>) {
    && (forall s :: s in roots ==> s in roles && roles[s] == TableFrame(s, 4, 0, s))
    && (forall f :: IsTable(roles, f) ==> TableOk(t, roles, roots, f))
  }

  /** A walk meets only tables of its own space, with the prefix of its page. */
  lemma {:induction false} WalkRole(t: Tables, roles: Roles, roots: set<nat>, s: nat, v: nat, l: nat)
    requires Shape(t, roles, roots) && s in roots && v < USER_PAGES && 1 <= l <= 4
    requires WalkTo(t, s, v, l).Some?
    ensures var f := WalkTo(t, s, v, l).value;
            IsTable(roles, f) && roles[f].space == s && roles[f].level == l && roles[f].prefix == Pre(v, l)
    ensures Index(v, l) < Span(l)
    decreases 4 - l
  {
    Digits(v);
    if l < 4 {
      WalkRole(t, roles, roots, s, v, l + 1);
      var f := WalkTo(t, s, v, l + 1).value;
      assert TableOk(t, roles, roots, f);
    }
  }

  lemma Digits(v: nat)
    requires v < USER_PAGES
    ensures Pre(v, 4) == 0 && Pre(v, 3) < 256
    ensures forall l :: 1 <= l <= 4 ==> Pre(v, l - 1) == 512 * Pre(v, l) + Index(v, l)
  {
    assert Pre(v, 1) == v / 512;
    assert Pre(v, 2) == v / 512 / 512;
    assert Pre(v, 3) == v / 512 / 512 / 512;
    assert Pre(v, 4) == v / 512 / 512 / 512 / 512;
  }

  /** Level by level the index is nine bits of the address: from bit 39, 30, 21 and 12 up. */
  lemma IndexBits(va: nat)
    requires va / PAGE_SIZE < USER_PAGES
    ensures Index(va / PAGE_SIZE, 4) == va / 0x80_0000_0000 % 512 && Index(va / PAGE_SIZE, 3) == va / 0x4000_0000 % 512
    ensures Index(va / PAGE_SIZE, 2) == va / 0x20_0000 % 512 && Index(va / PAGE_SIZE, 1) == va / 0x1000 % 512
  {
    var v := va / PAGE_SIZE;
    assert v / 512 == va / 0x20_0000;
    assert v / 512 / 512 == va / 0x4000_0000;
    assert v / 512 / 512 / 512 == va / 0x80_0000_0000;
    assert Pre(v, 1) == v / 512;
    assert Pre(v, 2) == v / 512 / 512;
    assert Pre(v, 3) == v / 512 / 512 / 512;
  }

  /** Every table below a root hangs in the table its role names. */
  ghost predicate Anchored(t: Tables, roles: Roles) {
    forall g :: IsTable(roles, g) && roles[g].level < 4 ==> AnchoredAt(t, roles, g)
  }

  ghost predicate AnchoredAt(t: Tables, roles: Roles, g: nat)
    requires IsTable(roles, g)
  {
    var f, k := roles[g].parent, roles[g].prefix % 512;
    IsTable(roles, f) && roles[g] == ChildRole(roles, f, k) && EntryAt(t, f, k).Entry? && EntryAt(t, f, k).frame == g
  }

  ghost predicate Tree(t: Tables, roles: Roles, roots: set<nat>) {
    Shape(t, roles, roots) && Anchored(t, roles)
  }

  /** No table is lost: the walk for any page with its prefix reaches it. */
  lemma {:induction false} AnchoredWalk(t: Tables, roles: Roles, roots: set<nat>, g: nat, v: nat)
    requires Tree(t, roles, roots) && IsTable(roles, g) && v < USER_PAGES
    requires TableOk(t, roles, roots, g) && Pre(v, roles[g].level) == roles[g].prefix
    ensures WalkTo(t, roles[g].space, v, roles[g].level) == Some(g)
    decreases 4 - roles[g].level
  {
    var l := roles[g].level;
    if l < 4 {
      assert AnchoredAt(t, roles, g);
      var f := roles[g].parent;
      Digits(v);
      assert TableOk(t, roles, roots, f);
      AnchoredWalk(t, roles, roots, f, v);
    }
  }

  // ---------- one entry changes ----------

  /** Page `v` of space `s` is translated through entry `k` of table `f`. */
  predicate Through(roles: Roles, f: nat, k: nat, s: nat, v: nat)
    requires IsTable(roles, f)
  {
    roles[f].space == s && roles[f].level > 0 && Pre(v, roles[f].level - 1) == 512 * roles[f].prefix + k
  }

  lemma ReadWrite(t: Tables, f: nat, k: nat, e: Entry, g: nat, j: nat)
    requires f < |t| && k < |t[f]|
    ensures EntryAt(SetEntry(t, f, k, e), g, j) == if g == f && j == k then e else EntryAt(t, g, j)
  {
  }

  /** The entry a walk reads at level `l` is entry `k` of `f` only for a page translated through it. */
  lemma OnlyThrough(t: Tables, roles: Roles, roots: set<nat>, f: nat, s: nat, v: nat, l: nat)
    requires Shape(t, roles, roots) && IsTable(roles, f) && s in roots && v < USER_PAGES && 1 <= l <= 4
    requires WalkTo(t, s, v, l) == Some(f)
    ensures roles[f].level == l && Through(roles, f, Index(v, l), s, v)
  {
    WalkRole(t, roles, roots, s, v, l);
    Digits(v);
  }

  /** Rewriting an entry cannot divert the walk of a page that is not translated through it. */
  lemma {:induction false} WriteWalk(t: Tables, roles: Roles, roots: set<nat>, f: nat, k: nat, e: Entry, s: nat,
      v: nat, l: nat)
    requires Shape(t, roles, roots) && IsTable(roles, f) && k < 512 && s in roots && v < USER_PAGES && 1 <= l <= 4
    requires f < |t| && |t[f]| == 512
    requires l >= roles[f].level || !Through(roles, f, k, s, v)
    ensures WalkTo(SetEntry(t, f, k, e), s, v, l) == WalkTo(t, s, v, l)
    decreases 4 - l
  {
    if l < 4 {
      WriteWalk(t, roles, roots, f, k, e, s, v, l + 1);
      if WalkTo(t, s, v, l + 1).Some? {
        var h := WalkTo(t, s, v, l + 1).value;
        if h == f {
          OnlyThrough(t, roles, roots, f, s, v, l + 1);
        }
        ReadWrite(t, f, k, e, h, Index(v, l + 1));
      }
    }
  }

  lemma WriteLookup(t: Tables, roles: Roles, roots: set<nat>, f: nat, k: nat, e: Entry, s: nat, v: nat)
    requires Shape(t, roles, roots) && IsTable(roles, f) && k < 512 && s in roots && v < USER_PAGES
    requires f < |t| && |t[f]| == 512
    requires !Through(roles, f, k, s, v)
    ensures Lookup(SetEntry(t, f, k, e), s, v) == Lookup(t, s, v)
  {
    WriteWalk(t, roles, roots, f, k, e, s, v, 1);
    if WalkTo(t, s, v, 1).Some? {
      var h := WalkTo(t, s, v, 1).value;
      if h == f {
        OnlyThrough(t, roles, roots, f, s, v, 1);
      }
      ReadWrite(t, f, k, e, h, Index(v, 1));
    }
  }

  /** Rewriting a frame that is no table changes no walk. */
  lemma {:induction false} ForeignWalk(t: Tables, roles: Roles, roots: set<nat>, g: nat, x: Table, s: nat, v: nat,
      l: nat)
    requires Shape(t, roles, roots) && g !in roles && g < |t| && s in roots && v < USER_PAGES && 1 <= l <= 4
    ensures WalkTo(t[g := x], s, v, l) == WalkTo(t, s, v, l)
    ensures l == 1 ==> Lookup(t[g := x], s, v) == Lookup(t, s, v)
    decreases 4 - l
  {
    if l < 4 {
      ForeignWalk(t, roles, roots, g, x, s, v, l + 1);
    }
    if WalkTo(t, s, v, l).Some? {
      WalkRole(t, roles, roots, s, v, l);
    }
    if l < 4 && WalkTo(t, s, v, l + 1).Some? {
      WalkRole(t, roles, roots, s, v, l + 1);
    }
  }

  lemma ForeignShape(t: Tables, roles: Roles, roots: set<nat>, g: nat, x: Table)
    requires Shape(t, roles, roots) && g !in roles && g < |t|
    ensures Shape(t[g := x], roles, roots)
  {
    forall f | IsTable(roles, f)
      ensures TableOk(t[g := x], roles, roots, f)
    {
      assert TableOk(t, roles, roots, f);
    }
  }

  // ---------- the three edits ----------

  /** Entry words for tables are present, writable, user. */
  function Link(g: nat): Entry { Entry(g, true, true, false) }

  /** An absent entry gets a fresh, empty table. */
  function Graft(t: Tables, f: nat, k: nat, g: nat): Tables
    requires f < |t| && k < |t[f]| && g < |t| && g != f
  {
    SetEntry(t[g := Blank()], f, k, Link(g))
  }

  ghost predicate Graftable(t: Tables, roles: Roles, roots: set<nat>, f: nat, k: nat, g: nat) {
    && Tree(t, roles, roots) && IsTable(roles, f) && roles[f].level > 1 && k < Span(roles[f].level)
    && f < |t| && |t[f]| == 512 && EntryAt(t, f, k) == Absent && g < |t| && g !in roles
  }

  function GraftRoles(roles: Roles, f: nat, k: nat, g: nat): Roles
    requires IsTable(roles, f)
  {
    roles[g := ChildRole(roles, f, k)]
  }

  lemma GraftShape(t: Tables, roles: Roles, roots: set<nat>, f: nat, k: nat, g: nat)
    requires Graftable(t, roles, roots, f, k, g)
    ensures Shape(Graft(t, f, k, g), GraftRoles(roles, f, k, g), roots)
  {
    var u, qs := Graft(t, f, k, g), GraftRoles(roles, f, k, g);
    assert TableOk(t, roles, roots, f);
    forall h | IsTable(qs, h)
      ensures TableOk(u, qs, roots, h)
    {
      if h != g {
        assert TableOk(t, roles, roots, h);
        GraftTableOk(t, roles, roots, f, k, g, h);
      }
    }
  }

  lemma GraftTableOk(t: Tables, roles: Roles, roots: set<nat>, f: nat, k: nat, g: nat, h: nat)
    requires Graftable(t, roles, roots, f, k, g) && IsTable(roles, h) && TableOk(t, roles, roots, h)
    ensures TableOk(Graft(t, f, k, g), GraftRoles(roles, f, k, g), roots, h)
  {
  }

  lemma GraftWalk(t: Tables, roles: Roles, roots: set<nat>, f: nat, k: nat, g: nat, s: nat, v: nat, l: nat)
    requires Graftable(t, roles, roots, f, k, g) && s in roots && v < USER_PAGES && 1 <= l <= 4
    requires l >= roles[f].level || !Through(roles, f, k, s, v)
    ensures WalkTo(Graft(t, f, k, g), s, v, l) == WalkTo(t, s, v, l)
    ensures l == 1 ==> Lookup(Graft(t, f, k, g), s, v) == Lookup(t, s, v)
  {
    ForeignShape(t, roles, roots, g, Blank());
    ForeignWalk(t, roles, roots, g, Blank(), s, v, l);
    WriteWalk(t[g := Blank()], roles, roots, f, k, Link(g), s, v, l);
    if l == 1 {
      WriteLookup(t[g := Blank()], roles, roots, f, k, Link(g), s, v);
    }
  }

  lemma ThroughWalk(t: Tables, roles: Roles, roots: set<nat>, f: nat, k: nat, s: nat, v: nat)
    requires Tree(t, roles, roots) && IsTable(roles, f) && s in roots && v < USER_PAGES && k < 512
    requires Through(roles, f, k, s, v)
    ensures 1 <= roles[f].level <= 4 && WalkTo(t, s, v, roles[f].level) == Some(f) && Index(v, roles[f].level) == k
  {
    assert TableOk(t, roles, roots, f);
    Digits(v);
    AnchoredWalk(t, roles, roots, f, v);
  }

  /** The new table is on the walk of the pages below it, and there is nothing in it yet. */
  lemma GraftBelow(t: Tables, roles: Roles, roots: set<nat>, f: nat, k: nat, g: nat, s: nat, v: nat)
    requires Graftable(t, roles, roots, f, k, g) && s in roots && v < USER_PAGES && Through(roles, f, k, s, v)
    ensures 2 <= roles[f].level <= 4 && WalkTo(Graft(t, f, k, g), s, v, roles[f].level - 1) == Some(g)
    ensures Lookup(t, s, v) == Absent && Lookup(Graft(t, f, k, g), s, v) == Absent
  {
    ThroughWalk(t, roles, roots, f, k, s, v);
    var l := roles[f].level;
    GraftWalk(t, roles, roots, f, k, g, s, v, l);
    var u := Graft(t, f, k, g);
    assert WalkTo(u, s, v, l - 1) == Some(g);
    DeadEnd(t, s, v, l, l - 1);
    if l > 2 {
      assert EntryAt(u, g, Index(v, l - 1)) == Absent;
      DeadEnd(u, s, v, l - 1, l - 2);
    }
  }

  /** A walk that meets an absent entry at level `l` ends there. */
  lemma {:induction false} DeadEnd(t: Tables, s: nat, v: nat, l: nat, j: nat)
    requires 1 < l <= 4 && 1 <= j < l
    requires WalkTo(t, s, v, l).None? || EntryAt(t, WalkTo(t, s, v, l).value, Index(v, l)) == Absent
    ensures WalkTo(t, s, v, j) == None && Lookup(t, s, v) == Absent
    decreases l + j
  {
    assert WalkTo(t, s, v, l - 1) == None;
    if j < l - 1 {
      DeadEnd(t, s, v, l - 1, j);
    } else if l > 2 {
      DeadEnd(t, s, v, l - 1, 1);
    }
  }

  /** Grafting an empty table changes no translation. */
  lemma GraftLookup(t: Tables, roles: Roles, roots: set<nat>, f: nat, k: nat, g: nat, s: nat, v: nat)
    requires Graftable(t, roles, roots, f, k, g) && s in roots && v < USER_PAGES
    ensures Lookup(Graft(t, f, k, g), s, v) == Lookup(t, s, v)
  {
    if Through(roles, f, k, s, v) {
      GraftBelow(t, roles, roots, f, k, g, s, v);
    } else {
      GraftWalk(t, roles, roots, f, k, g, s, v, 1);
    }
  }

  lemma GraftTree(t: Tables, roles: Roles, roots: set<nat>, f: nat, k: nat, g: nat)
    requires Graftable(t, roles, roots, f, k, g)
    ensures Tree(Graft(t, f, k, g), GraftRoles(roles, f, k, g), roots)
  {
    GraftShape(t, roles, roots, f, k, g);
    var u, qs := Graft(t, f, k, g), GraftRoles(roles, f, k, g);
    forall h | IsTable(qs, h) && qs[h].level < 4
      ensures AnchoredAt(u, qs, h)
    {
      if h != g {
        assert AnchoredAt(t, roles, h);
      }
    }
  }

  /** A last-level entry is set to a data frame, or cleared. */
  ghost predicate LeafWritable(t: Tables, roles: Roles, roots: set<nat>, f: nat, k: nat, e: Entry) {
    && Tree(t, roles, roots) && IsTable(roles, f) && roles[f].level == 1 && k < 512
    && f < |t| && |t[f]| == 512
    && (e.Entry? ==> e.frame in roles && roles[e.frame] == DataFrame)
  }

  lemma LeafTree(t: Tables, roles: Roles, roots: set<nat>, f: nat, k: nat, e: Entry)
    requires LeafWritable(t, roles, roots, f, k, e)
    ensures Tree(SetEntry(t, f, k, e), roles, roots)
  {
    var u := SetEntry(t, f, k, e);
    forall h | IsTable(roles, h)
      ensures TableOk(u, roles, roots, h)
      ensures roles[h].level < 4 ==> AnchoredAt(u, roles, h)
    {
      assert TableOk(t, roles, roots, h);
      assert roles[h].level < 4 ==> AnchoredAt(t, roles, h);
    }
  }

  /** The write is seen at exactly one page of one space. */
  lemma LeafLookup(t: Tables, roles: Roles, roots: set<nat>, f: nat, k: nat, e: Entry, s: nat, v: nat)
    requires LeafWritable(t, roles, roots, f, k, e) && s in roots && v < USER_PAGES
    ensures Lookup(SetEntry(t, f, k, e), s, v)
            == if s == roles[f].space && v == 512 * roles[f].prefix + k then e else Lookup(t, s, v)
  {
    if Through(roles, f, k, s, v) {
      ThroughWalk(t, roles, roots, f, k, s, v);
      WriteWalk(t, roles, roots, f, k, e, s, v, 1);
    } else {
      WriteLookup(t, roles, roots, f, k, e, s, v);
    }
  }

  /** An empty table is cut off: its entry is cleared and its frame leaves the tree. */
  ghost predicate Prunable(t: Tables, roles: Roles, roots: set<nat>, f: nat, k: nat, g: nat) {
    && Tree(t, roles, roots) && IsTable(roles, f) && roles[f].level > 1 && k < Span(roles[f].level)
    && f < |t| && |t[f]| == 512 && EntryAt(t, f, k).Entry? && EntryAt(t, f, k).frame == g
    && g < |t| && forall j :: 0 <= j < 512 ==> EntryAt(t, g, j) == Absent
  }

  lemma PruneRole(t: Tables, roles: Roles, roots: set<nat>, f: nat, k: nat, g: nat)
    requires Prunable(t, roles, roots, f, k, g)
    ensures IsTable(roles, g) && roles[g] == ChildRole(roles, f, k) && g !in roots
    ensures forall h, j ::
              IsTable(roles, h) && 0 <= j < Span(roles[h].level) && EntryAt(t, h, j).Entry?
              && EntryAt(t, h, j).frame == g
              ==> h == f && j == k
  {
    assert TableOk(t, roles, roots, f);
    assert TableOk(t, roles, roots, g);
    forall h, j: nat | IsTable(roles, h) && j < Span(roles[h].level) && EntryAt(t, h, j).Entry?
        && EntryAt(t, h, j).frame == g
      ensures h == f && j == k
    {
      assert TableOk(t, roles, roots, h);
      assert roles[g] == ChildRole(roles, h, j);
    }
  }

  lemma PruneTree(t: Tables, roles: Roles, roots: set<nat>, f: nat, k: nat, g: nat)
    requires Prunable(t, roles, roots, f, k, g)
    ensures Tree(SetEntry(t, f, k, Absent), roles - {g}, roots)
  {
    PruneRole(t, roles, roots, f, k, g);
    var u, qs := SetEntry(t, f, k, Absent), roles - {g};
    forall h | IsTable(qs, h)
      ensures TableOk(u, qs, roots, h)
    {
      PruneTableOk(t, roles, roots, f, k, g, h);
    }
    forall h | IsTable(qs, h) && qs[h].level < 4
      ensures AnchoredAt(u, qs, h)
    {
      PruneAnchor(t, roles, roots, f, k, g, h);
    }
  }

  lemma PruneTableOk(t: Tables, roles: Roles, roots: set<nat>, f: nat, k: nat, g: nat, h: nat)
    requires Prunable(t, roles, roots, f, k, g) && IsTable(roles, h) && h != g
    ensures TableOk(SetEntry(t, f, k, Absent), roles - {g}, roots, h)
  {
    PruneRole(t, roles, roots, f, k, g);
    assert TableOk(t, roles, roots, h);
    var u: Tables := SetEntry(t, f, k, Absent);
    var qs := roles - {g};
    forall j: nat | j < Span(roles[h].level) && u[h][j].Entry?
      ensures u[h][j].frame in qs && qs[u[h][j].frame] == ChildRole(qs, h, j)
    {
      ReadWrite(t, f, k, Absent, h, j);
      assert EntryAt(t, h, j) == u[h][j];
    }
  }

  lemma PruneAnchor(t: Tables, roles: Roles, roots: set<nat>, f: nat, k: nat, g: nat, h: nat)
    requires Prunable(t, roles, roots, f, k, g) && IsTable(roles, h) && h != g && roles[h].level < 4
    ensures IsTable(roles - {g}, h) && AnchoredAt(SetEntry(t, f, k, Absent), roles - {g}, h)
  {
    PruneRole(t, roles, roots, f, k, g);
    assert AnchoredAt(t, roles, h);
    var p, j := roles[h].parent, roles[h].prefix % 512;
    assert p != g;
    ReadWrite(t, f, k, Absent, p, j);
  }

  /** Cutting an empty table off changes no translation. */
  lemma PruneLookup(t: Tables, roles: Roles, roots: set<nat>, f: nat, k: nat, g: nat, s: nat, v: nat)
    requires Prunable(t, roles, roots, f, k, g) && s in roots && v < USER_PAGES
    ensures Lookup(SetEntry(t, f, k, Absent), s, v) == Lookup(t, s, v)
  {
    if Through(roles, f, k, s, v) {
      ThroughWalk(t, roles, roots, f, k, s, v);
      var l := roles[f].level;
      WriteWalk(t, roles, roots, f, k, Absent, s, v, l);
      ReadWrite(t, f, k, Absent, f, k);
      DeadEnd(SetEntry(t, f, k, Absent), s, v, l, l - 1);
      assert WalkTo(t, s, v, l - 1) == Some(g);
      if l > 2 {
        DeadEnd(t, s, v, l - 1, l - 2);
      }
    } else {
      WriteLookup(t, roles, roots, f, k, Absent, s, v);
    }
  }

  // ---------- no empty tables ----------

  ghost predicate NonEmpty(t: Tables, f: nat) {
    exists k :: 0 <= k < 512 && EntryAt(t, f, k).Entry?
  }

  /** No table below a root is empty, except possibly `f`. */
  ghost predicate TightBut(t: Tables, roles: Roles, f: nat) {
    forall g :: IsTable(roles, g) && roles[g].level < 4 && g != f ==> NonEmpty(t, g)
  }

  ghost predicate Tight(t: Tables, roles: Roles) {
    forall g :: IsTable(roles, g) && roles[g].level < 4 ==> NonEmpty(t, g)
  }

  lemma StillNonEmpty(t: Tables, f: nat, k: nat, e: Entry, g: nat)
    requires f < |t| && k < |t[f]| && NonEmpty(t, g) && (e.Entry? || g != f)
    ensures NonEmpty(SetEntry(t, f, k, e), g)
  {
    var j: nat :| j < 512 && EntryAt(t, g, j).Entry?;
    ReadWrite(t, f, k, e, g, j);
    assert EntryAt(SetEntry(t, f, k, e), g, j).Entry?;
  }

  lemma NowNonEmpty(t: Tables, f: nat, k: nat, e: Entry)
    requires f < |t| && k < |t[f]| && k < 512 && e.Entry?
    ensures NonEmpty(SetEntry(t, f, k, e), f)
  {
    ReadWrite(t, f, k, e, f, k);
    assert EntryAt(SetEntry(t, f, k, e), f, k).Entry?;
  }

  lemma GraftTight(t: Tables, roles: Roles, roots: set<nat>, f: nat, k: nat, g: nat)
    requires Graftable(t, roles, roots, f, k, g) && TightBut(t, roles, f)
    ensures TightBut(Graft(t, f, k, g), GraftRoles(roles, f, k, g), g)
  {
    var qs := GraftRoles(roles, f, k, g);
    var t0 := t[g := Blank()];
    NowNonEmpty(t0, f, k, Link(g));
    forall h | IsTable(qs, h) && qs[h].level < 4 && h != g && h != f
      ensures NonEmpty(Graft(t, f, k, g), h)
    {
      assert NonEmpty(t, h);
      var j: nat :| j < 512 && EntryAt(t, h, j).Entry?;
      assert EntryAt(t0, h, j).Entry?;
      StillNonEmpty(t0, f, k, Link(g), h);
    }
  }

  lemma LeafTight(t: Tables, roles: Roles, f: nat, k: nat, e: Entry)
    requires f < |t| && k < |t[f]| && k < 512 && TightBut(t, roles, f)
    ensures e.Entry? ==> Tight(SetEntry(t, f, k, e), roles)
    ensures TightBut(SetEntry(t, f, k, e), roles, f)
  {
    if e.Entry? {
      NowNonEmpty(t, f, k, e);
    }
    forall h | IsTable(roles, h) && roles[h].level < 4 && h != f
      ensures NonEmpty(SetEntry(t, f, k, e), h)
    {
      StillNonEmpty(t, f, k, e, h);
    }
  }

  lemma PruneTight(t: Tables, roles: Roles, f: nat, k: nat, g: nat)
    requires f < |t| && k < |t[f]| && k < 512 && TightBut(t, roles, g)
    ensures TightBut(SetEntry(t, f, k, Absent), roles - {g}, f)
  {
    forall h | IsTable(roles - {g}, h) && roles[h].level < 4 && h != f
      ensures NonEmpty(SetEntry(t, f, k, Absent), h)
    {
      StillNonEmpty(t, f, k, Absent, h);
    }
  }

  /** In a tight tree every table below a root serves a mapped page. */
  lemma {:induction false} TightServes(t: Tables, roles: Roles, roots: set<nat>, g: nat) returns (v: nat)
    requires Tree(t, roles, roots) && Tight(t, roles) && IsTable(roles, g) && roles[g].level < 4
    ensures v < USER_PAGES && Lookup(t, roles[g].space, v).Entry?
    ensures TableOk(t, roles, roots, g) && Pre(v, roles[g].level) == roles[g].prefix
    decreases if IsTable(roles, g) then roles[g].level else 0
  {
    assert TableOk(t, roles, roots, g) && NonEmpty(t, g);
    var k: nat :| k < 512 && EntryAt(t, g, k).Entry?;
    if roles[g].level == 1 {
      v := 512 * roles[g].prefix + k;
      assert Pre(v, 1) == v / 512;
      Digits(v);
      AnchoredWalk(t, roles, roots, g, v);
    } else {
      var h := EntryAt(t, g, k).frame;
      assert roles[h] == ChildRole(roles, g, k);
      v := TightServes(t, roles, roots, h);
      Digits(v);
    }
  }

  // ---------- roots ----------

  /** A new root: nothing in the user half, the kernel's entries above. */
  function RootTable(top: Table): (t: Table)
    requires |top| == 256
    ensures |t| == 512 && t[256..] == top && forall k :: 0 <= k < 256 ==> t[k] == Absent
  {
    Blank()[..256] + top
  }

  function RootRoles(roles: Roles, g: nat): Roles {
    roles[g := TableFrame(g, 4, 0, g)]
  }

  lemma RootTree(t: Tables, roles: Roles, roots: set<nat>, top: Table, g: nat)
    requires Tree(t, roles, roots) && g !in roles && g < |t| && |top| == 256
    ensures Tree(t[g := RootTable(top)], RootRoles(roles, g), roots + {g})
  {
    var u, qs := t[g := RootTable(top)], RootRoles(roles, g);
    forall f: nat | IsTable(qs, f)
      ensures TableOk(u, qs, roots + {g}, f)
    {
      if f != g {
        assert TableOk(t, roles, roots, f);
      }
    }
    forall f: nat | IsTable(qs, f) && qs[f].level < 4
      ensures AnchoredAt(u, qs, f)
    {
      assert AnchoredAt(t, roles, f);
    }
  }

  /** A new space translates nothing, and the others translate as before. */
  lemma RootLookup(t: Tables, roles: Roles, roots: set<nat>, top: Table, g: nat, s: nat, v: nat)
    requires Tree(t, roles, roots) && g !in roles && g < |t| && |top| == 256 && v < USER_PAGES
    requires s in roots + {g}
    ensures Lookup(t[g := RootTable(top)], s, v) == if s == g then Absent else Lookup(t, s, v)
  {
    if s == g {
      Digits(v);
      DeadEnd(t[g := RootTable(top)], g, v, 4, 1);
    } else {
      ForeignWalk(t, roles, roots, g, RootTable(top), s, v, 1);
    }
  }

  lemma RootTight(t: Tables, roles: Roles, roots: set<nat>, top: Table, g: nat)
    requires Tight(t, roles) && g !in roles && g < |t| && |top| == 256
    ensures Tight(t[g := RootTable(top)], RootRoles(roles, g))
  {
    var u := t[g := RootTable(top)];
    forall f: nat | IsTable(roles, f) && roles[f].level < 4
      ensures NonEmpty(u, f)
    {
      assert NonEmpty(t, f);
      var k: nat :| k < 512 && EntryAt(t, f, k).Entry?;
      assert EntryAt(u, f, k).Entry?;
    }
  }

  /** The tables of a space leave together. */
  function WithoutSpace(roles: Roles, s: nat): Roles {
    map f | f in roles && !(roles[f].TableFrame? && roles[f].space == s) :: roles[f]
  }

  lemma RetireTree(t: Tables, roles: Roles, roots: set<nat>, s: nat)
    requires Tree(t, roles, roots) && s in roots
    ensures Tree(t, WithoutSpace(roles, s), roots - {s})
  {
    var qs := WithoutSpace(roles, s);
    forall f: nat | IsTable(qs, f)
      ensures TableOk(t, qs, roots - {s}, f)
    {
      assert TableOk(t, roles, roots, f);
      forall k: nat | k < Span(roles[f].level) && t[f][k].Entry?
        ensures t[f][k].frame in qs && qs[t[f][k].frame] == ChildRole(qs, f, k)
      {
      }
    }
    forall f: nat | IsTable(qs, f) && qs[f].level < 4
      ensures AnchoredAt(t, qs, f)
    {
      assert AnchoredAt(t, roles, f);
      assert roles[f] == ChildRole(roles, roles[f].parent, roles[f].prefix % 512);
    }
  }

  /** In a tight tree a space that maps nothing consists of its root. */
  lemma RetireTight(t: Tables, roles: Roles, roots: set<nat>, s: nat)
    requires Tree(t, roles, roots) && Tight(t, roles) && s in roots
    requires forall v: nat :: v < USER_PAGES ==> Lookup(t, s, v) == Absent
    ensures WithoutSpace(roles, s) == roles - {s}
    ensures Tight(t, roles - {s})
  {
    forall f: nat | IsTable(roles, f) && roles[f].space == s
      ensures f == s
    {
      assert TableOk(t, roles, roots, f);
      if roles[f].level < 4 {
        var v := TightServes(t, roles, roots, f);
      }
    }
  }
}
