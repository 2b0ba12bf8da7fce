/** How many frames an operation needs: one for each page, and one for each page table that is not there yet. */
module FrameBudget {
  import opened Layout
  import opened PageTable
  import opened CopyOnWrite
  import opened MemoryView
  import opened SpaceSharing

  /** A table of a space: its level, and the prefix of the pages it translates. */
  type Place = (nat, nat)

  /** The tables below the root on the walk for page `v`. */
  function Path(v: nat): set<Place> {
    {(3, Pre(v, 3)), (2, Pre(v, 2)), (1, Pre(v, 1))}
  }

  /** Those for the pages `first .. first + n`. */
  function Paths(first: nat, n: nat): set<Place> {
    if n == 0 then {} else Paths(first, n - 1) + Path(first + n - 1)
  }

  /** The tables that a space has. */
  ghost function Served(roles: Roles, s: nat): set<Place> {
    set f | f in roles && roles[f].TableFrame? && roles[f].space == s :: (roles[f].level, roles[f].prefix)
  }

  /** The tables that mapping the pages would have to create: those that no walk reaches. */
  function Missing(t: Tables, s: nat, first: nat, n: nat): set<Place> {
    set v: nat, l: nat | first <= v < first + n && 1 <= l <= 3 && WalkTo(t, s, v, l).None? :: (l, Pre(v, l))
  }

  /** What `vmm_space_alloc` takes for `n` pages. */
  function Need(t: Tables, s: nat, first: nat, n: nat): nat { n + |Missing(t, s, first, n)| }

  lemma {:induction false} PathsHas(first: nat, n: nat, p: Place)
    ensures p in Paths(first, n) <==> exists v: nat :: first <= v < first + n && p in Path(v)
    decreases n
  {
    if n > 0 {
      PathsHas(first, n - 1, p);
      assert p in Path(first + n - 1) ==> first <= first + n - 1 < first + n;
    }
  }

  /** A walk reaches a table exactly if the space has it. */
  lemma WalkServed(t: Tables, roles: Roles, roots: set<nat>, s: nat, v: nat, l: nat)
    requires Tree(t, roles, roots) && s in roots && v < USER_PAGES && 1 <= l <= 4
    ensures WalkTo(t, s, v, l).Some? <==> (l, Pre(v, l)) in Served(roles, s)
  {
    if WalkTo(t, s, v, l).Some? {
      WalkRole(t, roles, roots, s, v, l);
    }
    if (l, Pre(v, l)) in Served(roles, s) {
      var f :| f in roles && roles[f].TableFrame? && roles[f].space == s
          && (roles[f].level, roles[f].prefix) == (l, Pre(v, l));
      assert TableOk(t, roles, roots, f);
      AnchoredWalk(t, roles, roots, f, v);
    }
  }

  lemma MissingIs(t: Tables, roles: Roles, roots: set<nat>, s: nat, first: nat, n: nat)
    requires Tree(t, roles, roots) && s in roots && first + n <= USER_PAGES
    ensures Missing(t, s, first, n) == Paths(first, n) - Served(roles, s)
  {
    hide Tree, Served, WalkTo, Paths;
    forall p: Place
      ensures p in Missing(t, s, first, n) <==> p in Paths(first, n) - Served(roles, s)
    {
      PathsHas(first, n, p);
      if p in Paths(first, n) {
        var v: nat :| first <= v < first + n && p in Path(v);
        WalkServed(t, roles, roots, s, v, p.0);
      }
      if p in Missing(t, s, first, n) {
        var v: nat :| first <= v < first + n && 1 <= p.0 <= 3 && WalkTo(t, s, v, p.0).None? && p.1 == Pre(v, p.0);
        WalkServed(t, roles, roots, s, v, p.0);
        assert p in Path(v);
      }
    }
  }

  // ---------- spending ----------

  /** From `a` to `b` space `s` got the tables in `more` that it did not have, and `n` frames were taken besides. */
  ghost predicate Spent(a: Snapshot, b: Snapshot, s: nat, more: set<Place>, n: nat) {
    && Served(b.roles, s) == Served(a.roles, s) + more
    && |a.free| == |b.free| + n + |more - Served(a.roles, s)|
  }

  lemma NothingSpent(a: Snapshot, b: Snapshot, s: nat)
    requires b.roles == a.roles && b.free == a.free
    ensures Spent(a, b, s, {}, 0)
  {
    hide Served;
    assert {} - Served(a.roles, s) == {};
  }

  lemma SpentThen(a: Snapshot, b: Snapshot, c: Snapshot, s: nat, m: set<Place>, n: set<Place>, i: nat, j: nat)
    requires Spent(a, b, s, m, i) && Spent(b, c, s, n, j)
    ensures Spent(a, c, s, m + n, i + j)
  {
    hide Served;
    var had := Served(a.roles, s);
    assert (m + n) - had == (m - had) + (n - (had + m));
    assert (m - had) !! (n - (had + m));
  }

  /** A table was created, or it was there. */
  lemma TableSpent(a: Snapshot, b: Snapshot, s: nat, g: nat, role: Role)
    requires role.TableFrame? && role.space == s && g !in a.roles && b.roles == a.roles[g := role]
    requires (role.level, role.prefix) !in Served(a.roles, s) && g in a.free && b.free == a.free - {g}
    ensures Spent(a, b, s, {(role.level, role.prefix)}, 0)
  {
    var p := (role.level, role.prefix);
    forall q
      ensures q in Served(b.roles, s) <==> q in Served(a.roles, s) + {p}
    {
      if q in Served(a.roles, s) {
        var f :| f in a.roles && a.roles[f].TableFrame? && a.roles[f].space == s
            && (a.roles[f].level, a.roles[f].prefix) == q;
        assert b.roles[f] == a.roles[f];
      }
      if q == p {
        assert b.roles[g] == role;
      }
    }
    assert {p} - Served(a.roles, s) == {p};
  }

  lemma TableThere(a: Snapshot, b: Snapshot, s: nat, p: Place)
    requires p in Served(a.roles, s) && b.roles == a.roles && b.free == a.free
    ensures Spent(a, b, s, {p}, 0)
  {
    hide Served;
    assert Served(a.roles, s) + {p} == Served(a.roles, s);
    assert {p} - Served(a.roles, s) == {};
  }

  lemma DataSpent(a: Snapshot, b: Snapshot, s: nat, g: nat)
    requires g !in a.roles && b.roles == a.roles[g := DataFrame] && g in a.free && b.free == a.free - {g}
    ensures Spent(a, b, s, {}, 1)
  {
    forall q
      ensures q in Served(b.roles, s) <==> q in Served(a.roles, s)
    {
      if q in Served(a.roles, s) {
        var f :| f in a.roles && a.roles[f].TableFrame? && a.roles[f].space == s
            && (a.roles[f].level, a.roles[f].prefix) == q;
        assert b.roles[f] == a.roles[f];
      }
    }
    assert {} - Served(a.roles, s) == {};
  }

  /** The table behind entry `Index(v, l)` of `f` is there exactly if the entry is. */
  lemma EntryServed(t: Tables, roles: Roles, roots: set<nat>, f: nat, s: nat, v: nat, l: nat)
    requires Tree(t, roles, roots) && s in roots && v < USER_PAGES && 2 <= l <= 4 && OnWalk(roles, f, s, v, l)
    ensures EntryAt(t, f, Index(v, l)).Entry? <==> (l - 1, Pre(v, l - 1)) in Served(roles, s)
  {
    assert TableOk(t, roles, roots, f);
    AnchoredWalk(t, roles, roots, f, v);
    WalkServed(t, roles, roots, s, v, l - 1);
  }

  /** Following an entry costs nothing. */
  lemma Followed(a: Snapshot, roots: set<nat>, total: nat, f: nat, s: nat, v: nat, l: nat)
    requires Tree(a.tables, a.roles, roots) && InUse(a.roles.Keys, a.free, total)
    requires s in roots && v < USER_PAGES && 2 <= l <= 4 && OnWalk(a.roles, f, s, v, l)
    requires EntryAt(a.tables, f, Index(v, l)).Entry?
    ensures var g := EntryAt(a.tables, f, Index(v, l)).frame;
            && g != 0 && OnWalk(a.roles, g, s, v, l - 1) && Spent(a, a, s, {(l - 1, Pre(v, l - 1))}, 0)
            && Deepened(a, a, roots) && (TightBut(a.tables, a.roles, f) ==> TightBut(a.tables, a.roles, g))
  {
    StepDown(a.tables, a.roles, roots, f, s, v, l);
    EntryServed(a.tables, a.roles, roots, f, s, v, l);
    TableEntry(a.tables, f, Index(v, l));
    hide Tree, Served, Spent;
    TableThere(a, a, s, (l - 1, Pre(v, l - 1)));
  }

  /** The frames for `k` pages and the tables they lack. */
  ghost function Cost(had: set<Place>, first: nat, k: nat): nat { k + |Paths(first, k) - had| }

  lemma CostNext(had: set<Place>, first: nat, k: nat)
    ensures Cost(had, first, k + 1) == Cost(had, first, k) + 1 + |Path(first + k) - (had + Paths(first, k))|
  {
    var p, q := Paths(first, k), Path(first + k);
    hide Path;
    assert Paths(first, k + 1) - had == (p - had) + (q - (had + p));
    assert (p - had) !! (q - (had + p));
  }

  lemma {:induction false} CostGrows(had: set<Place>, first: nat, j: nat, k: nat)
    requires j <= k
    ensures Cost(had, first, j) + (k - j) <= Cost(had, first, k)
    decreases k
  {
    if j < k {
      CostGrows(had, first, j, k - 1);
      CostNext(had, first, k - 1);
    }
  }

  /** At most three tables to a page. */
  lemma {:induction false} CostBound(had: set<Place>, first: nat, k: nat)
    ensures Cost(had, first, k) <= 4 * k
    decreases k
  {
    if k > 0 {
      CostBound(had, first, k - 1);
      CostStep(had, first, k - 1);
      hide Cost;
    }
  }

  lemma CostStep(had: set<Place>, first: nat, k: nat)
    ensures Cost(had, first, k + 1) <= Cost(had, first, k) + 4
  {
    CostNext(had, first, k);
    hide Cost, Path, Paths;
    var q := Path(first + k);
    Smaller(q - (had + Paths(first, k)), q);
    ThreeTables(first + k);
  }

  lemma ThreeTables(v: nat)
    ensures |Path(v)| == 3
  {
  }

  lemma {:induction false} Smaller<T>(a: set<T>, b: set<T>)
    requires a <= b
    ensures |a| <= |b|
    decreases a
  {
    if a != {} {
      var x :| x in a;
      Smaller(a - {x}, b - {x});
    }
  }

  lemma NeedIs(t: Tables, roles: Roles, roots: set<nat>, s: nat, first: nat, n: nat)
    requires Tree(t, roles, roots) && s in roots && first + n <= USER_PAGES
    ensures Need(t, s, first, n) == Cost(Served(roles, s), first, n)
  {
    MissingIs(t, roles, roots, s, first, n);
  }

  /** One table more than there are frames. */
  lemma StepFails(a: Snapshot, b: Snapshot, s: nat, m: set<Place>, p: Place, v: nat)
    requires Spent(a, b, s, m, 0) && b.free == {} && p !in Served(b.roles, s) && m + {p} <= Path(v)
    ensures !Enough(a, s, v)
  {
    hide Served, Path;
    var had, q := Served(a.roles, s), Path(v);
    assert (m - had) + {p} <= q - had && p !in m - had;
    Smaller((m - had) + {p}, q - had);
  }

  lemma NoneSpent(a: Snapshot, s: nat, first: nat)
    ensures Spent(a, a, s, Paths(first, 0), 0)
  {
    NothingSpent(a, a, s);
  }

  lemma SpentPage(a: Snapshot, b: Snapshot, c: Snapshot, s: nat, first: nat, k: nat)
    requires Spent(a, b, s, Paths(first, k), k) && Spent(b, c, s, Path(first + k), 1)
    ensures Spent(a, c, s, Paths(first, k + 1), k + 1)
  {
    hide Spent;
    SpentThen(a, b, c, s, Paths(first, k), Path(first + k), k, 1);
  }

  lemma SpentAfter(a: Snapshot, b: Snapshot, c: Snapshot, s: nat, more: set<Place>)
    requires Spent(a, b, s, {}, 1) && Spent(b, c, s, more, 0)
    ensures Spent(a, c, s, more, 1)
  {
    hide Spent;
    SpentThen(a, b, c, s, {}, more, 1, 0);
    assert {} + more == more;
  }

  /** The tables for page `v` can be created. */
  ghost predicate Enough(a: Snapshot, s: nat, v: nat) {
    |a.free| >= |Path(v) - Served(a.roles, s)|
  }

  /** There is a frame for page `v`, but too few for its tables. */
  ghost predicate FallsShort(a: Snapshot, s: nat, v: nat) {
    0 < |a.free| <= |Path(v) - Served(a.roles, s)|
  }

  lemma NoTables(a: Snapshot, b: Snapshot, s: nat, v: nat)
    requires Spent(a, b, s, {}, 1) && !Enough(b, s, v)
    ensures FallsShort(a, s, v)
  {
    hide Served, Path;
    assert {} - Served(a.roles, s) == {};
    assert Served(a.roles, s) + {} == Served(a.roles, s);
  }

  /** What is written last needs no frame. */
  lemma SpentOn(a: Snapshot, b: Snapshot, c: Snapshot, s: nat, v: nat)
    requires Spent(a, b, s, Path(v), 0) && c.roles == b.roles && c.free == b.free
    ensures Spent(a, c, s, Path(v), 0) && Enough(a, s, v)
  {
  }

  /** More than enough frames for `k` pages and not enough for one more. */
  ghost predicate Between(had: set<Place>, first: nat, k: nat, free: nat) {
    Cost(had, first, k) < free < Cost(had, first, k + 1)
  }

  lemma PageFails(a: Snapshot, b: Snapshot, s: nat, first: nat, k: nat)
    requires Spent(a, b, s, Paths(first, k), k) && FallsShort(b, s, first + k)
    ensures Between(Served(a.roles, s), first, k, |a.free|)
  {
    hide Served;
    CostNext(Served(a.roles, s), first, k);
  }

  /** How an allocation of `n` pages ends, from how far it got. */
  lemma Outcomes(a: Snapshot, b: Snapshot, roots: set<nat>, s: nat, first: nat, n: nat, k: nat, ok: bool)
    requires Tree(a.tables, a.roles, roots) && s in roots && first + n <= USER_PAGES && k <= n
    requires if ok then Spent(a, b, s, Paths(first, k), k) && (k < n ==> b.free == {})
             else k < n && Between(Served(a.roles, s), first, k, |a.free|)
    ensures (ok && k == n) <==> |a.free| >= Need(a.tables, s, first, n)
    ensures (ok && k < n) <==> exists j: nat :: j < n && |a.free| == Need(a.tables, s, first, j)
    ensures ok && k < n ==> |a.free| == Need(a.tables, s, first, k)
  {
    hide Tree, Served, Need, Paths;
    var had := Served(a.roles, s);
    NeedIs(a.tables, a.roles, roots, s, first, k);
    NeedIs(a.tables, a.roles, roots, s, first, n);
    CostGrows(had, first, k, n);
    if k < n {
      CostGrows(had, first, k + 1, n);
    }
    forall j: nat | j < n
      ensures Need(a.tables, s, first, j) == Cost(had, first, j)
      ensures if j <= k then Cost(had, first, j) + (k - j) <= Cost(had, first, k)
              else Cost(had, first, k + 1) + (j - k - 1) <= Cost(had, first, j)
    {
      NeedIs(a.tables, a.roles, roots, s, first, j);
      if j <= k {
        CostGrows(had, first, j, k);
      } else {
        CostGrows(had, first, k + 1, j);
      }
    }
  }

  /** The frames are neither free nor in use any more, and all others are what they were. */
  ghost predicate Lost(a: Snapshot, b: Snapshot, frames: seq<nat>) {
    && NoDup(frames) && (forall f :: f in frames ==> f in a.free && f !in b.free && f !in b.roles)
    && b.free + b.roles.Keys + ToSet(frames) == a.free + a.roles.Keys
  }

  lemma NothingLost(a: Snapshot)
    ensures Lost(a, a, [])
  {
    assert ToSet([]) == {};
  }

  lemma LostThose(a: Snapshot, m: Snapshot, b: Snapshot, pt: Mapping, roots: set<nat>, s: nat, first: nat, flags: Flags,
      frames: seq<nat>, fill: seq<Page>)
    requires Progress(a, m, pt, roots, s, first, flags, frames, fill) && a.free !! a.roles.Keys
             && m.free !! m.roles.Keys
    requires b.free == m.free && b.roles == m.roles - ToSet(frames)
    ensures Lost(a, b, frames)
  {
    hide Agrees, Filled;
    forall f | f in frames
      ensures f in a.free && f !in b.free && f !in b.roles
    {
      assert f in ToSet(frames);
      assert f in m.free + m.roles.Keys;
    }
    assert ToSet(frames) <= m.roles.Keys;
  }

  /** Four frames a page are always enough, one is never too many. */
  lemma NeedBounds(t: Tables, roles: Roles, roots: set<nat>, s: nat, first: nat, n: nat)
    requires Tree(t, roles, roots) && s in roots && first + n <= USER_PAGES
    ensures n <= Need(t, s, first, n) <= 4 * n
  {
    NeedIs(t, roles, roots, s, first, n);
    CostBound(Served(roles, s), first, n);
  }

  /** The frames suffice for `n` pages and the tables in `m`. */
  ghost predicate Covers(a: Snapshot, s: nat, m: set<Place>, n: nat) {
    |a.free| >= n + |m - Served(a.roles, s)|
  }

  lemma NeedCovers(a: Snapshot, roots: set<nat>, s: nat, first: nat, n: nat)
    requires Tree(a.tables, a.roles, roots) && s in roots && first + n <= USER_PAGES
    ensures |a.free| >= Need(a.tables, s, first, n) <==> Covers(a, s, Paths(first, n), n)
  {
    hide Tree, Served, Need, Paths;
    NeedIs(a.tables, a.roles, roots, s, first, n);
  }

  lemma SpentCovers(a: Snapshot, b: Snapshot, s: nat, m: set<Place>, n: nat)
    requires Spent(a, b, s, m, n)
    ensures Covers(a, s, m, n)
  {
    hide Served;
  }

  /** What suffices after some frames are spent suffices before for both together. */
  lemma CoversThen(a: Snapshot, b: Snapshot, s: nat, m: set<Place>, i: nat, q: set<Place>, n: nat)
    requires Spent(a, b, s, m, i)
    ensures Covers(b, s, q, n) <==> Covers(a, s, m + q, i + n)
  {
    hide Served;
    var had := Served(a.roles, s);
    assert (m + q) - had == (m - had) + (q - (had + m)) && (m - had) !! (q - (had + m));
  }

  lemma CoversLess(a: Snapshot, s: nat, m: set<Place>, i: nat, q: set<Place>, n: nat)
    requires m <= q && i <= n && Covers(a, s, q, n)
    ensures Covers(a, s, m, i)
  {
    hide Served;
    Smaller(m - Served(a.roles, s), q - Served(a.roles, s));
  }

  // ---------- clones and breaks ----------

  /** A break needs a frame: the page is in a copy-on-write region and others are counted on its frame. */
  predicate SharedPage(c: State, s: nat, v: nat) {
    Breakable(c, s, v) && c.rc[c.pt[(s, v)].frame] > 1
  }

  /** The tables that map the pages of `done` that are mapped in `s`. */
  function Wanted(pt: Mapping, s: nat, done: set<nat>): set<Place> {
    set v, l: nat | v in done && (s, v) in pt && 1 <= l <= 3 :: (l, Pre(v, l))
  }

  /** The tables below the root that a space with the pages of `s` has. */
  function TablesFor(pt: Mapping, s: nat): set<Place> {
    set x, l: nat | x in pt && x.0 == s && 1 <= l <= 3 :: (l, Pre(x.1, l))
  }

  ghost predicate TooFew(a: Snapshot, pt: Mapping, s: nat, d: nat) {
    |a.free| < |TablesFor(pt, s) - Served(a.roles, d)|
  }

  lemma SameFrames(a: Snapshot, b: Snapshot, s: nat, v: nat)
    requires b.roles == a.roles && b.free == a.free
    ensures Enough(a, s, v) <==> Enough(b, s, v)
  {
  }

  lemma SpentAlike(a: Snapshot, a1: Snapshot, b: Snapshot, b1: Snapshot, s: nat, more: set<Place>, n: nat)
    requires Spent(a1, b, s, more, n) && a1.roles == a.roles && a1.free == a.free && b1.roles == b.roles
             && b1.free == b.free
    ensures Spent(a, b1, s, more, n)
  {
  }

  lemma WantedNext(pt: Mapping, s: nat, done: set<nat>, v: nat)
    ensures Wanted(pt, s, done + {v}) == Wanted(pt, s, done) + if (s, v) in pt then Path(v) else {}
  {
    forall p: Place
      ensures p in Wanted(pt, s, done + {v}) <==> p in Wanted(pt, s, done) + if (s, v) in pt then Path(v) else {}
    {
      if p in Wanted(pt, s, done + {v}) {
        var w, l: nat :| w in done + {v} && (s, w) in pt && 1 <= l <= 3 && p == (l, Pre(w, l));
        assert w in done ==> p in Wanted(pt, s, done);
      }
      if p in Wanted(pt, s, done) {
        var w, l: nat :| w in done && (s, w) in pt && 1 <= l <= 3 && p == (l, Pre(w, l));
        assert w in done + {v};
      }
      if (s, v) in pt && p in Path(v) {
        assert v in done + {v} && 1 <= p.0 <= 3 && p == (p.0, Pre(v, p.0));
      }
    }
  }

  lemma WantsNoMore(pt: Mapping, s: nat, done: set<nat>, v: nat)
    requires (s, v) !in pt
    ensures Wanted(pt, s, done + {v}) == Wanted(pt, s, done)
  {
    WantedNext(pt, s, done, v);
  }

  lemma ShareSpent(a: Snapshot, b: Snapshot, e: Snapshot, pt: Mapping, s: nat, d: nat, done: set<nat>, v: nat)
    requires Spent(a, b, d, Wanted(pt, s, done), 0) && Spent(b, e, d, Path(v), 0) && (s, v) in pt
    ensures Spent(a, e, d, Wanted(pt, s, done + {v}), 0)
  {
    hide Spent, Wanted, Path;
    WantedNext(pt, s, done, v);
    SpentThen(a, b, e, d, Wanted(pt, s, done), Path(v), 0, 0);
  }

  lemma WantedWithin(pt: Mapping, s: nat, done: set<nat>)
    ensures Wanted(pt, s, done) <= TablesFor(pt, s)
  {
    forall p | p in Wanted(pt, s, done)
      ensures p in TablesFor(pt, s)
    {
      var v, l: nat :| v in done && (s, v) in pt && 1 <= l <= 3 && p == (l, Pre(v, l));
      assert (s, v).1 == v;
    }
  }

  lemma ShareFails(a: Snapshot, b: Snapshot, pt: Mapping, s: nat, d: nat, done: set<nat>, v: nat)
    requires Spent(a, b, d, Wanted(pt, s, done), 0) && !Enough(b, d, v) && (s, v) in pt
    ensures TooFew(a, pt, s, d)
  {
    hide Served, Wanted, Path, TablesFor;
    var had, w, q := Served(a.roles, d), Wanted(pt, s, done), Path(v);
    WantedNext(pt, s, done, v);
    WantedWithin(pt, s, done + {v});
    assert (w + q) - had == (w - had) + (q - (had + w)) && (w - had) !! (q - (had + w));
    Smaller((w + q) - had, TablesFor(pt, s) - had);
  }

  lemma NoneWanted(a: Snapshot, pt: Mapping, s: nat, d: nat, rs: seq<Region>)
    ensures Spent(a, a, d, Wanted(pt, s, Visited(rs, 0, 0)), 0)
  {
    assert Visited(rs, 0, 0) == {};
    assert Wanted(pt, s, {}) == {};
    NothingSpent(a, a, d);
  }

  /** When every mapped page has been visited there were enough frames for all its tables. */
  lemma AllWanted(a: Snapshot, b: Snapshot, pt: Mapping, s: nat, d: nat, done: set<nat>)
    requires Spent(a, b, d, Wanted(pt, s, done), 0) && forall x :: x in pt && x.0 == s ==> x.1 in done
    ensures !TooFew(a, pt, s, d)
  {
    hide Served;
    WantedWithin(pt, s, done);
    forall p | p in TablesFor(pt, s)
      ensures p in Wanted(pt, s, done)
    {
      var x, l: nat :| x in pt && x.0 == s && 1 <= l <= 3 && p == (l, Pre(x.1, l));
      assert x == (s, x.1);
    }
    assert Wanted(pt, s, done) == TablesFor(pt, s);
  }

  /** A new space has its root and nothing else. */
  lemma NewRoot(a: Snapshot, b: Snapshot, roots: set<nat>, d: nat)
    requires Tree(a.tables, a.roles, roots) && d !in roots && b.roles == RootRoles(a.roles, d)
    ensures Served(b.roles, d) == {(4, 0)}
  {
    forall f | f in a.roles && a.roles[f].TableFrame?
      ensures a.roles[f].space != d
    {
      assert TableOk(a.tables, a.roles, roots, f);
    }
    assert b.roles[d] == TableFrame(d, 4, 0, d);
  }

  /** A clone needs a frame for the root and one for each table below it. */
  ghost predicate ClonesFit(a: Snapshot, pt: Mapping, s: nat) {
    |a.free| >= 1 + |TablesFor(pt, s)|
  }

  /** In a new space all tables but the root are missing. */
  lemma NewCovers(a: Snapshot, b: Snapshot, roots: set<nat>, top: Table, total: nat, d: nat, m: set<Place>, n: nat)
    requires Mem(a.tables, a.roles, roots, top, total) && d !in roots && b.roles == RootRoles(a.roles, d)
    requires d in a.free && b.free == a.free - {d} && (4, 0) !in m
    ensures Covers(b, d, m, n) <==> |a.free| >= 1 + n + |m|
  {
    NewRoot(a, b, roots, d);
    hide Mem, Served;
    assert m - {(4, 0)} == m;
  }

  lemma NoRoot(a: Snapshot, pt: Mapping, s: nat)
    requires a.free == {}
    ensures !ClonesFit(a, pt, s)
  {
  }

  lemma CloneBudget(a: Snapshot, b: Snapshot, pt: Mapping, roots: set<nat>, top: Table, total: nat, s: nat, d: nat)
    requires Mem(a.tables, a.roles, roots, top, total) && d !in roots && b.roles == RootRoles(a.roles, d)
    requires d in a.free && b.free == a.free - {d}
    ensures ClonesFit(a, pt, s) <==> !TooFew(b, pt, s, d)
  {
    NewRoot(a, b, roots, d);
    hide Tree, Served;
    assert TablesFor(pt, s) - {(4, 0)} == TablesFor(pt, s);
  }
}
