/** Whole runs of the memory stack, on its tables: requests are served one after the other, and what the walk reads
    in the end is what eager copying would have left there. */
module MemoryRuns {
  import opened Layout
  import opened PageTable
  import opened CopyOnWrite
  import opened CowInvariant
  import opened EagerCopy
  import opened MemoryView
  import opened FrameBudget
  import opened AddressSpaces

  datatype Request =
    | NewSpace
    | Map(s: nat, first: nat, n: nat, flags: Flags)
    | Fork(s: nat)
    | Store(s: nat, v: nat, off: nat, byte: Byte)
    | Unmap(s: nat, first: nat)
    | Drop(s: nat)

  /** What the flat state must be like for a request to be served. */
  ghost predicate Allowed(c: State, q: Request) {
    match q
    case NewSpace => true
    case Map(s, first, n, flags) => s in c.spaces && MapOk(c.spaces[s].regions, first, n, flags)
    case Fork(s) => s in c.spaces && CloneGuard(c, s)
    case Store(s, v, off, _) => s in c.spaces && v < USER_PAGES && off < PAGE_SIZE && Writable(c, s, v)
    case Unmap(s, first) => s in c.spaces && first > 0 && FindBase(c.spaces[s].regions, first).Some?
    case Drop(s) => s in c.spaces && NoZero(c.spaces[s].regions)
  }

  predicate MapOk(rs: seq<Region>, first: nat, n: nat, flags: Flags) {
    && n > 0 && first + n <= USER_PAGES && Cow !in flags && Mmio !in flags
    && forall v :: first <= v < first + n ==> !Covered(rs, v)
  }

  predicate NoZero(rs: seq<Region>) { forall i :: 0 <= i < |rs| ==> rs[i].first > 0 }

  /** The frames it takes are there. */
  ghost predicate Funded(a: Snapshot, c: State, q: Request) {
    match q
    case NewSpace => a.free != {}
    case Map(s, first, n, _) => |a.free| >= Need(a.tables, s, first, n)
    case Fork(s) => ClonesFit(a, c.pt, s)
    case Store(s, v, _, _) => Storable(c, s, v) || !SharedPage(c, s, v) || a.free != {}
    case Unmap(_, _) => true
    case Drop(_) => true
  }

  /** The steps that a request amounts to. */
  ghost predicate Performs(q: Request, ops: seq<Op>) {
    match q
    case NewSpace => |ops| == 1 && ops[0].Create?
    case Map(s, first, n, flags) =>
      |ops| == 1 && ops[0].Alloc? && ops[0].s == s && ops[0].first == first && ops[0].flags == flags
          && |ops[0].frames| == n
    case Fork(s) => |ops| == 1 && ops[0].Clone? && ops[0].s == s
    case Store(s, v, off, byte) =>
      |ops| == 1 && ops[0].Write? && ops[0].s == s && ops[0].v == v && ops[0].off == off && ops[0].byte == byte
    case Unmap(s, first) => |ops| == 1 && ops[0].Free? && ops[0].s == s && ops[0].first == first
    case Drop(s) =>
      |ops| > 0 && ops[|ops| - 1] == Retire(s) && forall i :: 0 <= i < |ops| - 1 ==> ops[i].Free? && ops[i].s == s
  }

  // ---------- one request ----------

  lemma OneOp(c: State, op: Op)
    requires Enabled(c, op) && Guarded(c, op)
    ensures Legal(c, [op]) && Run(c, [op]) == Apply(c, op)
  {
    hide Enabled, Guarded, Apply;
    assert [op][1..] == [];
    assert Legal(Apply(c, op), []);
  }

  lemma NoOps(c: State)
    ensures Legal(c, []) && Run(c, []) == c
  {
  }

  /** Whether the space may be cloned, read off the tables and the counts. */
  method Sharable(vm: Vmm, s: nat) returns (ok: bool)
    requires vm.Valid() && s in vm.spaces
    ensures ok <==> CloneGuard(vm.View(), s)
  {
    hide Settled, PageGuard, CloneGuard, Region.Covers;
    ghost var c := vm.View();
    var rs := vm.spaces[s].regions;
    for i := 0 to |rs|
      invariant forall k, v: nat :: 0 <= k < i && rs[k].Covers(v) ==> PageGuard(c, s, v)
    {
      ok := RegionSharable(vm, s, i);
      if !ok {
        return;
      }
    }
    AllGuarded(vm.Snap(), c, vm.top, vm.phys.total, s);
    ok := true;
  }

  method RegionSharable(vm: Vmm, s: nat, i: nat) returns (ok: bool)
    requires vm.Valid() && s in vm.spaces && i < |vm.spaces[s].regions|
    ensures ok ==> forall v: nat :: vm.spaces[s].regions[i].Covers(v) ==> PageGuard(vm.View(), s, v)
    ensures !ok ==> !CloneGuard(vm.View(), s)
  {
    hide Settled, PageGuard, CloneGuard;
    ghost var c := vm.View();
    var r := vm.spaces[s].regions[i];
    for j := 0 to r.pages
      invariant forall v: nat :: r.first <= v < r.first + j ==> PageGuard(c, s, v)
    {
      var v := r.first + j;
      ShownPage(vm.Snap(), c, vm.top, vm.phys.total, s, i, v);
      var n := vm.phys.rc[Lookup(vm.tables, s, v).frame];
      CheckedPage(c, s, v, n);
      if !(1 <= n < U32 - 1) {
        Unguarded(c, s, v);
        return false;
      }
    }
    ok := true;
  }

  lemma CheckedPage(c: State, s: nat, v: nat, n: nat)
    requires (s, v) in c.pt && c.pt[(s, v)].Entry? && c.pt[(s, v)].frame in c.rc && c.rc[c.pt[(s, v)].frame] == n
    ensures PageGuard(c, s, v) <==> 1 <= n < U32 - 1
  {
  }

  predicate PageGuard(c: State, s: nat, v: nat) {
    (s, v) in c.pt && c.pt[(s, v)].Entry? && c.pt[(s, v)].frame in c.rc ==> 1 <= c.rc[c.pt[(s, v)].frame] < U32 - 1
  }

  lemma ShownPage(a: Snapshot, c: State, top: Table, total: nat, s: nat, i: nat, v: nat)
    requires Settled(a, c, top, total) && s in c.spaces && i < |c.spaces[s].regions| && c.spaces[s].regions[i].Covers(v)
    ensures v < USER_PAGES && Lookup(a.tables, s, v).Entry? && Lookup(a.tables, s, v).frame < |a.counts|
    ensures (s, v) in c.pt && c.pt[(s, v)] == Lookup(a.tables, s, v) && c.pt[(s, v)].frame in c.rc
    ensures c.rc[c.pt[(s, v)].frame] == a.counts[c.pt[(s, v)].frame]
  {
    assert TiledSpace(c.spaces[s], c.pt, s);
    CoveredBy(c.spaces[s].regions, i, v);
  }

  lemma Unguarded(c: State, s: nat, v: nat)
    requires !PageGuard(c, s, v)
    ensures !CloneGuard(c, s)
  {
    assert c.pt[(s, v)].frame in FramesOf(c.pt, s);
  }

  lemma AllGuarded(a: Snapshot, c: State, top: Table, total: nat, s: nat)
    requires Settled(a, c, top, total) && s in c.spaces
    requires forall k, v: nat :: 0 <= k < |c.spaces[s].regions| && c.spaces[s].regions[k].Covers(v) ==>
             PageGuard(c, s, v)
    ensures CloneGuard(c, s)
  {
    forall f | f in FramesOf(c.pt, s) && f in c.rc
      ensures 1 <= c.rc[f] < U32 - 1
    {
      var x :| x in c.pt && x.0 == s && c.pt[x].Entry? && c.pt[x].frame == f;
      assert x == (s, x.1);
      assert TiledSpace(c.spaces[s], c.pt, s);
      var k := IndexOf(c.spaces[s].regions, x.1);
      assert PageGuard(c, s, x.1);
    }
  }

  /** The steps of destroying a space. */
  ghost function DestroyOps(c: State, s: nat): seq<Op>
    requires s in c.spaces
    decreases |c.spaces[s].regions|
  {
    var rs := c.spaces[s].regions;
    if rs == [] then [Retire(s)] else [Op.Free(s, rs[0].first, rs[0].pages)] + DestroyOps(DoFree(c, s, 0), s)
  }

  lemma {:induction false} DestroyRun(c: State, s: nat)
    requires s in c.spaces && NoZero(c.spaces[s].regions)
    ensures Legal(c, DestroyOps(c, s)) && Run(c, DestroyOps(c, s)) == DoDestroy(c, s)
    ensures Performs(Drop(s), DestroyOps(c, s))
    decreases |c.spaces[s].regions|
  {
    var rs := c.spaces[s].regions;
    if rs == [] {
      OneOp(c, Retire(s));
    } else {
      var op, d := Op.Free(s, rs[0].first, rs[0].pages), DoFree(c, s, 0);
      assert FindBase(rs, rs[0].first) == Some(0);
      assert d.spaces[s].regions == rs[1..];
      DestroyRun(d, s);
      var more := DestroyOps(d, s);
      assert ([op] + more)[1..] == more && Apply(c, op) == d;
      assert forall i :: 0 < i < |[op] + more| ==> ([op] + more)[i] == more[i - 1];
    }
  }

  /** One request. It is served exactly if it is allowed and there are frames for it; refused, it has no effect.
      Nothing more is promised after a panic. */
  method Serve(vm: Vmm, q: Request) returns (alive: bool, ghost ops: seq<Op>)
    requires vm.Valid()
    modifies vm, vm.phys.bitmap, vm.phys.rc
    ensures ops != [] <==> Allowed(old(vm.View()), q) && Funded(old(vm.Snap()), old(vm.View()), q)
    ensures ops != [] ==> alive && Performs(q, ops)
    ensures alive ==> vm.Valid() && Legal(old(vm.View()), ops) && vm.View() == Run(old(vm.View()), ops)
  {
    hide Settled, Need, Lost, Spent, ClonesFit, Legal, Run, DoClone, DoAlloc, DoWrite, DoFree, DoDestroy, CloneGuard,
        Covered;
    ghost var c := vm.View();
    ops, alive := [], true;
    NoOps(c);
    match q {
      case NewSpace =>
        var d := vm.SpaceCreate();
        if d != 0 {
          ops := [Create(d)];
          OneOp(c, Create(d));
        }
      case Map(s, first, n, flags) => alive, ops := ServeMap(vm, s, first, n, flags);
      case Fork(s) => alive, ops := ServeFork(vm, s);
      case Store(s, v, off, byte) => alive, ops := ServeStore(vm, s, v, off, byte);
      case Unmap(s, first) =>
        if s in vm.spaces {
          ghost var k := FindBase(vm.spaces[s].regions, first);
          vm.SpaceFree(s, first);
          if first > 0 && k.Some? {
            ops := [Op.Free(s, first, c.spaces[s].regions[k.value].pages)];
            OneOp(c, ops[0]);
          }
        }
      case Drop(s) =>
        if s in vm.spaces && NoZero(vm.spaces[s].regions) {
          assert forall r :: r in vm.spaces[s].regions ==> r.first > 0;
          DestroyRun(c, s);
          vm.SpaceDestroy(s);
          ops := DestroyOps(c, s);
        }
    }
  }

  method ServeMap(vm: Vmm, s: nat, first: nat, n: nat, flags: Flags) returns (alive: bool, ghost ops: seq<Op>)
    requires vm.Valid()
    modifies vm, vm.phys.bitmap, vm.phys.rc
    ensures var q := Map(s, first, n, flags);
            ops != [] <==> Allowed(old(vm.View()), q) && Funded(old(vm.Snap()), old(vm.View()), q)
    ensures ops != [] ==> alive && Performs(Map(s, first, n, flags), ops)
    ensures alive ==> vm.Valid() && Legal(old(vm.View()), ops) && vm.View() == Run(old(vm.View()), ops)
  {
    hide Settled, Need, Lost, Spent, Legal, Run, DoAlloc, AllocOk, Covered;
    ghost var c := vm.View();
    ops, alive := [], true;
    NoOps(c);
    if s in vm.spaces && MapOk(vm.spaces[s].regions, first, n, flags) {
      var r;
      ghost var frames, fill;
      r, frames, fill := vm.SpaceAlloc(s, first, n, flags);
      alive := !r.Panicked?;
      if r.Done? {
        ops := [Alloc(s, first, flags, frames, fill)];
        OneOp(c, ops[0]);
      }
    }
  }

  method ServeFork(vm: Vmm, s: nat) returns (alive: bool, ghost ops: seq<Op>)
    requires vm.Valid()
    modifies vm, vm.phys.bitmap, vm.phys.rc
    ensures ops != [] <==> Allowed(old(vm.View()), Fork(s)) && Funded(old(vm.Snap()), old(vm.View()), Fork(s))
    ensures ops != [] ==> alive && Performs(Fork(s), ops)
    ensures alive ==> vm.Valid() && Legal(old(vm.View()), ops) && vm.View() == Run(old(vm.View()), ops)
  {
    hide Settled, ClonesFit, Legal, Run, DoClone, CloneGuard;
    ghost var c := vm.View();
    ops, alive := [], true;
    NoOps(c);
    if s in vm.spaces {
      var guarded := Sharable(vm, s);
      if guarded {
        var r, d := vm.CloneSpace(s);
        alive := !r.Panicked?;
        if r.Done? {
          ops := [Clone(s, d)];
          OneOp(c, ops[0]);
        }
      }
    }
  }

  method ServeStore(vm: Vmm, s: nat, v: nat, off: nat, byte: Byte) returns (alive: bool, ghost ops: seq<Op>)
    requires vm.Valid()
    modifies vm, vm.phys.bitmap, vm.phys.rc
    ensures var q := Store(s, v, off, byte);
            ops != [] <==> Allowed(old(vm.View()), q) && Funded(old(vm.Snap()), old(vm.View()), q)
    ensures ops != [] ==> alive && Performs(Store(s, v, off, byte), ops)
    ensures alive ==> vm.Valid() && Legal(old(vm.View()), ops) && vm.View() == Run(old(vm.View()), ops)
  {
    hide Settled, Legal, Run, DoWrite, Writable, Storable, SharedPage;
    ghost var c := vm.View();
    ops, alive := [], true;
    NoOps(c);
    if s in vm.spaces && v < USER_PAGES && off < PAGE_SIZE {
      var r;
      ghost var spare;
      r, spare := vm.WriteByte(s, v, off, byte);
      alive := !r.Panicked?;
      if r.Done? {
        ops := [Op.Write(s, v, off, byte, spare)];
        OneOp(c, ops[0]);
      }
    }
  }

  // ---------- a run ----------

  function Flat(parts: seq<seq<Op>>): seq<Op> {
    if parts == [] then [] else Flat(parts[..|parts| - 1]) + parts[|parts| - 1]
  }

  lemma {:induction false} LegalThen(a: State, xs: seq<Op>, ys: seq<Op>)
    requires Legal(a, xs) && Legal(Run(a, xs), ys)
    ensures Legal(a, xs + ys) && Run(a, xs + ys) == Run(Run(a, xs), ys)
    decreases |xs|
  {
    hide Enabled, Guarded, Apply;
    if xs == [] {
      assert xs + ys == ys;
    } else {
      assert (xs + ys)[1..] == xs[1..] + ys;
      LegalThen(Apply(a, xs[0]), xs[1..], ys);
    }
  }

  lemma FlatMore(parts: seq<seq<Op>>, p: seq<Op>)
    ensures Flat(parts + [p]) == Flat(parts) + p
  {
    assert (parts + [p])[..|parts|] == parts;
  }

  /** The byte a space holds when every clone copies. */
  function EagerByte(e: Eager, s: nat, v: nat, off: nat): Option<Byte>
    requires off < PAGE_SIZE
  {
    if (s, v) in e.mem then Some(e.mem[(s, v)][off]) else None
  }

  /** From boot, any requests in any order, as long as none panics: the steps that were taken are those of the
      requests that were served, and every walk of the tables afterwards reads the byte that eager copying would
      have left there. */
  method RunThenRead(vm: Vmm, qs: seq<Request>, s: nat, v: nat, off: nat)
    returns (alive: bool, r: Option<Byte>, ghost parts: seq<seq<Op>>)
    requires vm.Valid() && vm.View() == EMPTY && v < USER_PAGES && off < PAGE_SIZE
    modifies vm, vm.phys.bitmap, vm.phys.rc
    ensures alive ==> vm.Valid() && |parts| == |qs| && Legal(EMPTY, Flat(parts)) && vm.View() == Run(EMPTY, Flat(parts))
    ensures alive ==> forall i :: 0 <= i < |qs| ==> parts[i] == [] || Performs(qs[i], parts[i])
    ensures alive ==> Contents(vm.View()) == EagerRun(Eager({}, map[]), Flat(parts))
    ensures alive && s in vm.spaces ==> r == EagerByte(EagerRun(Eager({}, map[]), Flat(parts)), s, v, off)
  {
    hide Vmm.Valid, Vmm.View, Legal, Run, Contents, EagerRun, Performs, MemOf;
    alive, r, parts := true, None, [];
    NoOps(EMPTY);
    for i := 0 to |qs|
      invariant alive && |parts| == i && vm.Valid() && Legal(EMPTY, Flat(parts)) && vm.View() == Run(EMPTY, Flat(parts))
      invariant forall k :: 0 <= k < i ==> parts[k] == [] || Performs(qs[k], parts[k])
    {
      ghost var ops;
      alive, ops := Serve(vm, qs[i]);
      if !alive {
        return;
      }
      LegalThen(EMPTY, Flat(parts), ops);
      FlatMore(parts, ops);
      parts := parts + [ops];
    }
    CowRefinesEagerCopy(Flat(parts));
    if s in vm.spaces {
      r := vm.ReadByte(s, v, off);
      ContentsRead(vm.View());
    }
  }

  lemma ContentsRead(c: State)
    ensures Contents(c).mem == MemOf(c.pt, c.pages)
  {
  }
}
