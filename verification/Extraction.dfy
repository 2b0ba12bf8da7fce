/** Building the file tree from a list of entries: every entry ends up at its path, with its kind and its bytes. */
module Extraction {
  import opened Layout
  import opened Vfs

  datatype Record = Record(path: Path, dir: bool, slice: Slice)

  /** What `cpio_extract` does with one entry. */
  function Apply(fs: Fs, e: Record): Fs
    requires e.path != []
  {
    if e.dir then MkdirFrom(fs, 0, e.path).0
    else
      var (gs, n) := CreateFile(fs, e.path[..|e.path| - 1], e.path[|e.path| - 1]);
      if n.Some? && e.slice.size > 0 then SetData(gs, n.value, e.slice) else gs
  }

  function ApplyAll(fs: Fs, es: seq<Record>): Fs
    requires forall e :: e in es ==> e.path != []
    decreases |es|
  {
    if es == [] then fs else ApplyAll(Apply(fs, es[0]), es[1..])
  }

  /** Names of what the entries put directly below path `q`. */
  function Kids(es: seq<Record>, q: Path): set<Name> {
    set e | e in es && q < e.path :: e.path[|q|]
  }

  /** Distinct paths, no file where another entry needs a directory, at most 64 children anywhere. */
  ghost predicate Consistent(es: seq<Record>) {
    && (forall e :: e in es ==> e.path != [] && forall i :: 0 <= i < |e.path| ==> e.path[i] != [])
    && (forall i, j :: 0 <= i < |es| && 0 <= j < |es| && i != j && !es[i].dir ==> !(es[i].path <= es[j].path))
    && (forall q: Path :: |Kids(es, q)| <= MAX_CHILDREN)
  }

  // ---------- what the tree contains ----------

  /** Every path that leads somewhere is part of a known entry's path, and every path to a file is a file entry's. */
  ghost predicate KnownAt(fs: Fs, ks: seq<Record>, q: Path) {
    match Walk(fs, 0, q)
    case None => true
    case Some(n) =>
      n in fs.nodes && (q != [] ==>
          exists e :: e in ks && q <= e.path && (fs.nodes[n].kind == File ==> q == e.path && !e.dir))
  }

  ghost predicate Known(fs: Fs, ks: seq<Record>) {
    forall q: Path :: KnownAt(fs, ks, q)
  }

  /** One path to a node. */
  ghost predicate Unique(fs: Fs) {
    forall p: Path, q: Path :: Walk(fs, 0, p).Some? && Walk(fs, 0, p) == Walk(fs, 0, q) ==> p == q
  }

  ghost predicate KnownTree(fs: Fs, ks: seq<Record>) {
    Ok(fs) && Known(fs, ks) && Unique(fs)
  }

  /** The entry's path leads to a node of its kind, with its bytes. */
  ghost predicate Placed(fs: Fs, e: Record) {
    match Walk(fs, 0, e.path)
    case None => false
    case Some(n) =>
      && n in fs.nodes && fs.nodes[n].kind == (if e.dir then Directory else File)
      && (!e.dir ==> fs.nodes[n].data == if e.slice.size > 0 then e.slice else Slice(0, 0))
  }

  lemma UniqueCreate(fs: Fs, parent: nat, name: Name, kind: Kind)
    requires Ok(fs) && Unique(fs) && Creates(fs, parent, name)
    ensures Unique(CreateNode(fs, parent, name, kind).0)
  {
    var gs := CreateNode(fs, parent, name, kind).0;
    forall p: Path, q: Path | Walk(gs, 0, p).Some? && Walk(gs, 0, p) == Walk(gs, 0, q)
      ensures p == q
    {
      SamePath(fs, parent, name, kind, p, q);
    }
  }

  lemma WalkThere(fs: Fs, from: nat, q: Path)
    requires Ok(fs) && from in fs.nodes && Walk(fs, from, q).Some?
    ensures Walk(fs, from, q).value in fs.nodes
  {
    WalkGrown(fs, fs, from, q);
  }

  lemma SamePath(fs: Fs, parent: nat, name: Name, kind: Kind, p: Path, q: Path)
    requires Ok(fs) && Unique(fs) && Creates(fs, parent, name)
    requires var gs := CreateNode(fs, parent, name, kind).0; Walk(gs, 0, p).Some? && Walk(gs, 0, p) == Walk(gs, 0, q)
    ensures p == q
  {
    hide CreateNode, Walk, Creates;
    CreateOk(fs, parent, name, kind);
    CreateWalk(fs, parent, name, kind, 0, p);
    CreateWalk(fs, parent, name, kind, 0, q);
    if Walk(fs, 0, p).Some? {
      WalkThere(fs, 0, p);
    }
    if Walk(fs, 0, q).Some? {
      WalkThere(fs, 0, q);
    }
    if p != [] && q != [] {
      assert p == p[..|p| - 1] + [p[|p| - 1]] && q == q[..|q| - 1] + [q[|q| - 1]];
    }
  }

  /** A node below path `done` makes its path known. */
  lemma KnownCreate(fs: Fs, ks: seq<Record>, parent: nat, name: Name, kind: Kind, done: Path, e: Record)
    requires Ok(fs) && Known(fs, ks) && Unique(fs) && Creates(fs, parent, name) && Walk(fs, 0, done) == Some(parent)
    requires e in ks && done + [name] <= e.path && (kind == File ==> done + [name] == e.path && !e.dir)
    ensures Known(CreateNode(fs, parent, name, kind).0, ks)
  {
    hide DirOk;
    var gs := CreateNode(fs, parent, name, kind).0;
    CreateOk(fs, parent, name, kind);
    forall q: Path
      ensures KnownAt(gs, ks, q)
    {
      hide CreateNode, Walk, Creates, Ok;
      CreateWalk(fs, parent, name, kind, 0, q);
      assert KnownAt(fs, ks, q);
      if Walk(gs, 0, q) != Walk(fs, 0, q) {
        assert q == q[..|q| - 1] + [name];
        assert q[..|q| - 1] == done;
      }
    }
  }

  /** The directory at `q` has room for a child that some entry needs. */
  lemma Room(fs: Fs, ks: seq<Record>, es: seq<Record>, q: Path, d: nat, name: Name)
    requires Ok(fs) && Known(fs, ks) && Walk(fs, 0, q) == Some(d) && d in fs.nodes && FindChild(fs, d, name).None?
    requires name in Kids(es, q) && |Kids(es, q)| <= MAX_CHILDREN
    requires forall p: Path :: Kids(ks, p) <= Kids(es, p)
    ensures |fs.nodes[d].children| < MAX_CHILDREN
  {
    var cs := fs.nodes[d].children;
    assert DirOk(fs, d);
    forall i: nat | i < |cs|
      ensures NameOf(fs, cs[i]) in Kids(es, q) - {name}
    {
      Picked(fs, cs, name);
      ChildFound(fs, d, i);
      ChildKnown(fs, ks, q, d, i);
    }
    DistinctCount(fs, cs, Kids(es, q) - {name});
  }

  lemma {:induction false} PickFirst(fs: Fs, ns: seq<nat>, i: nat)
    requires i < |ns| && forall j, k :: 0 <= j < k < |ns| ==> NameOf(fs, ns[j]) != NameOf(fs, ns[k])
    ensures Pick(fs, ns, NameOf(fs, ns[i])) == Some(ns[i])
  {
    if i > 0 {
      PickFirst(fs, ns[1..], i - 1);
    }
  }

  lemma ChildFound(fs: Fs, d: nat, i: nat)
    requires d in fs.nodes && DirOk(fs, d) && i < |fs.nodes[d].children|
    ensures FindChild(fs, d, NameOf(fs, fs.nodes[d].children[i])) == Some(fs.nodes[d].children[i])
  {
    PickFirst(fs, fs.nodes[d].children, i);
  }

  lemma ChildKnown(fs: Fs, ks: seq<Record>, q: Path, d: nat, i: nat)
    requires Known(fs, ks) && Walk(fs, 0, q) == Some(d) && d in fs.nodes && i < |fs.nodes[d].children|
    requires FindChild(fs, d, NameOf(fs, fs.nodes[d].children[i])) == Some(fs.nodes[d].children[i])
    ensures NameOf(fs, fs.nodes[d].children[i]) in Kids(ks, q)
  {
    var name := NameOf(fs, fs.nodes[d].children[i]);
    WalkThen(fs, 0, q, [name]);
    assert KnownAt(fs, ks, q + [name]);
    var e :| e in ks && q + [name] <= e.path;
    assert e.path[|q|] == (q + [name])[|q|];
  }

  /** Nodes with different names out of a set are no more than the set. */
  lemma {:induction false} DistinctCount(fs: Fs, ns: seq<nat>, names: set<Name>)
    requires forall i, j :: 0 <= i < j < |ns| ==> NameOf(fs, ns[i]) != NameOf(fs, ns[j])
    requires forall i :: 0 <= i < |ns| ==> NameOf(fs, ns[i]) in names
    ensures |ns| <= |names|
    decreases |ns|
  {
    if ns != [] {
      var n := NameOf(fs, ns[0]);
      assert n in names;
      DistinctCount(fs, ns[1..], names - {n});
    }
  }

  // ---------- one entry ----------

  /** The entries `ks` that the tree may hold, against all entries `es`: room everywhere, `goal` a directory. */
  ghost predicate Goal(ks: seq<Record>, es: seq<Record>, goal: Record) {
    && goal in ks && goal.dir
    && (forall i :: 0 <= i < |goal.path| ==> goal.path[i] != [])
    && (forall e :: e in ks && !e.dir ==> !(e.path <= goal.path))
    && (forall p: Path :: Kids(ks, p) <= Kids(es, p) && |Kids(es, p)| <= MAX_CHILDREN)
  }

  /** On the way to a directory there are only directories. */
  lemma OnTheWay(fs: Fs, ks: seq<Record>, es: seq<Record>, goal: Record, q: Path, n: nat)
    requires Ok(fs) && Known(fs, ks) && Goal(ks, es, goal) && q <= goal.path && Walk(fs, 0, q) == Some(n)
    ensures n in fs.nodes && fs.nodes[n].kind == Directory
  {
    assert KnownAt(fs, ks, q);
    if q != [] {
      var e :| e in ks && q <= e.path && (fs.nodes[n].kind == File ==> q == e.path && !e.dir);
    }
  }

  lemma InKids(es: seq<Record>, e: Record, q: Path)
    requires e in es && q < e.path
    ensures e.path[|q|] in Kids(es, q)
  {
  }

  /** `mkdir` makes what is missing on the way, and nothing else. */
  lemma {:induction false} MkdirGood(fs: Fs, ks: seq<Record>, es: seq<Record>, goal: Record, done: Path, from: nat,
      rest: Path)
    requires KnownTree(fs, ks) && Goal(ks, es, goal) && done + rest == goal.path && Walk(fs, 0, done) == Some(from)
    ensures var (gs, n) := MkdirFrom(fs, from, rest);
            && n.Some? && KnownTree(gs, ks) && Grown(fs, gs) && Walk(gs, 0, goal.path) == n
            && n.value in gs.nodes && gs.nodes[n.value].kind == Directory
    decreases |rest|
  {
    OnTheWay(fs, ks, es, goal, done, from);
    if rest == [] {
      assert done == goal.path;
    } else {
      var q := done + [rest[0]];
      assert q + rest[1..] == goal.path && goal.path[|done|] == rest[0];
      WalkThen(fs, 0, done, [rest[0]]);
      var c := FindChild(fs, from, rest[0]);
      assert Walk(fs, from, [rest[0]]) == c;
      if c.Some? {
        OnTheWay(fs, ks, es, goal, q, c.value);
        MkdirGood(fs, ks, es, goal, q, c.value, rest[1..]);
      } else {
        MkdirNew(fs, ks, es, goal, done, from, rest[0]);
        var gs := CreateNode(fs, from, rest[0], Directory).0;
        MkdirGood(gs, ks, es, goal, q, fs.next, rest[1..]);
        GrownTrans(fs, gs, MkdirFrom(gs, fs.next, rest[1..]).0);
      }
    }
  }

  /** One directory that was missing. */
  lemma MkdirNew(fs: Fs, ks: seq<Record>, es: seq<Record>, goal: Record, done: Path, from: nat, name: Name)
    requires KnownTree(fs, ks) && Goal(ks, es, goal) && done + [name] <= goal.path && Walk(fs, 0, done) == Some(from)
    requires from in fs.nodes && fs.nodes[from].kind == Directory && FindChild(fs, from, name).None?
    ensures var (gs, n) := CreateNode(fs, from, name, Directory);
            n == Some(fs.next) && KnownTree(gs, ks) && Grown(fs, gs) && Walk(gs, 0, done + [name]) == n
  {
    assert goal.path[|done|] == (done + [name])[|done|] == name;
    assert done < goal.path;
    InKids(ks, goal, done);
    Room(fs, ks, es, done, from, name);
    NewNode(fs, ks, goal, done, from, name, Directory);
  }

  lemma NewNode(fs: Fs, ks: seq<Record>, e: Record, done: Path, from: nat, name: Name, kind: Kind)
    requires KnownTree(fs, ks) && e in ks && done + [name] <= e.path && Walk(fs, 0, done) == Some(from)
             && Creates(fs, from, name)
    requires kind == File ==> done + [name] == e.path && !e.dir
    ensures var (gs, n) := CreateNode(fs, from, name, kind);
            && n == Some(fs.next) && KnownTree(gs, ks) && Grown(fs, gs) && Walk(gs, 0, done + [name]) == n
               && fs.next !in fs.nodes
            && fs.next in gs.nodes && gs.nodes[fs.next] == Node(name, kind, Slice(0, 0), [])
  {
    CreateOk(fs, from, name, kind);
    KnownCreate(fs, ks, from, name, kind, done, e);
    UniqueCreate(fs, from, name, kind);
    var gs := CreateNode(fs, from, name, kind).0;
    WalkGrown(fs, gs, 0, done);
    WalkThen(gs, 0, done, [name]);
    CreateChild(fs, from, name, kind, from, name);
    assert Walk(gs, from, [name]) == FindChild(gs, from, name);
  }

  lemma KnownMore(fs: Fs, a: seq<Record>, b: seq<Record>)
    requires Known(fs, a) && forall e :: e in a ==> e in b
    ensures Known(fs, b)
  {
    forall q: Path
      ensures KnownAt(fs, b, q)
    {
      assert KnownAt(fs, a, q);
    }
  }

  lemma PlacedGrown(fs: Fs, gs: Fs, e: Record)
    requires Ok(fs) && Grown(fs, gs) && Placed(fs, e)
    ensures Placed(gs, e)
  {
    WalkGrown(fs, gs, 0, e.path);
  }

  /** Setting the data of a node that no other entry's path leads to. */
  lemma PlacedData(fs: Fs, e: Record, n: nat, s: Slice)
    requires Ok(fs) && Placed(fs, e) && Walk(fs, 0, e.path) != Some(n)
    ensures Placed(SetData(fs, n, s), e)
  {
    DataWalk(fs, n, s, 0, e.path);
  }

  lemma TreeData(fs: Fs, ks: seq<Record>, n: nat, s: Slice)
    requires KnownTree(fs, ks)
    ensures KnownTree(SetData(fs, n, s), ks)
  {
    DataOk(fs, n, s);
    var gs := SetData(fs, n, s);
    forall q: Path
      ensures Walk(gs, 0, q) == Walk(fs, 0, q) && KnownAt(gs, ks, q)
    {
      DataWalk(fs, n, s, 0, q);
      assert KnownAt(fs, ks, q);
    }
  }

  lemma SubKids(ks: seq<Record>, es: seq<Record>, p: Path)
    requires forall e :: e in ks ==> exists f :: f in es && e.path <= f.path
    ensures Kids(ks, p) <= Kids(es, p)
  {
    forall name | name in Kids(ks, p)
      ensures name in Kids(es, p)
    {
      var e :| e in ks && p < e.path && name == e.path[|p|];
      var f :| f in es && e.path <= f.path;
      assert f.path[|p|] == e.path[|p|];
      InKids(es, f, p);
    }
  }

  /** What has been built after the first `i` entries. */
  ghost predicate Built(fs: Fs, es: seq<Record>, i: nat) {
    && i <= |es| && KnownTree(fs, es[..i]) && forall j :: 0 <= j < i ==> Placed(fs, es[j])
  }

  lemma DirGoal(es: seq<Record>, i: nat)
    requires Consistent(es) && i < |es| && es[i].dir
    ensures Goal(es[..i + 1], es, es[i])
  {
    var ks := es[..i + 1];
    assert ks[i] in ks;
    assert es[i] in es;
    forall e | e in ks && !e.dir
      ensures !(e.path <= es[i].path)
    {
      var j: nat :| j < |ks| && ks[j] == e;
      assert ks[j] == es[j];
    }
    forall p: Path
      ensures Kids(ks, p) <= Kids(es, p) && |Kids(es, p)| <= MAX_CHILDREN
    {
      Prefixes(es, i + 1);
      SubKids(ks, es, p);
    }
  }

  lemma Prefixes(es: seq<Record>, i: nat)
    requires i <= |es|
    ensures forall e :: e in es[..i] ==> exists f :: f in es && e.path <= f.path
  {
    forall e | e in es[..i]
      ensures e in es && e.path <= e.path
    {
    }
  }

  lemma BuildDir(fs: Fs, es: seq<Record>, i: nat)
    requires Consistent(es) && Built(fs, es, i) && i < |es| && es[i].dir && es[i].path != []
    ensures Built(Apply(fs, es[i]), es, i + 1)
  {
    hide KnownTree, Consistent, Goal, MkdirFrom, Grown, Placed;
    var ks := es[..i + 1];
    TreeMore(fs, es[..i], ks);
    DirGoal(es, i);
    assert [] + es[i].path == es[i].path;
    MkdirGood(fs, ks, es, es[i], [], 0, es[i].path);
    var gs := MkdirFrom(fs, 0, es[i].path).0;
    DirPlaced(gs, es[i]);
    StillPlaced(fs, gs, es, i);
  }

  lemma DirPlaced(gs: Fs, e: Record)
    requires e.dir && Walk(gs, 0, e.path).Some? && Walk(gs, 0, e.path).value in gs.nodes
    requires gs.nodes[Walk(gs, 0, e.path).value].kind == Directory
    ensures Placed(gs, e)
  {
  }

  lemma TreeMore(fs: Fs, a: seq<Record>, b: seq<Record>)
    requires KnownTree(fs, a) && forall e :: e in a ==> e in b
    ensures KnownTree(fs, b)
  {
    KnownMore(fs, a, b);
  }

  lemma StillPlaced(fs: Fs, gs: Fs, es: seq<Record>, i: nat)
    requires Built(fs, es, i) && Grown(fs, gs)
    ensures forall j :: 0 <= j < i ==> Placed(gs, es[j])
  {
    forall j | 0 <= j < i
      ensures Placed(gs, es[j])
    {
      PlacedGrown(fs, gs, es[j]);
    }
  }

  // ---------- files ----------

  function DirOf(p: Path): Path
    requires p != []
  {
    p[..|p| - 1]
  }

  function Last(p: Path): Name
    requires p != []
  {
    p[|p| - 1]
  }

  /** The directory a file needs, as a goal of its own. */
  function Above(e: Record): Record
    requires e.path != []
  {
    Record(DirOf(e.path), true, Slice(0, 0))
  }

  lemma FileGoal(es: seq<Record>, i: nat)
    requires Consistent(es) && i < |es| && !es[i].dir && es[i].path != []
    ensures Goal(es[..i] + [Above(es[i])], es, Above(es[i]))
  {
    var ks, goal := es[..i] + [Above(es[i])], Above(es[i]);
    assert ks[i] == goal;
    assert es[i] in es;
    forall e | e in ks && !e.dir
      ensures !(e.path <= goal.path)
    {
      var j: nat :| j < |ks| && ks[j] == e;
      assert es[j] == e && goal.path <= es[i].path;
    }
    forall e | e in ks
      ensures exists f :: f in es && e.path <= f.path
    {
      if e == goal {
        assert es[i] in es && e.path <= es[i].path;
      } else {
        assert e in es[..i];
        Prefixes(es, i);
      }
    }
    forall p: Path
      ensures Kids(ks, p) <= Kids(es, p) && |Kids(es, p)| <= MAX_CHILDREN
    {
      SubKids(ks, es, p);
    }
  }

  /** The directory of a file, found or made. */
  lemma FileDir(fs: Fs, es: seq<Record>, i: nat) returns (gs: Fs, d: nat)
    requires Consistent(es) && Built(fs, es, i) && i < |es| && !es[i].dir && es[i].path != []
    ensures var dirs := DirOf(es[i].path);
            && (if Walk(fs, 0, dirs).Some? then gs == fs && Some(d) == Walk(fs, 0, dirs)
               else (gs, Some(d)) == MkdirFrom(fs, 0, dirs))
            && KnownTree(gs, es[..i] + [Above(es[i])]) && Grown(fs, gs) && Walk(gs, 0, dirs) == Some(d)
            && d in gs.nodes && gs.nodes[d].kind == Directory
  {
    hide Consistent, Goal, MkdirFrom, Placed;
    var ks, goal := es[..i] + [Above(es[i])], Above(es[i]);
    FileGoal(es, i);
    TreeMore(fs, es[..i], ks);
    var w := Walk(fs, 0, goal.path);
    if w.Some? {
      gs, d := fs, w.value;
      OnTheWay(fs, ks, es, goal, goal.path, d);
    } else {
      assert [] + goal.path == goal.path;
      MkdirGood(fs, ks, es, goal, [], 0, goal.path);
      gs, d := MkdirFrom(fs, 0, goal.path).0, MkdirFrom(fs, 0, goal.path).1.value;
    }
  }

  /** The file is not there yet. */
  lemma FileIsNew(gs: Fs, es: seq<Record>, i: nat, d: nat)
    requires Consistent(es) && i < |es| && !es[i].dir && es[i].path != []
    requires Known(gs, es[..i] + [Above(es[i])]) && Walk(gs, 0, DirOf(es[i].path)) == Some(d)
    ensures FindChild(gs, d, Last(es[i].path)) == None
  {
    var p := es[i].path;
    var ks := es[..i] + [Above(es[i])];
    WalkThen(gs, 0, DirOf(p), [Last(p)]);
    assert DirOf(p) + [Last(p)] == p;
    assert Walk(gs, d, [Last(p)]) == FindChild(gs, d, Last(p));
    assert KnownAt(gs, ks, p);
    NotBefore(es, i);
    assert forall e :: e in ks ==> e in es[..i] || e == Above(es[i]);
    assert forall e :: e in ks ==> !(p <= e.path);
  }

  /** No earlier entry needs a file's path. */
  lemma NotBefore(es: seq<Record>, i: nat)
    requires Consistent(es) && i < |es| && !es[i].dir
    ensures forall e :: e in es[..i] ==> !(es[i].path <= e.path)
  {
    forall e | e in es[..i]
      ensures !(es[i].path <= e.path)
    {
      var j: nat :| j < i && es[..i][j] == e;
      assert es[j] == e;
    }
  }

  lemma KnownSwap(gs: Fs, es: seq<Record>, i: nat)
    requires i < |es| && es[i].path != [] && Known(gs, es[..i] + [Above(es[i])])
    ensures Known(gs, es[..i + 1])
  {
    var ks, ls := es[..i] + [Above(es[i])], es[..i + 1];
    assert ls[i] == es[i];
    forall q: Path
      ensures KnownAt(gs, ls, q)
    {
      assert KnownAt(gs, ks, q);
      if Walk(gs, 0, q).Some? && q != [] {
        var n := Walk(gs, 0, q).value;
        var e :| e in ks && q <= e.path && (gs.nodes[n].kind == File ==> q == e.path && !e.dir);
        if e == Above(es[i]) {
          assert es[i] in ls && q <= es[i].path;
        } else {
          assert e in es[..i] && forall f :: f in es[..i] ==> f in ls;
        }
      }
    }
  }

  lemma FileRoom(gs: Fs, es: seq<Record>, i: nat, d: nat)
    requires Consistent(es) && i < |es| && es[i].path != [] && Ok(gs) && Known(gs, es[..i + 1])
    requires Walk(gs, 0, DirOf(es[i].path)) == Some(d) && d in gs.nodes && FindChild(gs, d, Last(es[i].path)).None?
    ensures |gs.nodes[d].children| < MAX_CHILDREN && Last(es[i].path) != []
  {
    var dirs := DirOf(es[i].path);
    assert es[i] in es;
    InKids(es, es[i], dirs);
    forall p: Path
      ensures Kids(es[..i + 1], p) <= Kids(es, p)
    {
      Prefixes(es, i + 1);
      SubKids(es[..i + 1], es, p);
    }
    Room(gs, es[..i + 1], es, dirs, d, Last(es[i].path));
  }

  lemma BuildFile(fs: Fs, es: seq<Record>, i: nat)
    requires Consistent(es) && Built(fs, es, i) && i < |es| && !es[i].dir && es[i].path != []
    ensures Built(Apply(fs, es[i]), es, i + 1)
  {
    hide Consistent, MkdirFrom, CreateNode, Known, Unique, Grown;
    var e := es[i];
    var gs, d := FileDir(fs, es, i);
    FileIsNew(gs, es, i, d);
    KnownSwap(gs, es, i);
    FileRoom(gs, es, i, d);
    assert es[..i + 1][i] == e;
    assert DirOf(e.path) + [Last(e.path)] == e.path;
    NewNode(gs, es[..i + 1], e, DirOf(e.path), d, Last(e.path), File);
    var hs := CreateNode(gs, d, Last(e.path), File).0;
    StillPlaced(fs, gs, es, i);
    StillOk(fs, gs, hs, es, i);
    FileApply(fs, gs, hs, e, d);
    FillFile(gs, hs, es, i);
  }

  lemma StillOk(fs: Fs, gs: Fs, hs: Fs, es: seq<Record>, i: nat)
    requires Ok(gs) && Grown(gs, hs) && i <= |es| && forall j :: 0 <= j < i ==> Placed(gs, es[j])
    ensures forall j :: 0 <= j < i ==> Placed(hs, es[j]) && Walk(hs, 0, es[j].path) != Some(gs.next)
  {
    forall j | 0 <= j < i
      ensures Placed(hs, es[j]) && Walk(hs, 0, es[j].path) != Some(gs.next)
    {
      PlacedGrown(gs, hs, es[j]);
      WalkGrown(gs, hs, 0, es[j].path);
    }
  }

  /** The steps of a file entry, put together. */
  lemma FileApply(fs: Fs, gs: Fs, hs: Fs, e: Record, d: nat)
    requires !e.dir && e.path != [] && Last(e.path) != []
    requires if Walk(fs, 0, DirOf(e.path)).Some? then gs == fs && Some(d) == Walk(fs, 0, DirOf(e.path))
             else (gs, Some(d)) == MkdirFrom(fs, 0, DirOf(e.path))
    requires CreateNode(gs, d, Last(e.path), File) == (hs, Some(gs.next))
    ensures Apply(fs, e) == if e.slice.size > 0 then SetData(hs, gs.next, e.slice) else hs
  {
  }

  lemma FillFile(gs: Fs, hs: Fs, es: seq<Record>, i: nat)
    requires i < |es| && !es[i].dir && KnownTree(hs, es[..i + 1]) && Walk(hs, 0, es[i].path) == Some(gs.next)
    requires gs.next in hs.nodes && hs.nodes[gs.next].kind == File && hs.nodes[gs.next].data == Slice(0, 0)
    requires forall j :: 0 <= j < i ==> Placed(hs, es[j]) && Walk(hs, 0, es[j].path) != Some(gs.next)
    ensures Built(if es[i].slice.size > 0 then SetData(hs, gs.next, es[i].slice) else hs, es, i + 1)
  {
    hide KnownTree;
    var n, s := gs.next, es[i].slice;
    if s.size > 0 {
      TreeData(hs, es[..i + 1], n, s);
      TreeOk(hs, es[..i + 1]);
      DataWalk(hs, n, s, 0, es[i].path);
      forall j | 0 <= j < i
        ensures Placed(SetData(hs, n, s), es[j])
      {
        PlacedData(hs, es[j], n, s);
      }
    }
  }

  lemma TreeOk(fs: Fs, ks: seq<Record>)
    requires KnownTree(fs, ks)
    ensures Ok(fs)
  {
  }

  lemma {:induction false} BuildRest(fs: Fs, es: seq<Record>, i: nat)
    requires Consistent(es) && Built(fs, es, i) && i <= |es| && forall e :: e in es ==> e.path != []
    ensures Built(ApplyAll(fs, es[i..]), es, |es|)
    decreases |es| - i
  {
    hide Consistent, Built, Apply;
    if i < |es| {
      assert es[i] in es;
      if es[i].dir {
        BuildDir(fs, es, i);
      } else {
        BuildFile(fs, es, i);
      }
      assert es[i..][0] == es[i] && es[i..][1..] == es[i + 1..];
      BuildRest(Apply(fs, es[i]), es, i + 1);
    }
  }

  lemma EmptyBuilt(es: seq<Record>)
    ensures Built(EmptyFs(), es, 0)
  {
    var fs := EmptyFs();
    assert DirOk(fs, 0);
    forall q: Path
      ensures Walk(fs, 0, q) == if q == [] then Some(0) else None
    {
      if q != [] {
        assert FindChild(fs, 0, q[0]) == None;
      }
    }
  }

  /** From an empty tree, every entry of a consistent list ends up at its path, with its kind and its bytes. */
  lemma AllPlaced(es: seq<Record>, j: nat)
    requires Consistent(es) && j < |es|
    ensures forall e :: e in es ==> e.path != []
    ensures Placed(ApplyAll(EmptyFs(), es), es[j])
  {
    EmptyBuilt(es);
    assert es[0..] == es;
    BuildRest(EmptyFs(), es, 0);
  }
}
