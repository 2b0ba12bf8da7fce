/** The file tree: nodes named by number, 0 the root; what finding, making directories and making files do. */
module Vfs {
  import opened Layout

  const SLASH: Byte := 47
  const NAME_MAX: nat := 64
  const MAX_CHILDREN: nat := 64

  type Name = seq<Byte>
  type Path = seq<Name>

  datatype Kind = File | Directory
  /** Borrowed bytes: a part of the archive. */
  datatype Slice = Slice(at: nat, size: nat)
  datatype Node = Node(name: Name, kind: Kind, data: Slice, children: seq<nat>)

  datatype Fs = Fs(nodes: map<nat, Node>, next: nat)

  /** `vfs_init`. */
  function EmptyFs(): Fs {
    Fs(map[0 := Node([SLASH], Directory, Slice(0, 0), [])], 1)
  }

  function NameOf(fs: Fs, n: nat): Name {
    if n in fs.nodes then fs.nodes[n].name else []
  }

  /** The first of these nodes with this name. */
  function Pick(fs: Fs, ns: seq<nat>, name: Name): Option<nat> {
    if ns == [] then None else if NameOf(fs, ns[0]) == name then Some(ns[0]) else Pick(fs, ns[1..], name)
  }

  /** `vfs_find_child`. */
  function FindChild(fs: Fs, dir: nat, name: Name): Option<nat> {
    if dir in fs.nodes then Pick(fs, fs.nodes[dir].children, name) else None
  }

  /** The node at the end of a path. */
  function Walk(fs: Fs, from: nat, path: Path): Option<nat>
    decreases |path|
  {
    if path == [] then Some(from)
    else match FindChild(fs, from, path[0])
      case None => None
      case Some(n) => Walk(fs, n, path[1..])
  }

  /** `vfs_create_node`, when a node can be allocated. */
  function CreateNode(fs: Fs, parent: nat, name: Name, kind: Kind): (Fs, Option<nat>) {
    if parent !in fs.nodes || name == [] || fs.nodes[parent].kind != Directory then (fs, None)
    else if FindChild(fs, parent, name).Some? then (fs, FindChild(fs, parent, name))
    else if |fs.nodes[parent].children| >= MAX_CHILDREN then (fs, None)
    else
      var p := fs.nodes[parent];
      (Fs(fs.nodes[fs.next := Node(name, kind, Slice(0, 0), [])][parent := p.(children := p.children + [fs.next])],
          fs.next + 1),
       Some(fs.next))
  }

  /** `vfs_mkdir`, from a directory on. */
  function MkdirFrom(fs: Fs, from: nat, path: Path): (Fs, Option<nat>)
    decreases |path|
  {
    if path == [] then (fs, Some(from))
    else match FindChild(fs, from, path[0])
      case Some(n) => if n in fs.nodes && fs.nodes[n].kind == Directory then MkdirFrom(fs, n, path[1..]) else (fs, None)
      case None =>
        var (gs, n) := CreateNode(fs, from, path[0], Directory);
        if n.None? then (gs, None) else MkdirFrom(gs, n.value, path[1..])
  }

  /** `vfs_create_file`: the directory is looked up, or made. */
  function CreateFile(fs: Fs, dir: Path, name: Name): (Fs, Option<nat>) {
    if name == [] then (fs, None)
    else match Walk(fs, 0, dir)
      case Some(d) => CreateNode(fs, d, name, File)
      case None =>
        var (gs, d) := MkdirFrom(fs, 0, dir);
        if d.None? then (gs, None) else CreateNode(gs, d.value, name, File)
  }

  /** `vfs_set_data`: only a file gets data. */
  function SetData(fs: Fs, n: nat, s: Slice): Fs {
    if n in fs.nodes && fs.nodes[n].kind == File then fs.(nodes := fs.nodes[n := fs.nodes[n].(data := s)]) else fs
  }

  // ---------- well-formed trees ----------

  /** The children of a directory exist, have different names, and are not more than fit. A file has none, and only a
      file has data. */
  ghost predicate DirOk(fs: Fs, d: nat)
    requires d in fs.nodes
  {
    var cs := fs.nodes[d].children;
    && |cs| <= MAX_CHILDREN && (if fs.nodes[d].kind == File then cs == [] else fs.nodes[d].data == Slice(0, 0))
    && (forall i :: 0 <= i < |cs| ==> cs[i] in fs.nodes && fs.nodes[cs[i]].name != [])
    && (forall i, j :: 0 <= i < j < |cs| ==> NameOf(fs, cs[i]) != NameOf(fs, cs[j]))
  }

  ghost predicate Ok(fs: Fs) {
    && 0 in fs.nodes && fs.nodes[0].kind == Directory
    && (forall n :: n in fs.nodes ==> n < fs.next && DirOk(fs, n))
  }

  /** Nothing that was there is gone, renamed, retyped or changed. */
  ghost predicate Grown(fs: Fs, gs: Fs) {
    && fs.next <= gs.next
    && forall n :: n in fs.nodes ==>
         n in gs.nodes && gs.nodes[n].name == fs.nodes[n].name && gs.nodes[n].kind == fs.nodes[n].kind
         && gs.nodes[n].data == fs.nodes[n].data && fs.nodes[n].children <= gs.nodes[n].children
  }

  lemma {:induction false} Picked(fs: Fs, ns: seq<nat>, name: Name)
    ensures var r := Pick(fs, ns, name);
            && (r.Some? ==> r.value in ns && NameOf(fs, r.value) == name)
            && (r.None? ==> forall i :: 0 <= i < |ns| ==> NameOf(fs, ns[i]) != name)
  {
    if ns != [] {
      Picked(fs, ns[1..], name);
      assert forall i :: 0 < i < |ns| ==> ns[i] == ns[1..][i - 1];
    }
  }

  /** More children and unchanged names: what was found is found. */
  lemma {:induction false} PickGrown(fs: Fs, gs: Fs, ns: seq<nat>, ms: seq<nat>, name: Name)
    requires Pick(fs, ns, name).Some? && ns <= ms && forall i :: 0 <= i < |ns| ==>
             NameOf(gs, ns[i]) == NameOf(fs, ns[i])
    ensures Pick(gs, ms, name) == Pick(fs, ns, name)
  {
    assert ns[0] == ms[0];
    if NameOf(fs, ns[0]) != name {
      assert ns[1..] <= ms[1..];
      PickGrown(fs, gs, ns[1..], ms[1..], name);
    }
  }

  lemma ChildGrown(fs: Fs, gs: Fs, d: nat, name: Name)
    requires Ok(fs) && Grown(fs, gs) && FindChild(fs, d, name).Some?
    ensures FindChild(gs, d, name) == FindChild(fs, d, name) && FindChild(fs, d, name).value in fs.nodes
  {
    Picked(fs, fs.nodes[d].children, name);
    PickGrown(fs, gs, fs.nodes[d].children, gs.nodes[d].children, name);
  }

  /** Growing a tree keeps every path leading where it led. */
  lemma {:induction false} WalkGrown(fs: Fs, gs: Fs, from: nat, path: Path)
    requires Ok(fs) && Grown(fs, gs) && from in fs.nodes && Walk(fs, from, path).Some?
    ensures Walk(gs, from, path) == Walk(fs, from, path) && Walk(fs, from, path).value in fs.nodes
    decreases |path|
  {
    if path != [] {
      ChildGrown(fs, gs, from, path[0]);
      WalkGrown(fs, gs, FindChild(fs, from, path[0]).value, path[1..]);
    }
  }

  lemma {:induction false} WalkThen(fs: Fs, from: nat, a: Path, b: Path)
    ensures Walk(fs, from, a + b) == match Walk(fs, from, a) case None => None case Some(n) => Walk(fs, n, b)
    decreases |a|
  {
    if a == [] {
      assert a + b == b;
    } else {
      assert (a + b)[1..] == a[1..] + b;
      match FindChild(fs, from, a[0])
      case None =>
      case Some(n) => WalkThen(fs, n, a[1..], b);
    }
  }

  lemma GrownTrans(a: Fs, b: Fs, c: Fs)
    requires Grown(a, b) && Grown(b, c)
    ensures Grown(a, c)
  {
  }

  // ---------- creating a node ----------

  /** A child that is really new. */
  ghost predicate Creates(fs: Fs, parent: nat, name: Name) {
    && parent in fs.nodes && fs.nodes[parent].kind == Directory && name != []
    && FindChild(fs, parent, name).None? && |fs.nodes[parent].children| < MAX_CHILDREN
  }

  lemma CreateOk(fs: Fs, parent: nat, name: Name, kind: Kind)
    requires Ok(fs) && Creates(fs, parent, name)
    ensures var (gs, n) := CreateNode(fs, parent, name, kind);
            && n == Some(fs.next) && fs.next !in fs.nodes && Ok(gs) && Grown(fs, gs)
            && gs.nodes[fs.next] == Node(name, kind, Slice(0, 0), []) && gs.nodes.Keys == fs.nodes.Keys + {fs.next}
            && gs.nodes[parent].children == fs.nodes[parent].children + [fs.next]
            && (forall m :: m in fs.nodes && m != parent ==> gs.nodes[m] == fs.nodes[m])
  {
    var gs := CreateNode(fs, parent, name, kind).0;
    assert fs.next !in fs.nodes;
    CreateGrown(fs, parent, name, kind);
    forall d | d in gs.nodes
      ensures DirOk(gs, d)
    {
      CreateDir(fs, parent, name, kind, d);
    }
    hide DirOk;
  }

  lemma CreateGrown(fs: Fs, parent: nat, name: Name, kind: Kind)
    requires Ok(fs) && Creates(fs, parent, name)
    ensures Grown(fs, CreateNode(fs, parent, name, kind).0)
  {
    hide DirOk;
  }

  ghost predicate NamesKept(fs: Fs, gs: Fs) {
    forall m :: m in fs.nodes ==> m in gs.nodes && gs.nodes[m].name == fs.nodes[m].name
  }

  lemma DirKept(fs: Fs, gs: Fs, d: nat)
    requires d in fs.nodes && DirOk(fs, d) && NamesKept(fs, gs) && d in gs.nodes
             && gs.nodes[d].children == fs.nodes[d].children && gs.nodes[d].kind == fs.nodes[d].kind
             && gs.nodes[d].data == fs.nodes[d].data
    ensures DirOk(gs, d)
  {
  }

  lemma DirMore(fs: Fs, gs: Fs, d: nat, n: nat)
    requires d in fs.nodes && DirOk(fs, d) && NamesKept(fs, gs) && d in gs.nodes
    requires fs.nodes[d].kind == Directory && gs.nodes[d].kind == Directory && gs.nodes[d].data == fs.nodes[d].data
             && |fs.nodes[d].children| < MAX_CHILDREN
    requires n in gs.nodes && gs.nodes[n].name != [] && gs.nodes[d].children == fs.nodes[d].children + [n]
    requires forall i :: 0 <= i < |fs.nodes[d].children| ==> NameOf(fs, fs.nodes[d].children[i]) != gs.nodes[n].name
    ensures DirOk(gs, d)
  {
  }

  lemma CreateDir(fs: Fs, parent: nat, name: Name, kind: Kind, d: nat)
    requires Ok(fs) && Creates(fs, parent, name) && d in CreateNode(fs, parent, name, kind).0.nodes
    ensures DirOk(CreateNode(fs, parent, name, kind).0, d)
  {
    var gs := CreateNode(fs, parent, name, kind).0;
    if d == parent {
      Picked(fs, fs.nodes[parent].children, name);
      hide DirOk, FindChild;
      DirMore(fs, gs, parent, fs.next);
    } else if d in fs.nodes {
      hide DirOk, FindChild;
      DirKept(fs, gs, d);
    }
  }

  lemma {:induction false} PickMore(fs: Fs, ns: seq<nat>, n: nat, name: Name)
    requires forall i :: 0 <= i < |ns| ==> NameOf(fs, ns[i]) != name
    ensures Pick(fs, ns + [n], name) == if NameOf(fs, n) == name then Some(n) else None
  {
    if ns != [] {
      assert (ns + [n])[1..] == ns[1..] + [n];
      assert NameOf(fs, ns[0]) != name;
      PickMore(fs, ns[1..], n, name);
    }
  }

  lemma {:induction false} PickSame(fs: Fs, gs: Fs, ns: seq<nat>, name: Name)
    requires forall i :: 0 <= i < |ns| ==> NameOf(gs, ns[i]) == NameOf(fs, ns[i])
    ensures Pick(gs, ns, name) == Pick(fs, ns, name)
  {
    if ns != [] {
      assert forall i :: 0 <= i < |ns[1..]| ==> ns[1..][i] == ns[i + 1];
      PickSame(fs, gs, ns[1..], name);
    }
  }

  /** The new node is found under its name, and no other lookup changes. */
  lemma CreateChild(fs: Fs, parent: nat, name: Name, kind: Kind, d: nat, other: Name)
    requires Ok(fs) && Creates(fs, parent, name)
    ensures var gs := CreateNode(fs, parent, name, kind).0;
            FindChild(gs, d, other) == if d == parent && other == name then Some(fs.next) else FindChild(fs, d, other)
  {
    var gs := CreateNode(fs, parent, name, kind).0;
    CreateOk(fs, parent, name, kind);
    if d in fs.nodes {
      assert DirOk(fs, d);
      var cs := fs.nodes[d].children;
      PickSame(fs, gs, cs, other);
      Picked(fs, cs, other);
      if d == parent {
        if FindChild(fs, d, other).Some? {
          PickGrown(fs, gs, cs, cs + [fs.next], other);
        } else {
          PickMore(gs, cs, fs.next, other);
        }
      }
    }
  }

  /** Whatever is asked for, the tree stays well formed and nothing in it changes but by growing. There is no answer
      exactly if the parent is no directory, the name is empty, or the directory is full and has no such child. */
  lemma CreateAny(fs: Fs, parent: nat, name: Name, kind: Kind)
    requires Ok(fs)
    ensures var (gs, n) := CreateNode(fs, parent, name, kind);
            && Ok(gs) && Grown(fs, gs)
            && (n.Some? ==> FindChild(gs, parent, name) == n && n.value in gs.nodes)
            && (n.None? ==> gs == fs)
            && (n.None? <==> !(parent in fs.nodes && fs.nodes[parent].kind == Directory && name != []
                               && (FindChild(fs, parent, name).Some? || |fs.nodes[parent].children| < MAX_CHILDREN)))
  {
    if Creates(fs, parent, name) {
      CreateOk(fs, parent, name, kind);
      CreateChild(fs, parent, name, kind, parent, name);
    } else if FindChild(fs, parent, name).Some? {
      ChildThere(fs, parent, name);
    }
  }

  /** Where making directories stops: a file is in the way, a name is empty, or a directory is full. */
  ghost predicate Stuck(fs: Fs, from: nat, path: Path) {
    exists i :: 0 <= i < |path| && StuckAt(fs, from, path, i)
  }

  ghost predicate StuckAt(fs: Fs, from: nat, path: Path, i: nat)
    requires i < |path|
  {
    match Walk(fs, from, path[..i])
    case None => false
    case Some(d) =>
      d in fs.nodes
      && match FindChild(fs, d, path[i])
         case Some(n) => n in fs.nodes && fs.nodes[n].kind == File
         case None => path[i] == [] || |fs.nodes[d].children| >= MAX_CHILDREN
  }

  /** One step further down. */
  lemma StuckBelow(fs: Fs, from: nat, path: Path, c: nat)
    requires path != [] && FindChild(fs, from, path[0]) == Some(c) && Stuck(fs, c, path[1..])
    ensures Stuck(fs, from, path)
  {
    var i: nat :| i < |path[1..]| && StuckAt(fs, c, path[1..], i);
    assert path[..i + 1][1..] == path[1..][..i];
    assert StuckAt(fs, from, path, i + 1);
  }

  /** `vfs_mkdir` ends in a directory at the end of the path, or has come as far as the tree allows; what was there
      stays. */
  lemma {:induction false} MkdirMeans(fs: Fs, from: nat, path: Path)
    requires Ok(fs) && from in fs.nodes && fs.nodes[from].kind == Directory
    ensures var (gs, n) := MkdirFrom(fs, from, path);
            && Ok(gs) && Grown(fs, gs)
            && (n.Some? ==> Walk(gs, from, path) == n && n.value in gs.nodes && gs.nodes[n.value].kind == Directory)
            && (n.None? ==> Stuck(gs, from, path))
    decreases |path|
  {
    hide CreateNode, DirOk;
    if path != [] {
      var c := FindChild(fs, from, path[0]);
      if c.Some? {
        ChildThere(fs, from, path[0]);
        if fs.nodes[c.value].kind == Directory {
          MkdirMeans(fs, c.value, path[1..]);
          ChildGrown(fs, MkdirFrom(fs, from, path).0, from, path[0]);
          MkdirDown(MkdirFrom(fs, from, path).0, from, path, c.value, MkdirFrom(fs, from, path).1);
        } else {
          assert path[..0] == [];
          assert StuckAt(fs, from, path, 0);
        }
      } else {
        MkdirNew(fs, from, path);
      }
    }
  }

  lemma MkdirDown(gs: Fs, from: nat, path: Path, c: nat, n: Option<nat>)
    requires path != [] && FindChild(gs, from, path[0]) == Some(c)
    ensures n.Some? && Walk(gs, c, path[1..]) == n ==> Walk(gs, from, path) == n
    ensures Stuck(gs, c, path[1..]) ==> Stuck(gs, from, path)
  {
    if Stuck(gs, c, path[1..]) {
      StuckBelow(gs, from, path, c);
    }
  }

  lemma {:induction false} MkdirNew(fs: Fs, from: nat, path: Path)
    requires Ok(fs) && from in fs.nodes && fs.nodes[from].kind == Directory && path != []
    requires FindChild(fs, from, path[0]).None?
    ensures var (gs, n) := MkdirFrom(fs, from, path);
            && Ok(gs) && Grown(fs, gs)
            && (n.Some? ==> Walk(gs, from, path) == n && n.value in gs.nodes && gs.nodes[n.value].kind == Directory)
            && (n.None? ==> Stuck(gs, from, path))
    decreases |path|, 0
  {
    hide DirOk;
    CreateAny(fs, from, path[0], Directory);
    var (gs, n) := CreateNode(fs, from, path[0], Directory);
    if n.Some? {
      CreateOk(fs, from, path[0], Directory);
      hide CreateNode;
      MkdirMeans(gs, n.value, path[1..]);
      var (hs, r) := MkdirFrom(gs, n.value, path[1..]);
      GrownTrans(fs, gs, hs);
      ChildGrown(gs, hs, from, path[0]);
      MkdirDown(hs, from, path, n.value, r);
    } else {
      assert path[..0] == [];
      assert StuckAt(fs, from, path, 0);
    }
  }

  /** Only paths that end in the new node are new. */
  lemma {:induction false} CreateWalk(fs: Fs, parent: nat, name: Name, kind: Kind, from: nat, q: Path)
    requires Ok(fs) && Creates(fs, parent, name) && from in fs.nodes
    ensures var gs := CreateNode(fs, parent, name, kind).0;
            var w := Walk(gs, from, q);
            w == Walk(fs, from, q)
            || (w == Some(fs.next) && q != [] && q[|q| - 1] == name && Walk(fs, from, q[..|q| - 1]) == Some(parent))
    decreases |q|
  {
    hide DirOk, CreateNode;
    var gs := CreateNode(fs, parent, name, kind).0;
    CreateOk(fs, parent, name, kind);
    if q != [] {
      CreateChild(fs, parent, name, kind, from, q[0]);
      var c := FindChild(gs, from, q[0]);
      if from == parent && q[0] == name {
        if |q| > 1 {
          assert FindChild(gs, fs.next, q[1]) == None;
        }
      } else if c.Some? {
        ChildThere(fs, from, q[0]);
        CreateWalk(fs, parent, name, kind, c.value, q[1..]);
        assert |q| > 1 ==> q[1..][..|q| - 2] == q[..|q| - 1][1..];
      }
    }
  }

  lemma ChildThere(fs: Fs, d: nat, name: Name)
    requires Ok(fs) && FindChild(fs, d, name).Some?
    ensures FindChild(fs, d, name).value in fs.nodes
  {
    assert DirOk(fs, d);
    Picked(fs, fs.nodes[d].children, name);
  }

  lemma DataOk(fs: Fs, n: nat, s: Slice)
    requires Ok(fs)
    ensures Ok(SetData(fs, n, s)) && SetData(fs, n, s).nodes.Keys == fs.nodes.Keys
    ensures forall d, name :: FindChild(SetData(fs, n, s), d, name) == FindChild(fs, d, name)
  {
    var gs := SetData(fs, n, s);
    forall d | d in gs.nodes
      ensures DirOk(gs, d)
    {
      assert DirOk(fs, d);
    }
    forall d, name
      ensures FindChild(gs, d, name) == FindChild(fs, d, name)
    {
      if d in fs.nodes {
        PickSame(fs, gs, fs.nodes[d].children, name);
      }
    }
  }

  lemma {:induction false} DataWalk(fs: Fs, n: nat, s: Slice, from: nat, q: Path)
    requires Ok(fs)
    ensures Walk(SetData(fs, n, s), from, q) == Walk(fs, from, q)
    decreases |q|
  {
    DataOk(fs, n, s);
    if q != [] && FindChild(fs, from, q[0]).Some? {
      DataWalk(fs, n, s, FindChild(fs, from, q[0]).value, q[1..]);
    }
  }
}
