/** The file tree as it is updated in place, walking path strings character by character. */
module FileTree {
  import opened Layout
  import opened Vfs
  import opened Paths

  class Files {
    var fs: Fs

    /** `vfs_init`. */
    constructor ()
      ensures fs == EmptyFs()
    {
      fs := EmptyFs();
    }

    /** `vfs_find_child`. */
    method ChildOf(dir: nat, name: Name) returns (r: Option<nat>)
      ensures r == FindChild(fs, dir, name)
    {
      if dir !in fs.nodes {
        return None;
      }
      var cs := fs.nodes[dir].children;
      for i := 0 to |cs|
        invariant Pick(fs, cs, name) == Pick(fs, cs[i..], name)
      {
        if NameOf(fs, cs[i]) == name {
          return Some(cs[i]);
        }
      }
      return None;
    }

    /** One token of a path, and where the next one starts. */
    method NextToken(s: seq<Byte>, p: nat) returns (token: Name, q: nat)
      requires p < |s| && s[p] != SLASH
      ensures p < q <= |s| && (q < |s| ==> s[q] != SLASH) && Tokens(s, p) == [token] + Tokens(s, q)
    {
      token, q := [], p;
      while q < |s| && s[q] != SLASH && |token| < TOKEN_MAX
        invariant p <= q <= |s| && |token| == q - p && token == s[p..q]
        invariant TokenEnd(s, q, |token|) == TokenEnd(s, p, 0)
      {
        token, q := token + [s[q]], q + 1;
      }
      while q < |s| && s[q] == SLASH
        invariant p < q <= |s| && SkipSlashes(s, q) == SkipSlashes(s, TokenEnd(s, p, 0))
      {
        q := q + 1;
      }
    }

    /** The leading slashes are skipped. */
    method Start(s: seq<Byte>) returns (p: nat)
      ensures p <= |s| && (p < |s| ==> s[p] != SLASH) && Parse(s) == Tokens(s, p)
    {
      p := 0;
      while p < |s| && s[p] == SLASH
        invariant p <= |s| && SkipSlashes(s, p) == SkipSlashes(s, 0)
      {
        p := p + 1;
      }
    }

    /** `vfs_find`. */
    method FindPath(s: seq<Byte>) returns (r: Option<nat>)
      ensures r == Find(fs, s)
    {
      var cur := 0;
      var p := Start(s);
      while p < |s|
        invariant p <= |s| && (p < |s| ==> s[p] != SLASH)
        invariant Walk(fs, cur, Tokens(s, p)) == Find(fs, s)
        decreases |s| - p
      {
        var token, q := NextToken(s, p);
        Step(fs, cur, token, Tokens(s, q));
        var next := ChildOf(cur, token);
        if next.None? {
          return None;
        }
        cur, p := next.value, q;
      }
      return Some(cur);
    }

    /** `vfs_create_node`. */
    method NewNode(parent: nat, name: Name, kind: Kind) returns (r: Option<nat>)
      modifies this
      ensures (fs, r) == CreateNode(old(fs), parent, name, kind)
    {
      var existing := ChildOf(parent, name);
      if parent !in fs.nodes || name == [] || fs.nodes[parent].kind != Directory {
        return None;
      }
      if existing.Some? {
        return existing;
      }
      var p := fs.nodes[parent];
      if |p.children| >= MAX_CHILDREN {
        return None;
      }
      var n := fs.next;
      fs := Fs(fs.nodes[n := Node(name, kind, Slice(0, 0), [])], n + 1);
      fs := fs.(nodes := fs.nodes[parent := p.(children := p.children + [n])]);
      return Some(n);
    }

    /** `vfs_mkdir`. */
    method MkdirPath(s: seq<Byte>) returns (r: Option<nat>)
      modifies this
      ensures (fs, r) == Mkdir(old(fs), s)
    {
      var cur := 0;
      var p := Start(s);
      while p < |s|
        invariant p <= |s| && (p < |s| ==> s[p] != SLASH)
        invariant MkdirFrom(fs, cur, Tokens(s, p)) == Mkdir(old(fs), s)
        decreases |s| - p
      {
        var token, q := NextToken(s, p);
        assert ([token] + Tokens(s, q))[1..] == Tokens(s, q);
        var next := ChildOf(cur, token);
        if next.None? {
          next := NewNode(cur, token, Directory);
          if next.None? {
            return None;
          }
        } else if !(next.value in fs.nodes && fs.nodes[next.value].kind == Directory) {
          return None;
        }
        cur, p := next.value, q;
      }
      return Some(cur);
    }

    /** `vfs_create_file`. */
    method MakeFilePath(s: seq<Byte>) returns (r: Option<nat>)
      modifies this
      ensures (fs, r) == MakeFile(old(fs), s)
    {
      var (d, f) := SplitPath(s);
      if f == [] {
        return None;
      }
      var dir := FindPath(d);
      if dir.None? {
        dir := MkdirPath(d);
      }
      if dir.None? {
        return None;
      }
      r := NewNode(dir.value, f, File);
    }

    /** `vfs_set_data`. */
    method SetBytes(n: nat, s: Slice)
      modifies this
      ensures fs == SetData(old(fs), n, s)
    {
      if n !in fs.nodes || fs.nodes[n].kind != File {
        return;
      }
      fs := fs.(nodes := fs.nodes[n := fs.nodes[n].(data := s)]);
    }
  }

  /** One name of a walk. */
  lemma Step(fs: Fs, from: nat, name: Name, rest: Path)
    ensures Walk(fs, from, [name] + rest) == match FindChild(fs, from, name) case None => None
            case Some(n) => Walk(fs, n, rest)
  {
    assert ([name] + rest)[1..] == rest;
  }
}
