/** Path strings: cut into names the way the file tree does it, and put together again. */
module Paths {
  import opened Layout
  import opened Vfs

  const TOKEN_MAX: nat := NAME_MAX - 1
  const PATH_MAX: nat := 256

  /** Where the slashes from `p` on end. */
  function SkipSlashes(s: seq<Byte>, p: nat): (q: nat)
    requires p <= |s|
    ensures p <= q <= |s| && (q < |s| ==> s[q] != SLASH)
    decreases |s| - p
  {
    if p < |s| && s[p] == SLASH then SkipSlashes(s, p + 1) else p
  }

  /** Where the token with `i` characters so far ends: at a slash, the end, or 63 characters. */
  function TokenEnd(s: seq<Byte>, p: nat, i: nat): (q: nat)
    requires p <= |s|
    ensures p <= q <= |s| && (p < |s| && s[p] != SLASH && i < TOKEN_MAX ==> q > p)
    decreases |s| - p
  {
    if p < |s| && s[p] != SLASH && i < TOKEN_MAX then TokenEnd(s, p + 1, i + 1) else p
  }

  /** The names from position `p` on, which is not at a slash. */
  function Tokens(s: seq<Byte>, p: nat): Path
    requires p <= |s| && (p < |s| ==> s[p] != SLASH)
    decreases |s| - p
  {
    if p == |s| then []
    else
      var e := TokenEnd(s, p, 0);
      [s[p..e]] + Tokens(s, SkipSlashes(s, e))
  }

  function Parse(s: seq<Byte>): Path { Tokens(s, SkipSlashes(s, 0)) }

  function Join(path: Path): seq<Byte> {
    if path == [] then [] else if |path| == 1 then path[0] else path[0] + [SLASH] + Join(path[1..])
  }

  /** Names that survive: not empty, under 64 bytes, without slash or NUL. */
  predicate ValidName(n: Name) { 0 < |n| <= TOKEN_MAX && SLASH !in n && 0 !in n }

  predicate ValidPath(path: Path) { forall i :: 0 <= i < |path| ==> ValidName(path[i]) }

  lemma {:induction false} TokenStops(s: seq<Byte>, p: nat, i: nat, e: nat)
    requires p <= e <= |s| && e - p + i <= TOKEN_MAX && (e < |s| ==> s[e] == SLASH)
    requires forall k :: p <= k < e ==> s[k] != SLASH
    ensures TokenEnd(s, p, i) == e
    decreases e - p
  {
    if p < e {
      TokenStops(s, p + 1, i + 1, e);
    }
  }

  /** Cutting what was joined gives the names back. */
  lemma {:induction false} TokensJoin(pre: seq<Byte>, path: Path)
    requires ValidPath(path)
    ensures var s := pre + Join(path);
            (|pre| < |s| ==> s[|pre|] != SLASH) && Tokens(s, |pre|) == path
    decreases |path|
  {
    var s := pre + Join(path);
    if path != [] {
      var n := path[0];
      var e := |pre| + |n|;
      assert s[|pre|..e] == n;
      assert forall k :: |pre| <= k < e ==> s[k] == n[k - |pre|];
      if |path| == 1 {
        TokenStops(s, |pre|, 0, e);
        assert path == [n];
      } else {
        assert s[e] == SLASH;
        TokenStops(s, |pre|, 0, e);
        var pre' := pre + n + [SLASH];
        assert s == pre' + Join(path[1..]);
        TokensJoin(pre', path[1..]);
        JoinLong(path[1..]);
        assert s[|pre'|] == Join(path[1..])[0] && SkipSlashes(s, e) == |pre'|;
      }
    }
  }

  lemma JoinLong(path: Path)
    requires ValidPath(path) && path != []
    ensures |Join(path)| > 0 && Join(path)[0] == path[0][0] != SLASH
  {
  }

  lemma ParseJoin(path: Path)
    requires ValidPath(path)
    ensures Parse(Join(path)) == path
  {
    assert [] + Join(path) == Join(path);
    TokensJoin([], path);
  }

  /** Moving a string does not change its names. */
  lemma {:induction false} TokensMoved(pre: seq<Byte>, s: seq<Byte>, p: nat)
    requires p <= |s| && (p < |s| ==> s[p] != SLASH)
    ensures Tokens(pre + s, |pre| + p) == Tokens(s, p)
    decreases |s| - p
  {
    hide TokenEnd, SkipSlashes;
    if p < |s| {
      var e := TokenEnd(s, p, 0);
      var q := SkipSlashes(s, e);
      EndMoved(pre, s, p, 0);
      SkipMoved(pre, s, e);
      TokensMoved(pre, s, q);
      OneToken(pre, s, p, e);
      TokensFrom(pre + s, |pre| + p, |pre| + e, |pre| + q);
      TokensFrom(s, p, e, q);
    }
  }

  lemma OneToken(pre: seq<Byte>, s: seq<Byte>, p: nat, e: nat)
    requires p <= e <= |s|
    ensures (pre + s)[|pre| + p..|pre| + e] == s[p..e]
  {
  }

  /** The definition, unfolded once. */
  lemma TokensFrom(s: seq<Byte>, p: nat, e: nat, q: nat)
    requires p < |s| && s[p] != SLASH && TokenEnd(s, p, 0) == e && SkipSlashes(s, e) == q
    ensures Tokens(s, p) == [s[p..e]] + Tokens(s, q)
  {
  }

  lemma {:induction false} EndMoved(pre: seq<Byte>, s: seq<Byte>, p: nat, i: nat)
    requires p <= |s|
    ensures TokenEnd(pre + s, |pre| + p, i) == |pre| + TokenEnd(s, p, i)
    decreases |s| - p
  {
    if p < |s| && s[p] != SLASH && i < TOKEN_MAX {
      EndMoved(pre, s, p + 1, i + 1);
    }
  }

  lemma {:induction false} SkipMoved(pre: seq<Byte>, s: seq<Byte>, p: nat)
    requires p <= |s|
    ensures SkipSlashes(pre + s, |pre| + p) == |pre| + SkipSlashes(s, p)
    decreases |s| - p
  {
    if p < |s| && s[p] == SLASH {
      SkipMoved(pre, s, p + 1);
    }
  }

  lemma {:induction false} EndAtMost(s: seq<Byte>, p: nat, i: nat, k: nat)
    requires p + k <= |s| && i + k == TOKEN_MAX && forall j :: p <= j < p + k ==> s[j] != SLASH
    ensures TokenEnd(s, p, i) == p + k
    decreases k
  {
    if k > 0 {
      EndAtMost(s, p + 1, i + 1, k - 1);
    }
  }

  /** A name of more than 63 characters is cut after the 63rd, as if a slash stood there. */
  lemma LongNameCut(s: seq<Byte>, rest: seq<Byte>)
    requires |s| == TOKEN_MAX && SLASH !in s && rest != [] && rest[0] != SLASH
    ensures Parse(s + rest) == [s] + Parse(rest) == Parse(s + [SLASH] + rest)
  {
    var t, u := s + rest, s + [SLASH] + rest;
    assert s[0] in s;
    EndAtMost(t, 0, 0, TOKEN_MAX);
    EndAtMost(u, 0, 0, TOKEN_MAX);
    assert t[0..TOKEN_MAX] == s && u[0..TOKEN_MAX] == s;
    TokensMoved(s, rest, 0);
    TokensMoved(s + [SLASH], rest, 0);
    assert SkipSlashes(u, TOKEN_MAX) == TOKEN_MAX + 1;
  }

  // ---------- directory and file part ----------

  /** The position of the last slash, -1 if there is none. */
  function LastSlash(s: seq<Byte>): (r: int)
    ensures -1 <= r < |s| && (r >= 0 ==> s[r] == SLASH) && forall k :: r < k < |s| ==> s[k] != SLASH
  {
    if s == [] then -1 else if s[|s| - 1] == SLASH then |s| - 1 else LastSlash(s[..|s| - 1])
  }

  /** `vfs_split_path`. */
  function SplitPath(s: seq<Byte>): (seq<Byte>, Name) {
    var l := LastSlash(s);
    if l < 0 then ([SLASH], s)
    else if l == 0 then ([SLASH], s[1..])
    else (s[..if l < PATH_MAX - 1 then l else PATH_MAX - 1], s[l + 1..])
  }

  lemma {:induction false} JoinMore(path: Path, n: Name)
    requires path != []
    ensures Join(path + [n]) == Join(path) + [SLASH] + n
    decreases |path|
  {
    if |path| == 1 {
      assert (path + [n])[1..] == [n];
    } else {
      assert (path + [n])[1..] == path[1..] + [n] && (path + [n])[0] == path[0];
      JoinMore(path[1..], n);
    }
  }

  /** Splitting a joined path gives its directory, as a path, and its last name. */
  lemma SplitJoin(path: Path)
    requires ValidPath(path) && path != [] && |Join(path[..|path| - 1])| < PATH_MAX
    ensures var (d, f) := SplitPath(Join(path)); Parse(d) == path[..|path| - 1] && f == path[|path| - 1]
  {
    var dirs, n, s := path[..|path| - 1], path[|path| - 1], Join(path);
    assert path == dirs + [n];
    if dirs == [] {
      assert s == n;
      ParseRoot();
    } else {
      JoinMore(dirs, n);
      JoinLong(dirs);
      LastIs(s, |Join(dirs)|);
      assert s[..|Join(dirs)|] == Join(dirs);
      ParseJoin(dirs);
    }
  }

  lemma ParseRoot()
    ensures Parse([SLASH]) == []
  {
    assert SkipSlashes([SLASH], 0) == 1;
  }

  lemma LastIs(s: seq<Byte>, k: nat)
    requires k < |s| && s[k] == SLASH && forall j :: k < j < |s| ==> s[j] != SLASH
    ensures LastSlash(s) == k
  {
    var l := LastSlash(s);
  }

  /** `vfs_find`. */
  function Find(fs: Fs, s: seq<Byte>): Option<nat> { Walk(fs, 0, Parse(s)) }

  /** `vfs_mkdir`. */
  function Mkdir(fs: Fs, s: seq<Byte>): (Fs, Option<nat>) { MkdirFrom(fs, 0, Parse(s)) }

  /** `vfs_create_file`. */
  function MakeFile(fs: Fs, s: seq<Byte>): (Fs, Option<nat>) {
    CreateFile(fs, Parse(SplitPath(s).0), SplitPath(s).1)
  }
}
