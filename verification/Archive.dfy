/** The newc archive: what the extractor reads, what an archiver writes, and that the one undoes the other. */
module Archive {
  import opened Layout
  import opened Vfs
  import opened Paths
  import opened Extraction
  import opened FileTree

  const HEADER: nat := 110

  // ---------- reading ----------

  function Digit(c: Byte): nat {
    if 48 <= c <= 57 then c - 48 else if 97 <= c <= 102 then c - 87 else if 65 <= c <= 70 then c - 55 else 0
  }

  /** `hex_val`, a 32-bit value: other characters count as 0. */
  function HexNum(s: seq<Byte>): (r: nat)
    ensures r < U32
  {
    if s == [] then 0 else HexNum(s[..|s| - 1]) * 16 % U32 + Digit(s[|s| - 1])
  }

  method HexVal(s: seq<Byte>) returns (val: nat)
    ensures val == HexNum(s)
  {
    val := 0;
    for i := 0 to |s|
      invariant val == HexNum(s[..i])
    {
      assert s[..i + 1][..i] == s[..i];
      val := val * 16 % U32 + Digit(s[i]);
    }
    assert s[..|s|] == s;
  }

  predicate MagicOk(a: seq<Byte>, off: nat)
    requires off + 6 <= |a|
  {
    a[off..off + 5] == [48, 55, 48, 55, 48] && (a[off + 5] == 49 || a[off + 5] == 50)
  }

  function Align4(x: nat): nat { (x + 3) / 4 * 4 }

  /** The characters from `at` up to a NUL, or the end of the archive. */
  function Chars(a: seq<Byte>, at: nat): seq<Byte>
    decreases |a| - at
  {
    if at >= |a| || a[at] == 0 then [] else [a[at]] + Chars(a, at + 1)
  }

  const TRAILER: seq<Byte> := [84, 82, 65, 73, 76, 69, 82, 33, 33, 33]

  function NameSize(a: seq<Byte>, off: nat): nat requires off + HEADER <= |a| { HexNum(a[off + 94..off + 102]) }
  function FileSize(a: seq<Byte>, off: nat): nat requires off + HEADER <= |a| { HexNum(a[off + 54..off + 62]) }
  function Mode(a: seq<Byte>, off: nat): nat requires off + HEADER <= |a| { HexNum(a[off + 14..off + 22]) }

  function DataOff(a: seq<Byte>, off: nat): nat requires off + HEADER <= |a| { Align4(off + HEADER + NameSize(a, off)) }
  function NextOff(a: seq<Byte>, off: nat): (n: nat)
    requires off + HEADER <= |a|
    ensures n >= off + HEADER
  {
    Align4(DataOff(a, off) + FileSize(a, off))
  }

  /** A leading "./" is dropped. */
  function Stripped(name: seq<Byte>): seq<Byte> {
    if |name| >= 2 && name[0] == 46 && name[1] == SLASH then name[2..] else name
  }

  /** What one entry does to the tree. */
  function Unpack(fs: Fs, name: seq<Byte>, mode: nat, data: Slice): Fs {
    if name == [] || name == [46] then fs
    else if mode / 0x1000 % 16 == 4 then Mkdir(fs, name).0
    else if mode / 0x1000 % 16 == 8 then
      var (gs, n) := MakeFile(fs, name);
      if n.Some? && data.size > 0 then SetData(gs, n.value, data) else gs
    else fs
  }

  /** `cpio_extract` from offset `off` on. */
  function ExtractFrom(fs: Fs, a: seq<Byte>, off: nat): Fs
    decreases |a| - off
  {
    if off + HEADER > |a| || !MagicOk(a, off) || Chars(a, off + HEADER) == TRAILER || NextOff(a, off) > |a| then fs
    else
      ExtractFrom(Unpack(fs, Stripped(Chars(a, off + HEADER)), Mode(a, off), Slice(DataOff(a, off), FileSize(a, off))),
          a, NextOff(a, off))
  }

  /** The name of an entry. */
  method ReadName(a: seq<Byte>, at: nat) returns (name: seq<Byte>)
    ensures name == Chars(a, at)
  {
    name := [];
    var i := at;
    while i < |a| && a[i] != 0
      invariant at <= i && name + Chars(a, i) == Chars(a, at)
      decreases |a| - i
    {
      assert name + Chars(a, i) == (name + [a[i]]) + Chars(a, i + 1);
      name, i := name + [a[i]], i + 1;
    }
  }

  /** `cpio_extract`, as long as no last name of a path has 64 bytes or more. */
  method Extract(tree: Files, a: seq<Byte>)
    requires |a| < U64 / 2
    modifies tree
    ensures tree.fs == ExtractFrom(old(tree.fs), a, 0)
  {
    hide Unpack, Stripped, Chars, HexNum, Align4;
    var off := 0;
    while off + HEADER <= |a|
      invariant ExtractFrom(tree.fs, a, off) == ExtractFrom(old(tree.fs), a, 0)
      decreases |a| - off
    {
      if !MagicOk(a, off) {
        break;
      }
      var nameSize := HexVal(a[off + 94..off + 102]);
      var fileSize := HexVal(a[off + 54..off + 62]);
      var mode := HexVal(a[off + 14..off + 22]);
      var name := ReadName(a, off + HEADER);
      var dataOff := Align4(off + HEADER + nameSize);
      var nextOff := Align4(dataOff + fileSize);
      if name == TRAILER || nextOff > |a| {
        break;
      }
      UnpackEntry(tree, Stripped(name), mode, Slice(dataOff, fileSize));
      off := nextOff;
    }
  }

  method UnpackEntry(tree: Files, name: seq<Byte>, mode: nat, data: Slice)
    modifies tree
    ensures tree.fs == Unpack(old(tree.fs), name, mode, data)
  {
    if name == [] || name == [46] {
      return;
    }
    var kind := mode / 0x1000 % 16;
    if kind == 4 {
      var n := tree.MkdirPath(name);
    } else if kind == 8 {
      var n := tree.MakeFilePath(name);
      if n.Some? && data.size > 0 {
        tree.SetBytes(n.value, data);
      }
    }
  }

  /** Every byte a file borrows is a byte of the archive. This is about trees that keep names as they are: a last name
      of 64 bytes or more fits neither `fname` nor the node's buffer, and what the code does then is not modelled. */
  ghost predicate SlicesInside(fs: Fs, a: seq<Byte>) {
    forall n :: n in fs.nodes ==> fs.nodes[n].data.at + fs.nodes[n].data.size <= |a|
  }

  lemma {:induction false} MkdirSlices(fs: Fs, from: nat, path: Path, a: seq<Byte>)
    requires SlicesInside(fs, a)
    ensures SlicesInside(MkdirFrom(fs, from, path).0, a)
    decreases |path|
  {
    if path != [] {
      var c := FindChild(fs, from, path[0]);
      if c.Some? {
        if c.value in fs.nodes && fs.nodes[c.value].kind == Directory {
          MkdirSlices(fs, c.value, path[1..], a);
        }
      } else {
        CreateSlices(fs, from, path[0], Directory, a);
        var (gs, n) := CreateNode(fs, from, path[0], Directory);
        if n.Some? {
          MkdirSlices(gs, n.value, path[1..], a);
        }
      }
    }
  }

  lemma CreateSlices(fs: Fs, parent: nat, name: Name, kind: Kind, a: seq<Byte>)
    requires SlicesInside(fs, a)
    ensures SlicesInside(CreateNode(fs, parent, name, kind).0, a)
  {
  }

  lemma UnpackSlices(fs: Fs, name: seq<Byte>, mode: nat, data: Slice, a: seq<Byte>)
    requires SlicesInside(fs, a) && data.at + data.size <= |a|
    ensures SlicesInside(Unpack(fs, name, mode, data), a)
  {
    hide CreateNode, MkdirFrom;
    MkdirSlices(fs, 0, Parse(name), a);
    var (d, f) := SplitPath(name);
    FileSlices(fs, Parse(d), f, a);
  }

  lemma FileSlices(fs: Fs, dir: Path, name: Name, a: seq<Byte>)
    requires SlicesInside(fs, a)
    ensures SlicesInside(CreateFile(fs, dir, name).0, a)
  {
    hide CreateNode, MkdirFrom;
    MkdirSlices(fs, 0, dir, a);
    var w := Walk(fs, 0, dir);
    var (gs, d) := MkdirFrom(fs, 0, dir);
    if w.Some? {
      CreateSlices(fs, w.value, name, File, a);
    } else if d.Some? {
      CreateSlices(gs, d.value, name, File, a);
    }
  }

  lemma {:induction false} ExtractSlices(fs: Fs, a: seq<Byte>, off: nat)
    requires SlicesInside(fs, a)
    ensures SlicesInside(ExtractFrom(fs, a, off), a)
    decreases |a| - off
  {
    if !(off + HEADER > |a| || !MagicOk(a, off) || Chars(a, off + HEADER) == TRAILER || NextOff(a, off) > |a|) {
      var data := Slice(DataOff(a, off), FileSize(a, off));
      UnpackSlices(fs, Stripped(Chars(a, off + HEADER)), Mode(a, off), data, a);
      ExtractSlices(Unpack(fs, Stripped(Chars(a, off + HEADER)), Mode(a, off), data), a, NextOff(a, off));
    }
  }

  // ---------- writing ----------

  const LOWER: string := "0123456789abcdef"
  const UPPER: string := "0123456789ABCDEF"

  /** `c` is the hexadecimal digit `d`, in either case. */
  predicate IsDigit(c: Byte, d: nat) {
    d < 16 && (c == LOWER[d] as int || c == UPPER[d] as int)
  }

  /** The string spells `n`, each digit in a case of its own. */
  predicate Spells(s: seq<Byte>, n: nat) {
    if s == [] then n == 0 else IsDigit(s[|s| - 1], n % 16) && Spells(s[..|s| - 1], n / 16)
  }

  /** The fields of a header as strings. The extractor reads the version, three sizes and nothing else. */
  datatype Head = Head(version: Byte, ino: seq<Byte>, mode: seq<Byte>, owner: seq<Byte>, fileSize: seq<Byte>,
    device: seq<Byte>, nameSize: seq<Byte>, check: seq<Byte>)

  /** Fields of the right widths that spell these numbers. */
  predicate HeadOk(h: Head, mode: nat, fileSize: nat, nameSize: nat) {
    && (h.version == '1' as int || h.version == '2' as int)
    && |h.ino| == |h.mode| == |h.fileSize| == |h.nameSize| == |h.check| == 8 && |h.owner| == |h.device| == 32
    && Spells(h.mode, mode) && Spells(h.fileSize, fileSize) && Spells(h.nameSize, nameSize)
  }

  function HeadBytes(h: Head): seq<Byte> {
    [48, 55, 48, 55, 48, h.version] + h.ino + h.mode + h.owner + h.fileSize + h.device + h.nameSize + h.check
  }

  /** A directory or a file to archive; `dotted` names start with "./". */
  datatype Item = Item(head: Head, path: Path, dir: bool, bytes: seq<Byte>, dotted: bool, perm: nat)

  function Zeros(n: nat): (s: seq<Byte>)
    ensures |s| == n
  {
    seq(n, _ => 0)
  }

  /** Up to the next multiple of four. */
  function Pad(n: nat): seq<Byte> { Zeros((4 - n % 4) % 4) }

  lemma PadAligns(n: nat)
    ensures n + |Pad(n)| == Align4(n)
  {
    var q, r := n / 4, n % 4;
    assert n == 4 * q + r;
    assert (n + 3) / 4 == if r == 0 then q else q + 1;
  }

  const END_NAME: string := "TRAILER!!!"

  /** The name that ends an archive. */
  lemma TrailerName()
    ensures |TRAILER| == |END_NAME| && forall i :: 0 <= i < |END_NAME| ==> TRAILER[i] == END_NAME[i] as int
  {
    assert END_NAME[..5] == "TRAIL" && END_NAME[5..] == "ER!!!";
  }

  function Written(h: Head, name: seq<Byte>, bytes: seq<Byte>): seq<Byte> {
    HeadBytes(h) + name + [0] + Pad(HEADER + |name| + 1) + bytes + Pad(|bytes|)
  }

  function ItemName(it: Item): seq<Byte> { (if it.dotted then [46, SLASH] else []) + Join(it.path) }

  function ItemMode(it: Item): nat { (if it.dir then 0x4000 else 0x8000) + it.perm }

  /** The bytes an item takes along: a directory has none. */
  function Stored(it: Item): seq<Byte> { if it.dir then [] else it.bytes }

  function EncodeItem(it: Item): seq<Byte> { Written(it.head, ItemName(it), Stored(it)) }

  /** The archive: the items, then the trailer under the header `end`. */
  function Encode(items: seq<Item>, end: Head): seq<Byte> {
    if items == [] then Written(end, TRAILER, []) else EncodeItem(items[0]) + Encode(items[1..], end)
  }

  /** Items that the format and the tree can hold. */
  predicate Archivable(it: Item) {
    && HeadOk(it.head, ItemMode(it), |Stored(it)|, |ItemName(it)| + 1) && it.perm < 0x1000
    && it.path != [] && ValidPath(it.path) && it.path[0] != [46] && ItemName(it) != TRAILER
    && (it.dir || |Join(DirOf(it.path))| < PATH_MAX)
  }

  /** A header for the trailer. */
  ghost predicate EndOk(end: Head) {
    exists mode: nat :: HeadOk(end, mode, 0, 11)
  }

  // ---------- the round trip ----------

  lemma DigitRead(c: Byte, d: nat)
    requires IsDigit(c, d)
    ensures Digit(c) == d
  {
    assert LOWER[..4] == "0123" && LOWER[4..8] == "4567" && LOWER[8..12] == "89ab" && LOWER[12..] == "cdef";
    assert UPPER[..4] == "0123" && UPPER[4..8] == "4567" && UPPER[8..12] == "89AB" && UPPER[12..] == "CDEF";
  }

  /** A field reads as the number it spells, whatever the case of its digits. */
  lemma {:induction false} SpelledRead(s: seq<Byte>, n: nat)
    requires Spells(s, n) && |s| <= 8
    ensures HexNum(s) == n < Power16(|s|)
    decreases |s|
  {
    if s != [] {
      var k := |s|;
      SpelledRead(s[..k - 1], n / 16);
      Power16Bound(k);
      DigitRead(s[k - 1], n % 16);
    }
  }

  /** A character that is no hexadecimal digit reads like "0". */
  lemma {:induction false} OtherCharacters(s: seq<Byte>, i: nat)
    requires i < |s| && forall d: nat :: !IsDigit(s[i], d)
    ensures HexNum(s) == HexNum(s[i := '0' as int])
    decreases |s|
  {
    var k, t := |s| - 1, s[i := '0' as int];
    if i == k {
      assert t[..k] == s[..k];
      CountsAsDigit(s[i]);
    } else {
      assert t[..k] == s[..k][i := '0' as int];
      OtherCharacters(s[..k], i);
    }
  }

  lemma CountsAsDigit(c: Byte)
    ensures Digit(c) == 0 || IsDigit(c, Digit(c))
  {
    assert LOWER[..4] == "0123" && LOWER[4..8] == "4567" && LOWER[8..12] == "89ab" && LOWER[12..] == "cdef";
    assert UPPER[..4] == "0123" && UPPER[4..8] == "4567" && UPPER[8..12] == "89AB" && UPPER[12..] == "CDEF";
  }

  /** `n` as `k` digits, those in `upper` in upper case. */
  function Hex(n: nat, k: nat, upper: set<nat>): (s: seq<Byte>)
    ensures |s| == k
  {
    if k == 0 then []
    else Hex(n / 16, k - 1, upper) + [if k - 1 in upper then UPPER[n % 16] as int else LOWER[n % 16] as int]
  }

  /** Every number that fits has every such spelling. */
  lemma {:induction false} HexSpells(n: nat, k: nat, upper: set<nat>)
    requires n < Power16(k)
    ensures Spells(Hex(n, k, upper), n)
    decreases k
  {
    if k > 0 {
      HexSpells(n / 16, k - 1, upper);
      assert Hex(n, k, upper)[..k - 1] == Hex(n / 16, k - 1, upper);
    }
  }

  function Power16(k: nat): nat { if k == 0 then 1 else 16 * Power16(k - 1) }

  lemma {:induction false} Power16Bound(k: nat)
    requires k <= 8
    ensures Power16(k) <= U32 && (k == 8 ==> Power16(k) == U32)
    decreases 8 - k
  {
    assert Power16(8) == U32 by {
      assert Power16(4) == 0x1_0000;
    }
    if k < 8 {
      Power16Bound(k + 1);
    }
  }

  /** Reading inside `pre + s + post` at `|pre| + i` is reading `s` at `i`. */
  lemma Inside(pre: seq<Byte>, s: seq<Byte>, post: seq<Byte>, i: nat, j: nat)
    requires i <= j <= |s|
    ensures (pre + s + post)[|pre| + i..|pre| + j] == s[i..j]
  {
  }

  /** The fields of a written header read back. */
  lemma HeaderRound(pre: seq<Byte>, h: Head, mode: nat, fileSize: nat, nameSize: nat, post: seq<Byte>)
    requires HeadOk(h, mode, fileSize, nameSize)
    ensures |HeadBytes(h)| == HEADER
    ensures var a := pre + HeadBytes(h) + post;
            && MagicOk(a, |pre|) && Mode(a, |pre|) == mode && FileSize(a, |pre|) == fileSize
               && NameSize(a, |pre|) == nameSize
  {
    SpelledRead(h.mode, mode);
    SpelledRead(h.fileSize, fileSize);
    SpelledRead(h.nameSize, nameSize);
    Fields(h, mode, fileSize, nameSize);
    hide HeadBytes, HexNum, Power16, Spells;
    var b := HeadBytes(h);
    Inside(pre, b, post, 0, 5);
    Inside(pre, b, post, 14, 22);
    Inside(pre, b, post, 54, 62);
    Inside(pre, b, post, 94, 102);
    assert (pre + b + post)[|pre| + 5] == b[5];
  }

  lemma Fields(h: Head, mode: nat, fileSize: nat, nameSize: nat)
    requires HeadOk(h, mode, fileSize, nameSize)
    ensures var b := HeadBytes(h);
            && |b| == HEADER && b[0..5] == [48, 55, 48, 55, 48] && b[5] == h.version && b[14..22] == h.mode
            && b[54..62] == h.fileSize && b[94..102] == h.nameSize
  {
    hide Spells;
  }

  lemma {:induction false} CharsRound(a: seq<Byte>, at: nat, name: seq<Byte>)
    requires at + |name| < |a| && a[at..at + |name|] == name && a[at + |name|] == 0 && 0 !in name
    ensures Chars(a, at) == name
    decreases |name|
  {
    if name != [] {
      assert a[at] == name[0] && name[0] in name;
      assert a[at + 1..at + 1 + |name[1..]|] == name[1..];
      CharsRound(a, at + 1, name[1..]);
    }
  }

  lemma Aligned(x: nat, y: nat)
    requires x % 4 == 0
    ensures Align4(x + y) == x + Align4(y) && Align4(y) % 4 == 0 && y <= Align4(y)
  {
    var k, q := x / 4, (y + 3) / 4;
    assert x == 4 * k;
    assert (x + y + 3) / 4 == k + q;
  }

  /** Everything after the header of a written entry. */
  function Body(name: seq<Byte>, bytes: seq<Byte>): seq<Byte> {
    name + [0] + Pad(HEADER + |name| + 1) + bytes + Pad(|bytes|)
  }

  /** Where the parts of a concatenation lie. */
  lemma Parts(h: seq<Byte>, name: seq<Byte>, pad: seq<Byte>, bytes: seq<Byte>, more: seq<Byte>)
    ensures var w := h + name + [0] + pad + bytes + more;
            var d := |h| + |name| + 1 + |pad|;
            && w == h + (name + [0] + pad + bytes + more) && |w| == d + |bytes| + |more|
            && w[|h|..|h| + |name|] == name && w[|h| + |name|] == 0 && w[d..d + |bytes|] == bytes
  {
    var front := h + name + [0] + pad;
    assert (front + bytes + more)[|front|..|front| + |bytes|] == bytes;
  }

  lemma WrittenParts(h: Head, name: seq<Byte>, bytes: seq<Byte>)
    requires |HeadBytes(h)| == HEADER
    ensures var w := Written(h, name, bytes);
            var d := Align4(HEADER + |name| + 1);
            && w == HeadBytes(h) + Body(name, bytes)
            && |w| == d + Align4(|bytes|) && |w| % 4 == 0 && HEADER + |name| < d && d + |bytes| <= |w|
            && w[HEADER..HEADER + |name|] == name && w[HEADER + |name|] == 0 && w[d..d + |bytes|] == bytes
  {
    Aligned(0, HEADER + |name| + 1);
    Aligned(0, |bytes|);
    PadAligns(HEADER + |name| + 1);
    PadAligns(|bytes|);
    hide HeadBytes, Align4, Pad;
    Parts(HeadBytes(h), name, Pad(HEADER + |name| + 1), bytes, Pad(|bytes|));
  }

  /** What lies in `w` lies in `pre + w + post`. */
  lemma Spots(pre: seq<Byte>, w: seq<Byte>, post: seq<Byte>, name: seq<Byte>, d: nat, bytes: seq<Byte>)
    requires HEADER + |name| < |w| && w[HEADER..HEADER + |name|] == name && w[HEADER + |name|] == 0 && 0 !in name
    requires d + |bytes| <= |w| && w[d..d + |bytes|] == bytes
    ensures var a := pre + w + post;
            && Chars(a, |pre| + HEADER) == name && |pre| + d + |bytes| <= |a|
               && a[|pre| + d..|pre| + d + |bytes|] == bytes
  {
    var a := pre + w + post;
    Inside(pre, w, post, HEADER, HEADER + |name|);
    Inside(pre, w, post, d, d + |bytes|);
    assert a[|pre| + HEADER + |name|] == w[HEADER + |name|];
    CharsRound(a, |pre| + HEADER, name);
  }

  lemma Offsets(a: seq<Byte>, off: nat, name: nat, size: nat)
    requires off % 4 == 0 && off + HEADER <= |a| && NameSize(a, off) == name + 1 && FileSize(a, off) == size
    ensures DataOff(a, off) == off + Align4(HEADER + name + 1)
    ensures NextOff(a, off) == off + Align4(HEADER + name + 1) + Align4(size)
  {
    hide NameSize, FileSize;
    Aligned(off, HEADER + name + 1);
    Aligned(off + Align4(HEADER + name + 1), size);
  }

  lemma HeaderFirst(pre: seq<Byte>, h: seq<Byte>, b: seq<Byte>, post: seq<Byte>)
    ensures pre + (h + b) + post == pre + h + (b + post)
  {
  }

  /** A written entry reads back: header fields, name, and where the bytes are. */
  lemma WrittenRound(pre: seq<Byte>, h: Head, name: seq<Byte>, mode: nat, bytes: seq<Byte>, post: seq<Byte>)
    requires |pre| % 4 == 0 && 0 !in name && HeadOk(h, mode, |bytes|, |name| + 1)
    ensures var w := Written(h, name, bytes);
            var a := pre + w + post;
            var d := |pre| + Align4(HEADER + |name| + 1);
            && |pre| + HEADER <= |a| && MagicOk(a, |pre|) && Mode(a, |pre|) == mode && FileSize(a, |pre|) == |bytes|
            && Chars(a, |pre| + HEADER) == name && DataOff(a, |pre|) == d && NextOff(a, |pre|) == |pre| + |w|
            && |w| % 4 == 0 && d + |bytes| <= |a| && a[d..d + |bytes|] == bytes
  {
    hide HeadBytes, HeadOk, Body, Written, Mode, FileSize, NameSize, MagicOk, DataOff, NextOff, Align4, Chars;
    HeaderRound(pre, h, mode, |bytes|, |name| + 1, Body(name, bytes) + post);
    WrittenParts(h, name, bytes);
    HeaderFirst(pre, HeadBytes(h), Body(name, bytes), post);
    var w := Written(h, name, bytes);
    Offsets(pre + w + post, |pre|, |name|, |bytes|);
    Spots(pre, w, post, name, Align4(HEADER + |name| + 1), bytes);
  }

  lemma {:induction false} JoinClean(path: Path)
    requires ValidPath(path)
    ensures 0 !in Join(path)
    decreases |path|
  {
    if |path| > 1 {
      JoinClean(path[1..]);
    }
  }

  lemma NameRead(it: Item)
    requires Archivable(it)
    ensures 0 !in ItemName(it) && Stripped(ItemName(it)) == Join(it.path) && Join(it.path) != []
            && Join(it.path) != [46]
  {
    JoinClean(it.path);
    JoinLong(it.path);
    assert ValidName(it.path[0]);
    var s := Join(it.path);
    if it.dotted {
      assert ItemName(it)[2..] == s;
    }
    assert s[..|it.path[0]|] == it.path[0];
    if |it.path[0]| >= 2 {
      assert s[1] == it.path[0][1] && it.path[0][1] in it.path[0];
    }
  }

  /** Unpacking a written item is applying its entry. */
  lemma UnpackApplies(fs: Fs, it: Item, slice: Slice)
    requires Archivable(it)
    ensures Unpack(fs, Stripped(ItemName(it)), ItemMode(it), slice) == Apply(fs, Record(it.path, it.dir, slice))
  {
    hide ItemName, MkdirFrom, CreateFile, Parse, SplitPath, Join;
    NameRead(it);
    ParseJoin(it.path);
    if it.dir {
      assert ItemMode(it) / 0x1000 == 4;
    } else {
      assert ItemMode(it) / 0x1000 == 8;
      SplitJoin(it.path);
    }
  }

  /** An item written at `off`. */
  function RecordOf(it: Item, off: nat): Record {
    Record(it.path, it.dir, Slice(off + Align4(HEADER + |ItemName(it)| + 1), |Stored(it)|))
  }

  /** What the archive says about each item, when the first one starts at `off`. */
  function Records(items: seq<Item>, off: nat): (es: seq<Record>)
    ensures |es| == |items|
  {
    if items == [] then [] else [RecordOf(items[0], off)] + Records(items[1..], off + |EncodeItem(items[0])|)
  }

  ghost predicate AllArchivable(items: seq<Item>) {
    forall it :: it in items ==> Archivable(it)
  }

  lemma {:induction false} EntryPaths(items: seq<Item>, off: nat)
    requires AllArchivable(items)
    ensures forall e :: e in Records(items, off) ==> e.path != []
  {
    hide EncodeItem;
    if items != [] {
      assert items[0] in items;
      EntryPaths(items[1..], off + |EncodeItem(items[0])|);
    }
  }

  /** Extraction of a written archive applies its entries one after the other, and stops at the trailer, whatever
      follows it. */
  lemma {:induction false} ExtractApplies(fs: Fs, pre: seq<Byte>, items: seq<Item>, end: Head, post: seq<Byte>)
    requires |pre| % 4 == 0 && AllArchivable(items) && EndOk(end)
    ensures forall e :: e in Records(items, |pre|) ==> e.path != []
    ensures ExtractFrom(fs, pre + (Encode(items, end) + post), |pre|) == ApplyAll(fs, Records(items, |pre|))
    decreases |items|
  {
    hide ExtractFrom, EncodeItem, Written, Archivable, Apply, EndOk;
    EntryPaths(items, |pre|);
    if items == [] {
      AtTrailer(fs, pre, end, post);
    } else {
      assert items[0] in items;
      FirstAndRest(pre, items, end, post);
      ExtractItem(fs, pre, items[0], Encode(items[1..], end) + post);
      ExtractApplies(Apply(fs, Records(items, |pre|)[0]), pre + EncodeItem(items[0]), items[1..], end, post);
    }
  }

  lemma AtTrailer(fs: Fs, pre: seq<Byte>, end: Head, post: seq<Byte>)
    requires |pre| % 4 == 0 && EndOk(end)
    ensures ExtractFrom(fs, pre + (Written(end, TRAILER, []) + post), |pre|) == fs
  {
    hide Written, Chars, HeadOk;
    var mode: nat :| HeadOk(end, mode, 0, 11);
    WrittenRound(pre, end, TRAILER, mode, [], post);
    assert pre + Written(end, TRAILER, []) + post == pre + (Written(end, TRAILER, []) + post);
  }

  /** An entry that is neither a directory nor a file, or that names the root, is passed over. */
  lemma SkipsOther(fs: Fs, pre: seq<Byte>, h: Head, name: seq<Byte>, mode: nat, bytes: seq<Byte>, rest: seq<Byte>)
    requires |pre| % 4 == 0 && 0 !in name && name != TRAILER && HeadOk(h, mode, |bytes|, |name| + 1)
    requires (mode / 0x1000 % 16 != 4 && mode / 0x1000 % 16 != 8) || name == [46] || name == [46, SLASH]
    ensures var w := Written(h, name, bytes);
            ExtractFrom(fs, pre + w + rest, |pre|) == ExtractFrom(fs, pre + w + rest, |pre + w|)
  {
    hide Written, Chars, HeadOk, DataOff, NextOff, Mode, FileSize, MagicOk, Mkdir, MakeFile;
    WrittenRound(pre, h, name, mode, bytes, rest);
  }

  /** An archive that ends inside an entry: that entry is not unpacked, and nothing after it. */
  lemma CutShort(fs: Fs, pre: seq<Byte>, h: Head, name: seq<Byte>, mode: nat, bytes: seq<Byte>, k: nat)
    requires |pre| % 4 == 0 && HeadOk(h, mode, |bytes|, |name| + 1) && k < |Written(h, name, bytes)|
    ensures ExtractFrom(fs, pre + Written(h, name, bytes)[..k], |pre|) == fs
  {
    hide HeadBytes, HeadOk, Body, Mode, FileSize, NameSize, MagicOk, DataOff, NextOff, Align4, Chars, Unpack;
    HeaderRound(pre, h, mode, |bytes|, |name| + 1, []);
    WrittenParts(h, name, bytes);
    hide Written;
    var w := Written(h, name, bytes);
    if k >= HEADER {
      var rest := Body(name, bytes)[..k - HEADER];
      assert pre + w[..k] == pre + HeadBytes(h) + rest;
      HeaderRound(pre, h, mode, |bytes|, |name| + 1, rest);
      Offsets(pre + w[..k], |pre|, |name|, |bytes|);
    }
  }

  /** One turn of the extractor's loop, at a written item. */
  lemma ExtractItem(fs: Fs, pre: seq<Byte>, it: Item, rest: seq<Byte>)
    requires |pre| % 4 == 0 && Archivable(it)
    ensures it.path != [] && |pre + EncodeItem(it)| % 4 == 0
    ensures var a := pre + EncodeItem(it) + rest;
            ExtractFrom(fs, a, |pre|) == ExtractFrom(Apply(fs, RecordOf(it, |pre|)), a, |pre + EncodeItem(it)|)
  {
    hide EncodeItem, Unpack, Apply, Chars, ItemName, ItemMode, Mode, FileSize, DataOff, NextOff, MagicOk, Align4,
        Stored, Stripped;
    ItemRound(pre, it, rest);
    UnpackApplies(fs, it, RecordOf(it, |pre|).slice);
  }

  lemma ItemRound(pre: seq<Byte>, it: Item, post: seq<Byte>)
    requires |pre| % 4 == 0 && Archivable(it)
    ensures var w := EncodeItem(it);
            var a := pre + w + post;
            var d := |pre| + Align4(HEADER + |ItemName(it)| + 1);
            && |pre| + HEADER <= |a| && MagicOk(a, |pre|) && Mode(a, |pre|) == ItemMode(it)
               && FileSize(a, |pre|) == |Stored(it)|
            && Chars(a, |pre| + HEADER) == ItemName(it) != TRAILER && DataOff(a, |pre|) == d
            && NextOff(a, |pre|) == |pre| + |w| && |w| % 4 == 0
            && d + |Stored(it)| <= |a| && a[d..d + |Stored(it)|] == Stored(it)
  {
    hide Written, Chars, ItemName, DataOff, NextOff, Mode, FileSize, MagicOk, HeadOk;
    NameRead(it);
    WrittenRound(pre, it.head, ItemName(it), ItemMode(it), Stored(it), post);
  }

  /** The entry is the item's, and its slice of the archive holds the item's bytes. */
  ghost predicate Holds(a: seq<Byte>, e: Record, it: Item) {
    && e.path == it.path && e.dir == it.dir && e.slice.size == |Stored(it)|
    && e.slice.at + e.slice.size <= |a| && a[e.slice.at..e.slice.at + e.slice.size] == Stored(it)
  }

  lemma FirstHolds(pre: seq<Byte>, it: Item, post: seq<Byte>)
    requires |pre| % 4 == 0 && Archivable(it)
    ensures Holds(pre + EncodeItem(it) + post, RecordOf(it, |pre|), it) && |pre + EncodeItem(it)| % 4 == 0
  {
    hide EncodeItem, Archivable, Chars, ItemName, DataOff, NextOff, Mode, FileSize, MagicOk, Align4, Stored;
    ItemRound(pre, it, post);
  }

  /** The archive and its entries, taken apart at the first item. */
  lemma FirstAndRest(pre: seq<Byte>, items: seq<Item>, end: Head, post: seq<Byte>)
    requires items != []
    ensures var w, rest := EncodeItem(items[0]), Encode(items[1..], end) + post;
            && pre + (Encode(items, end) + post) == pre + w + rest
            && Records(items, |pre|)[0] == RecordOf(items[0], |pre|)
            && Records(items, |pre|)[1..] == Records(items[1..], |pre + w|)
  {
    hide EncodeItem, RecordOf, Written;
    var w, more := EncodeItem(items[0]), Encode(items[1..], end);
    assert pre + ((w + more) + post) == pre + w + (more + post);
  }

  lemma {:induction false} EntryHolds(pre: seq<Byte>, items: seq<Item>, end: Head, post: seq<Byte>, j: nat)
    requires |pre| % 4 == 0 && AllArchivable(items) && j < |items|
    ensures Holds(pre + (Encode(items, end) + post), Records(items, |pre|)[j], items[j])
    decreases |items|
  {
    hide EncodeItem, Encode, Records, RecordOf, Holds, Archivable;
    assert items[0] in items;
    FirstAndRest(pre, items, end, post);
    FirstHolds(pre, items[0], Encode(items[1..], end) + post);
    if j > 0 {
      EntryHolds(pre + EncodeItem(items[0]), items[1..], end, post, j - 1);
    }
  }

  /** The bytes a file borrows. */
  function Borrowed(a: seq<Byte>, s: Slice): seq<Byte>
    requires s.at + s.size <= |a|
  {
    a[s.at..s.at + s.size]
  }

  /** Extracting an archive: looking up any item's path yields a node of its kind, with exactly its bytes. */
  lemma RoundTrip(items: seq<Item>, end: Head, post: seq<Byte>, j: nat)
    requires AllArchivable(items) && EndOk(end) && Consistent(Records(items, 0)) && j < |items|
    ensures var a := Encode(items, end) + post;
            var fs := ExtractFrom(EmptyFs(), a, 0);
            match Find(fs, Join(items[j].path))
            case None => false
            case Some(n) =>
              && n in fs.nodes && fs.nodes[n].kind == (if items[j].dir then Directory else File)
              && (!items[j].dir ==>
                    fs.nodes[n].data.at + fs.nodes[n].data.size <= |a|
                    && Borrowed(a, fs.nodes[n].data) == items[j].bytes)
  {
    hide Consistent, ExtractFrom, Encode, Records, ApplyAll, Join, Parse, Archivable, EndOk;
    var es := Records(items, 0);
    assert [] + (Encode(items, end) + post) == Encode(items, end) + post;
    ExtractApplies(EmptyFs(), [], items, end, post);
    EntryHolds([], items, end, post, j);
    AllPlaced(es, j);
    PathParses(items, j);
  }

  lemma PathParses(items: seq<Item>, j: nat)
    requires AllArchivable(items) && j < |items|
    ensures Parse(Join(items[j].path)) == items[j].path
  {
    assert items[j] in items;
    ParseJoin(items[j].path);
  }
}
