/** Loading an ELF executable: headers from bytes, then each loadable segment into fresh pages of a space. */
module ElfLoader {
  import opened Layout
  import opened CopyOnWrite
  import opened CowInvariant
  import opened EagerCopy
  import opened FrameBudget
  import opened MemoryView
  import opened PageTable
  import opened AccessRights
  import opened AddressSpaces

  const PT_LOAD: nat := 1
  const EHDR_SIZE: nat := 64
  const PHDR_SIZE: nat := 56

  /** The little-endian number of `n` bytes at `at`. */
  function Little(data: seq<Byte>, at: nat, n: nat): nat
    requires at + n <= |data|
    decreases n
  {
    if n == 0 then 0 else data[at] + 256 * Little(data, at + 1, n - 1)
  }

  /** `elf64_phdr_t`, as far as it is used. */
  datatype Segment = Segment(kind: nat, flags: nat, offset: nat, vaddr: nat, fileSize: nat, memSize: nat)

  function PhOff(data: seq<Byte>): nat requires |data| >= EHDR_SIZE { Little(data, 32, 8) }
  function PhEntSize(data: seq<Byte>): nat requires |data| >= EHDR_SIZE { Little(data, 54, 2) }
  function PhNum(data: seq<Byte>): nat requires |data| >= EHDR_SIZE { Little(data, 56, 2) }

  /** `elf_check`, with the 64-bit sum it makes of the header table's end. */
  predicate ElfCheck(data: seq<Byte>) {
    && |data| >= EHDR_SIZE && data[..4] == [0x7F, 0x45, 0x4C, 0x46] && data[4] == 2 && data[5] == 1
    && Little(data, 16, 2) in {2, 3} && Little(data, 18, 2) == 0x3E
    && PhEntSize(data) >= PHDR_SIZE && (PhOff(data) + PhNum(data) * PhEntSize(data)) % U64 <= |data|
  }

  function HeaderAt(table: nat, entry: nat, i: nat): nat { table + i * entry }

  /** Every program header lies inside the file. */
  predicate HeadersInside(table: nat, entry: nat, count: nat, size: nat) {
    forall i: nat :: i < count ==> HeaderAt(table, entry, i) + PHDR_SIZE <= size
  }

  /** A header table that passes the check is inside the file exactly if the sum did not wrap. */
  lemma TableIff(table: nat, entry: nat, count: nat, size: nat)
    requires PHDR_SIZE <= entry < 0x1_0000 && 0 < count < 0x1_0000 && table < U64 && size < U64 / 2
    requires (table + count * entry) % U64 <= size
    ensures HeadersInside(table, entry, count, size) <==> table + count * entry < U64
  {
    if table + count * entry < U64 {
      forall i: nat | i < count
        ensures HeaderAt(table, entry, i) + PHDR_SIZE <= size
      {
        RowsBefore(i, count, entry);
      }
    } else {
      SmallProduct(count, entry);
      if HeadersInside(table, entry, count, size) {
        FirstHeader(table, entry, count, size);
      }
    }
  }

  lemma RowsBefore(i: nat, count: nat, entry: nat)
    requires i < count
    ensures i * entry + entry <= count * entry
  {
    assert count * entry == i * entry + entry + (count - i - 1) * entry;
    assert (count - i - 1) * entry >= 0;
  }

  lemma {:induction false} SmallProduct(m: nat, n: nat)
    requires n <= 0xFFFF
    ensures m * n <= m * 0xFFFF
  {
    if m > 0 {
      SmallProduct(m - 1, n);
      assert m * n == (m - 1) * n + n;
    }
  }

  lemma FirstHeader(table: nat, entry: nat, count: nat, size: nat)
    requires count > 0 && HeadersInside(table, entry, count, size)
    ensures table + PHDR_SIZE <= size
  {
    assert HeaderAt(table, entry, 0) == table;
  }

  function Power(n: nat): nat { if n == 0 then 1 else 256 * Power(n - 1) }

  lemma {:induction false} LittleBound(data: seq<Byte>, at: nat, n: nat)
    requires at + n <= |data|
    ensures Little(data, at, n) < Power(n)
    decreases n
  {
    if n > 0 {
      LittleBound(data, at + 1, n - 1);
    }
  }

  lemma CheckIff(data: seq<Byte>)
    requires ElfCheck(data) && |data| < U64 / 2 && PhNum(data) > 0
    ensures HeadersInside(PhOff(data), PhEntSize(data), PhNum(data), |data|)
            <==> PhOff(data) + PhNum(data) * PhEntSize(data) < U64
  {
    LittleBound(data, 32, 8);
    LittleBound(data, 54, 2);
    LittleBound(data, 56, 2);
    PowerValues();
    hide Little, Power;
    TableIff(PhOff(data), PhEntSize(data), PhNum(data), |data|);
  }

  lemma PowerValues()
    ensures Power(2) == 0x1_0000 && Power(8) == U64
  {
    assert Power(4) == 0x1_0000_0000;
  }

  /** A header with 64 bytes, two program headers of 56 bytes each, the first at 2^64 - 56. */
  function WrappedHeader(): (data: seq<Byte>)
    ensures |data| == EHDR_SIZE
  {
    [0x7F, 0x45, 0x4C, 0x46, 2, 1, 1, 0, 0, 0, 0, 0, 0, 0, 0, 0]
    + [2, 0, 0x3E, 0, 1, 0, 0, 0, 0, 0, 0x40, 0, 0, 0, 0, 0]
    + [0xC8, 0xFF, 0xFF, 0xFF, 0xFF, 0xFF, 0xFF, 0xFF, 0, 0, 0, 0, 0, 0, 0, 0]
    + [0, 0, 0, 0, 64, 0, 56, 0, 2, 0, 0, 0, 0, 0, 0, 0]
  }

  lemma LittleStep(data: seq<Byte>, at: nat, n: nat)
    requires at + n + 1 <= |data|
    ensures Little(data, at, n + 1) == data[at] + 256 * Little(data, at + 1, n)
  {
  }

  /** A file whose header table ends before it starts: the sum wraps, it passes, and the table is not in the file. */
  lemma WrappedTable()
    ensures var data := WrappedHeader();
            ElfCheck(data) && !HeadersInside(PhOff(data), PhEntSize(data), PhNum(data), |data|)
  {
    var data := WrappedHeader();
    WrappedFields();
    hide Little;
    assert data[..4] == [0x7F, 0x45, 0x4C, 0x46];
    assert HeaderAt(PhOff(data), PhEntSize(data), 0) == PhOff(data);
  }

  lemma WrappedFields()
    ensures var data := WrappedHeader();
            && data[..4] == [0x7F, 0x45, 0x4C, 0x46] && data[4] == 2 && data[5] == 1
            && Little(data, 16, 2) == 2 && Little(data, 18, 2) == 0x3E && Little(data, 54, 2) == 56
               && Little(data, 56, 2) == 2
            && Little(data, 32, 8) == U64 - 56
  {
    var data := WrappedHeader();
    WrappedBytes();
    hide WrappedHeader, Little;
    TwoBytes(data, 16);
    TwoBytes(data, 18);
    TwoBytes(data, 54);
    TwoBytes(data, 56);
    TwoBytes(data, 38);
    LittleStep(data, 37, 2);
    LittleStep(data, 36, 3);
    LittleStep(data, 35, 4);
    LittleStep(data, 34, 5);
    LittleStep(data, 33, 6);
    LittleStep(data, 32, 7);
  }

  lemma TwoBytes(data: seq<Byte>, at: nat)
    requires at + 2 <= |data|
    ensures Little(data, at, 2) == 256 * (data[at + 1] as nat) + data[at]
  {
  }

  lemma WrappedBytes()
    ensures var data := WrappedHeader();
            && data[..4] == [0x7F, 0x45, 0x4C, 0x46] && data[4] == 2 && data[5] == 1
            && data[16] == 2 && data[17] == 0 && data[18] == 0x3E && data[19] == 0
            && data[54] == 56 && data[55] == 0 && data[56] == 2 && data[57] == 0
            && data[32] == 0xC8 && forall i :: 33 <= i < 40 ==> data[i] == 0xFF
  {
  }

  // ---------- segments ----------

  const USER_END: nat := USER_PAGES * PAGE_SIZE

  function FirstPage(seg: Segment): nat { seg.vaddr / PAGE_SIZE }

  /** From `align_down` of the start to `align_up` of the end. */
  function PageCount(seg: Segment): nat {
    (seg.vaddr + seg.memSize + PAGE_SIZE - 1) / PAGE_SIZE - seg.vaddr / PAGE_SIZE
  }

  /** Page `p` holds a byte between the segment's start and end, or the start itself if that is not a page boundary. */
  predicate Touches(seg: Segment, p: nat) {
    p * PAGE_SIZE < seg.vaddr + seg.memSize && seg.vaddr < (p + 1) * PAGE_SIZE
  }

  /** The pages that are mapped for a segment are those it touches. */
  lemma PagesTouched(seg: Segment, p: nat)
    ensures FirstPage(seg) <= p < FirstPage(seg) + PageCount(seg) <==> Touches(seg, p)
  {
  }

  /** What a segment header asks for: PF_W is bit 1 of its flags and PF_X bit 0; everything can be read. */
  predicate SegAsks(seg: Segment, k: Access) {
    match k
    case Reading => true
    case Writing => seg.flags / 2 % 2 == 1
    case Executing => seg.flags % 2 == 1
  }

  function SegFlags(seg: Segment): Flags {
    {User, Read} + (if seg.flags / 2 % 2 == 1 then {RegionFlag.Write} else {})
        + (if seg.flags % 2 == 1 then {Exec} else {})
  }

  lemma SegFlagsAsk(seg: Segment)
    ensures forall k :: Asked(SegFlags(seg), k) <==> SegAsks(seg, k)
    ensures forall f ::
              f in SegFlags(seg) <==>
                f == User || f == Read || (f == RegionFlag.Write && SegAsks(seg, Writing))
                || (f == Exec && SegAsks(seg, Executing))
  {
  }

  /** User code has exactly those rights on the pages of a segment. */
  ghost predicate SegGranted(a: State, s: nat, seg: Segment) {
    Granted(a, s, FirstPage(seg), PageCount(seg), SegFlags(seg))
  }

  /** The two bounds that are checked before a segment is mapped, the first on a 64-bit sum. */
  predicate Accepted(seg: Segment, data: seq<Byte>) {
    (seg.offset + seg.fileSize) % U64 <= |data| && seg.fileSize <= seg.memSize
  }

  /** What the first bound is for. */
  predicate InFile(seg: Segment, data: seq<Byte>) { seg.offset + seg.fileSize <= |data| }

  /** A segment that passes is in the file exactly if the sum did not wrap. */
  lemma InFileIff(seg: Segment, data: seq<Byte>)
    requires Accepted(seg, data) && |data| < U64
    ensures InFile(seg, data) <==> seg.offset + seg.fileSize < U64
  {
    if seg.offset + seg.fileSize < U64 {
      assert (seg.offset + seg.fileSize) % U64 == seg.offset + seg.fileSize;
    }
  }

  function Position(seg: Segment, k: nat): nat { (seg.offset + k) % U64 }

  /** Byte `k` of a segment: the file's at `offset + k`, a 64-bit sum, and zero behind the file part. What lies outside
      the file is not known. */
  predicate ByteOk(b: Byte, seg: Segment, data: seq<Byte>, k: nat) {
    if k >= seg.fileSize then b == 0 else var j := Position(seg, k); j < |data| ==> b == data[j]
  }

  function ByteIn(m: Memory, s: nat, va: nat): Option<Byte> {
    if (s, va / PAGE_SIZE) in m then Some(m[(s, va / PAGE_SIZE)][va % PAGE_SIZE]) else None
  }

  ghost predicate LoadedAt(m: Memory, s: nat, seg: Segment, data: seq<Byte>, k: nat) {
    ByteIn(m, s, seg.vaddr + k).Some? && ByteOk(ByteIn(m, s, seg.vaddr + k).value, seg, data, k)
  }

  /** The first `n` bytes of the segment are in place. */
  ghost predicate LoadedTo(m: Memory, s: nat, seg: Segment, data: seq<Byte>, n: nat) {
    forall k: nat :: k < n ==> LoadedAt(m, s, seg, data, k)
  }

  predicate InPages(seg: Segment, s: nat, x: Slot) {
    x.0 == s && FirstPage(seg) <= x.1 < FirstPage(seg) + PageCount(seg)
  }

  /** Pages that are not the segment's hold what they held. */
  ghost predicate OthersKept(m: Memory, was: Memory, s: nat, seg: Segment) {
    forall x :: x in was && !InPages(seg, s, x) ==> x in m && m[x] == was[x]
  }

  /** The page is mapped, to a frame of its own. */
  predicate Own(a: State, s: nat, v: nat) {
    (s, v) in a.pt && a.pt[(s, v)].Entry? && a.pt[(s, v)].frame in a.rc && a.rc[a.pt[(s, v)].frame] <= 1
  }

  ghost function MemNow(vm: Vmm): Memory
    reads vm, vm.phys.rc
  {
    MemOf(vm.View().pt, vm.View().pages)
  }

  /** Bytes are put into a page of its own: that page changes and nothing else. */
  method PutBytes(vm: Vmm, s: nat, v: nat, off: nat, bytes: seq<Byte>)
    requires vm.Valid() && s in vm.spaces && v < USER_PAGES && off + |bytes| <= PAGE_SIZE && Own(vm.View(), s, v)
    modifies vm`pages
    ensures vm.Valid() && vm.View() == old(vm.View()).(pages := vm.View().pages)
    ensures (s, v) in old(MemNow(vm))
            && MemNow(vm) == old(MemNow(vm))[(s, v) := Patched(old(MemNow(vm))[(s, v)], off, bytes)]
  {
    ghost var c := vm.View();
    vm.PatchPage(s, v, off, bytes);
    hide Inv, Patched;
    PatchSeen(c, s, v, Patched(c.pages[c.pt[(s, v)].frame], off, bytes));
  }

  lemma PatchedTwice(p: Page, off: nat, a: seq<Byte>, b: seq<Byte>)
    requires off + |a| + |b| <= PAGE_SIZE
    ensures Patched(Patched(p, off, a), off + |a|, b) == Patched(p, off, a + b)
  {
  }

  /** The bytes of one turn of the copy loop. */
  ghost predicate PieceOk(piece: seq<Byte>, seg: Segment, data: seq<Byte>, n: nat) {
    forall i :: 0 <= i < |piece| ==> ByteOk(piece[i], seg, data, n + i)
  }

  /** Kernel memory from file position `from` on, a 64-bit position. Nothing is promised about what is not the file. */
  method Fetch(data: seq<Byte>, from: nat, n: nat) returns (r: seq<Byte>)
    ensures |r| == n && forall i :: 0 <= i < n && (from + i) % U64 < |data| ==> r[i] == data[(from + i) % U64]
  {
    r := seq<Byte>(n, i requires 0 <= i < n => if (from + i) % U64 < |data| then data[(from + i) % U64] else 0);
  }

  /** One turn of the copy loop: what is left of the file part, then zeros, up to the end of the page or segment. */
  method CopyPiece(vm: Vmm, s: nat, v: nat, off: nat, seg: Segment, data: seq<Byte>, n: nat, chunk: nat)
    returns (ghost piece: seq<Byte>)
    requires vm.Valid() && s in vm.spaces && v < USER_PAGES && off + chunk <= PAGE_SIZE && Own(vm.View(), s, v)
    requires chunk > 0
    modifies vm`pages
    ensures vm.Valid() && vm.View() == old(vm.View()).(pages := vm.View().pages)
    ensures (s, v) in old(MemNow(vm)) && |piece| == chunk && PieceOk(piece, seg, data, n)
    ensures MemNow(vm) == old(MemNow(vm))[(s, v) := Patched(old(MemNow(vm))[(s, v)], off, piece)]
  {
    hide MemNow, Patched, Settled, Vmm.Valid, Vmm.View;
    var copy := if n >= seg.fileSize then 0 else if chunk < seg.fileSize - n then chunk else seg.fileSize - n;
    var bytes: seq<Byte> := [];
    if copy > 0 {
      bytes := Fetch(data, (seg.offset + n) % U64, copy);
    }
    var zeros: seq<Byte> := seq(chunk - copy, _ => 0);
    piece := bytes + zeros;
    FetchedOk(bytes, chunk - copy, seg, data, n);
    PutBytes(vm, s, v, off, bytes);
    PutBytes(vm, s, v, off + copy, zeros);
    PatchedTwice(old(MemNow(vm))[(s, v)], off, bytes, zeros);
  }

  lemma FetchedOk(bytes: seq<Byte>, more: nat, seg: Segment, data: seq<Byte>, n: nat)
    requires n + |bytes| <= seg.fileSize || bytes == []
    requires more > 0 ==> n + |bytes| >= seg.fileSize
    requires var from := (seg.offset + n) % U64;
             forall i :: 0 <= i < |bytes| && (from + i) % U64 < |data| ==> bytes[i] == data[(from + i) % U64]
    ensures PieceOk(bytes + seq(more, _ => 0), seg, data, n)
  {
    var piece: seq<Byte> := bytes + seq(more, _ => 0);
    forall i | 0 <= i < |piece|
      ensures ByteOk(piece[i], seg, data, n + i)
    {
      if i < |bytes| {
        WrapOnce(seg.offset + n, i);
      }
    }
  }

  lemma WrapOnce(x: nat, i: nat)
    ensures (x % U64 + i) % U64 == (x + i) % U64
  {
    var q := x / U64;
    assert x + i == q * U64 + (x % U64 + i);
    WrapMore(q, x % U64 + i);
  }

  lemma {:induction false} WrapMore(q: nat, y: nat)
    ensures (q * U64 + y) % U64 == y % U64
  {
    if q > 0 {
      WrapMore(q - 1, y);
      assert (q * U64 + y) == ((q - 1) * U64 + y) + U64;
    }
  }

  /** Where the cursor stands. */
  lemma Cursor(va: nat)
    requires va < USER_END
    ensures va / PAGE_SIZE < USER_PAGES && va == va / PAGE_SIZE * PAGE_SIZE + va % PAGE_SIZE
            && va % PAGE_SIZE < PAGE_SIZE
  {
  }

  /** The patched page holds the next bytes of the segment, and the ones before them still. */
  lemma PieceLoaded(was: Memory, s: nat, seg: Segment, data: seq<Byte>, n: nat, piece: seq<Byte>)
    requires LoadedTo(was, s, seg, data, n) && (s, (seg.vaddr + n) / PAGE_SIZE) in was
    requires (seg.vaddr + n) % PAGE_SIZE + |piece| <= PAGE_SIZE && PieceOk(piece, seg, data, n)
    ensures var v, off := (seg.vaddr + n) / PAGE_SIZE, (seg.vaddr + n) % PAGE_SIZE;
            LoadedTo(was[(s, v) := Patched(was[(s, v)], off, piece)], s, seg, data, n + |piece|)
  {
    hide ByteOk;
    var va := seg.vaddr + n;
    var v, off := va / PAGE_SIZE, va % PAGE_SIZE;
    var m := was[(s, v) := Patched(was[(s, v)], off, piece)];
    forall k: nat | k < n + |piece|
      ensures LoadedAt(m, s, seg, data, k)
    {
      if k < n {
        assert LoadedAt(was, s, seg, data, k);
        Before(seg.vaddr + k, va);
      } else {
        Within(va, k - n, |piece|);
        assert ByteOk(piece[k - n], seg, data, n + (k - n));
      }
    }
  }

  lemma Before(x: nat, va: nat)
    requires x < va
    ensures x / PAGE_SIZE < va / PAGE_SIZE || x % PAGE_SIZE < va % PAGE_SIZE
    ensures x / PAGE_SIZE <= va / PAGE_SIZE
  {
  }

  lemma Within(va: nat, i: nat, chunk: nat)
    requires i < chunk && va % PAGE_SIZE + chunk <= PAGE_SIZE
    ensures (va + i) / PAGE_SIZE == va / PAGE_SIZE && (va + i) % PAGE_SIZE == va % PAGE_SIZE + i
  {
  }

  /** The page under the cursor is one of the segment's. */
  lemma CursorPage(seg: Segment, n: nat)
    requires n < seg.memSize
    ensures FirstPage(seg) <= (seg.vaddr + n) / PAGE_SIZE < FirstPage(seg) + PageCount(seg)
  {
  }

  lemma NothingLoaded(m: Memory, s: nat, seg: Segment, data: seq<Byte>)
    ensures LoadedTo(m, s, seg, data, 0) && OthersKept(m, m, s, seg)
  {
  }

  lemma StillKept(m: Memory, was: Memory, s: nat, seg: Segment, v: nat, p: Page)
    requires OthersKept(m, was, s, seg) && FirstPage(seg) <= v < FirstPage(seg) + PageCount(seg)
    ensures OthersKept(m[(s, v) := p], was, s, seg)
  {
  }

  /** The copy loop of `elf_load`. */
  method CopySegment(vm: Vmm, s: nat, seg: Segment, data: seq<Byte>)
    requires vm.Valid() && s in vm.spaces && seg.vaddr + seg.memSize <= USER_END
    requires forall v: nat :: FirstPage(seg) <= v < FirstPage(seg) + PageCount(seg) ==> Own(vm.View(), s, v)
    modifies vm`pages
    ensures vm.Valid() && vm.View() == old(vm.View()).(pages := vm.View().pages)
    ensures vm.roles == old(vm.roles) && vm.spaces == old(vm.spaces)
    ensures LoadedTo(MemNow(vm), s, seg, data, seg.memSize) && OthersKept(MemNow(vm), old(MemNow(vm)), s, seg)
  {
    hide MemNow, Patched, ByteIn, PageCount, FirstPage, Settled, Vmm.Valid, Vmm.View, LoadedTo, OthersKept;
    var cursor, left := seg.vaddr, seg.memSize;
    ghost var n := 0;
    NothingLoaded(MemNow(vm), s, seg, data);
    while left > 0
      invariant left >= 0 && n + left == seg.memSize && cursor == seg.vaddr + n
      invariant vm.Valid() && vm.View() == old(vm.View()).(pages := vm.View().pages)
      invariant LoadedTo(MemNow(vm), s, seg, data, n) && OthersKept(MemNow(vm), old(MemNow(vm)), s, seg)
    {
      ghost var m := MemNow(vm);
      Cursor(cursor);
      CursorPage(seg, n);
      var v, off := cursor / PAGE_SIZE, cursor % PAGE_SIZE;
      var chunk := if PAGE_SIZE - off > left then left else PAGE_SIZE - off;
      assert old(Own(vm.View(), s, v));
      ghost var piece := CopyPiece(vm, s, v, off, seg, data, seg.memSize - left, chunk);
      PieceLoaded(m, s, seg, data, n, piece);
      StillKept(m, old(MemNow(vm)), s, seg, v, MemNow(vm)[(s, v)]);
      cursor, left := cursor + chunk, left - chunk;
      n := n + chunk;
    }
  }

  /** The pages of an allocation are its own. */
  lemma AllocOwn(c: State, s: nat, first: nat, flags: Flags, frames: seq<nat>, fill: seq<Page>, v: nat)
    requires Inv(c) && AllocOk(c, s, first, flags, frames, fill) && first <= v < first + |frames|
    ensures Own(DoAlloc(c, s, first, flags, frames, fill), s, v)
  {
    MapRangeAt(c.pt, s, first, flags, frames, (s, v));
    assert frames[v - first] in frames;
  }

  /** An allocation leaves the pages that were mapped as they were. */
  lemma AllocKeepsMem(c: State, s: nat, first: nat, flags: Flags, frames: seq<nat>, fill: seq<Page>, seg: Segment)
    requires Inv(c) && AllocOk(c, s, first, flags, frames, fill) && first == FirstPage(seg)
             && |frames| == PageCount(seg)
    ensures var b := DoAlloc(c, s, first, flags, frames, fill);
            OthersKept(MemOf(b.pt, b.pages), MemOf(c.pt, c.pages), s, seg)
  {
    hide Tiled, Bits, Exact, OnePage, Exclusive;
    SimAlloc(c, s, first, flags, frames, fill);
    var was, more := MemOf(c.pt, c.pages), NewPages(s, first, fill);
    forall x | x in was && !InPages(seg, s, x)
      ensures x in was + more && (was + more)[x] == was[x]
    {
      NewPagesAt(s, first, fill, x);
    }
  }

  predicate Disjoint(rs: seq<Region>, seg: Segment) {
    forall v: nat :: FirstPage(seg) <= v < FirstPage(seg) + PageCount(seg) ==> !Covered(rs, v)
  }

  lemma OthersTrans(a: Memory, b: Memory, c: Memory, s: nat, seg: Segment)
    requires OthersKept(b, a, s, seg) && OthersKept(c, b, s, seg)
    ensures OthersKept(c, a, s, seg)
  {
  }

  /** What a segment must satisfy apart from frames: the two bounds, a page, and not page 0. */
  predicate Loadable(seg: Segment, data: seq<Byte>) {
    Accepted(seg, data) && PageCount(seg) > 0 && FirstPage(seg) > 0
  }

  ghost predicate SegCovers(a: Snapshot, s: nat, seg: Segment) {
    Covers(a, s, Paths(FirstPage(seg), PageCount(seg)), PageCount(seg))
  }

  lemma SegNeed(vm: Vmm, s: nat, seg: Segment)
    requires vm.Valid() && s in vm.spaces && FirstPage(seg) + PageCount(seg) <= USER_PAGES
    ensures |vm.phys.Free()| >= Need(vm.tables, s, FirstPage(seg), PageCount(seg)) <==> SegCovers(vm.Snap(), s, seg)
  {
    NeedCovers(vm.Snap(), vm.spaces.Keys, s, FirstPage(seg), PageCount(seg));
  }

  /** One turn of the header loop of `elf_load`: it succeeds exactly if the segment can be loaded and there are frames
      for its pages and for the tables they lack. */
  method LoadSegment(vm: Vmm, s: nat, seg: Segment, data: seq<Byte>) returns (ok: bool)
    requires vm.Valid() && s in vm.spaces && seg.vaddr + seg.memSize <= USER_END - PAGE_SIZE
             && Disjoint(vm.spaces[s].regions, seg)
    modifies vm, vm.phys.bitmap, vm.phys.rc
    ensures ok <==> Loadable(seg, data) && SegCovers(old(vm.Snap()), s, seg)
    ensures ok ==> Spent(old(vm.Snap()), vm.Snap(), s, Paths(FirstPage(seg), PageCount(seg)), PageCount(seg))
    ensures ok ==> vm.Valid() && s in vm.spaces && Accepted(seg, data) && vm.spaces.Keys == old(vm.spaces.Keys)
    ensures ok ==> LoadedTo(MemNow(vm), s, seg, data, seg.memSize) && OthersKept(MemNow(vm), old(MemNow(vm)), s, seg)
    ensures ok ==>
              vm.spaces[s].regions
              == Insert(old(vm.spaces[s].regions), Region(FirstPage(seg), PageCount(seg), SegFlags(seg) + {Used}))
    ensures ok ==> SegGranted(vm.View(), s, seg)
    ensures ok ==> RightsKept(old(vm.View()), vm.View(), s, FirstPage(seg), PageCount(seg))
  {
    hide Settled, Vmm.Valid, Vmm.View, MemNow, Own, LoadedTo, OthersKept, Insert, SegCovers, Spent, Paths;
    hide PageCount, FirstPage, Disjoint, SegFlags, Covered, SegGranted, RightsKept, Inv, Accepted;
    Refused(seg, data);
    if (seg.offset + seg.fileSize) % U64 > |data| || seg.memSize < seg.fileSize {
      return false;
    }
    MemThere(vm);
    ghost var a, m, c := vm.Snap(), MemNow(vm), vm.View();
    ok := MapSegment(vm, s, seg);
    if ok {
      MemThere(vm);
      ghost var b, n, d := vm.Snap(), MemNow(vm), vm.View();
      ValidInv(vm);
      CopySegment(vm, s, seg, data);
      MemThere(vm);
      SpentAlike(a, a, b, vm.Snap(), s, Paths(FirstPage(seg), PageCount(seg)), PageCount(seg));
      OthersTrans(m, n, MemNow(vm), s, seg);
      ValidInv(vm);
      CopyKeepsRights(c, d, vm.View(), s, seg);
    }
  }

  lemma Refused(seg: Segment, data: seq<Byte>)
    ensures Accepted(seg, data) <==> !((seg.offset + seg.fileSize) % U64 > |data| || seg.memSize < seg.fileSize)
    ensures Loadable(seg, data) <==> Accepted(seg, data) && PageCount(seg) > 0 && FirstPage(seg) > 0
  {
  }

  /** Copying into pages that are there keeps what was granted. */
  lemma CopyKeepsRights(a: State, b: State, c: State, s: nat, seg: Segment)
    requires SegGranted(b, s, seg) && RightsKept(a, b, s, FirstPage(seg), PageCount(seg))
    requires c == b.(pages := c.pages) && Inv(b) && Inv(c)
    ensures SegGranted(c, s, seg) && RightsKept(a, c, s, FirstPage(seg), PageCount(seg))
  {
    assert b.pages.Keys == b.rc.Keys == c.pages.Keys;
    hide Inv, Granted, RightsKept, FirstPage, PageCount;
    BytesKeepRights(b, c, s, FirstPage(seg), PageCount(seg));
    RightsKeptThen(a, b, c, s, FirstPage(seg), PageCount(seg));
  }

  /** The pages of a segment: fresh, its own, and nobody else's changed. */
  method MapSegment(vm: Vmm, s: nat, seg: Segment) returns (ok: bool)
    requires vm.Valid() && s in vm.spaces && seg.vaddr + seg.memSize <= USER_END - PAGE_SIZE
             && Disjoint(vm.spaces[s].regions, seg)
    modifies vm, vm.phys.bitmap, vm.phys.rc
    ensures ok <==> PageCount(seg) > 0 && FirstPage(seg) > 0 && SegCovers(old(vm.Snap()), s, seg)
    ensures ok ==> vm.Valid() && s in vm.spaces && vm.spaces.Keys == old(vm.spaces.Keys)
    ensures ok ==> Spent(old(vm.Snap()), vm.Snap(), s, Paths(FirstPage(seg), PageCount(seg)), PageCount(seg))
    ensures ok ==> OthersKept(MemNow(vm), old(MemNow(vm)), s, seg)
    ensures ok ==> forall v: nat :: FirstPage(seg) <= v < FirstPage(seg) + PageCount(seg) ==> Own(vm.View(), s, v)
    ensures ok ==>
              vm.spaces[s].regions
              == Insert(old(vm.spaces[s].regions), Region(FirstPage(seg), PageCount(seg), SegFlags(seg) + {Used}))
    ensures ok ==> SegGranted(vm.View(), s, seg)
    ensures ok ==> RightsKept(old(vm.View()), vm.View(), s, FirstPage(seg), PageCount(seg))
  {
    hide Settled, OthersKept, Inv, DoAlloc, Insert, SegCovers, Need, Lost, Spent, Paths, PageCount, FirstPage, Own,
        AllocOk, Granted, RightsKept;
    ValidInv(vm);
    ghost var c := vm.View();
    PagesInRange(seg);
    SegNeed(vm, s, seg);
    var out;
    ghost var frames, fill;
    out, frames, fill := vm.SpaceAlloc(s, FirstPage(seg), PageCount(seg), SegFlags(seg));
    ok := out.Done? && FirstPage(seg) != 0;
    if ok {
      AllocKeepsMem(c, s, FirstPage(seg), SegFlags(seg), frames, fill, seg);
      forall v: nat | FirstPage(seg) <= v < FirstPage(seg) + PageCount(seg)
        ensures Own(vm.View(), s, v)
      {
        AllocOwn(c, s, FirstPage(seg), SegFlags(seg), frames, fill, v);
      }
      AllocSpacesIs(c, s, FirstPage(seg), SegFlags(seg), frames, fill);
    }
  }

  lemma ValidInv(vm: Vmm)
    requires vm.Valid()
    ensures Inv(vm.View())
  {
  }

  lemma PagesInRange(seg: Segment)
    requires seg.vaddr + seg.memSize <= USER_END - PAGE_SIZE
    ensures FirstPage(seg) + PageCount(seg) <= USER_PAGES
  {
  }

  lemma AllocSpacesIs(c: State, s: nat, first: nat, flags: Flags, frames: seq<nat>, fill: seq<Page>)
    requires AllocOk(c, s, first, flags, frames, fill)
    ensures var b := DoAlloc(c, s, first, flags, frames, fill);
            && b.spaces.Keys == c.spaces.Keys && s in b.spaces
            && b.spaces[s].regions == Insert(c.spaces[s].regions, Region(first, |frames|, flags + {Used}))
  {
  }

  // ---------- whole files ----------

  /** Program header `i`. */
  function SegmentAt(data: seq<Byte>, i: nat): Segment
    requires |data| >= EHDR_SIZE && HeaderAt(PhOff(data), PhEntSize(data), i) + PHDR_SIZE <= |data|
  {
    var h := HeaderAt(PhOff(data), PhEntSize(data), i);
    Segment(Little(data, h, 4), Little(data, h + 4, 4), Little(data, h + 8, 8), Little(data, h + 16, 8),
        Little(data, h + 32, 8), Little(data, h + 40, 8))
  }

  function Segments(data: seq<Byte>): (r: seq<Segment>)
    requires |data| >= EHDR_SIZE && HeadersInside(PhOff(data), PhEntSize(data), PhNum(data), |data|)
    ensures |r| == PhNum(data) && forall i: nat :: i < |r| ==> r[i] == SegmentAt(data, i)
  {
    seq(PhNum(data), i requires 0 <= i < PhNum(data) => SegmentAt(data, i))
  }

  /** `USER_STACK_BASE`, as the segment the stack amounts to. */
  const STACK: Segment := Segment(PT_LOAD, 6, 0, 0x7FFF_FFFE_E000, 0, 16 * PAGE_SIZE)

  /** No page belongs to both. */
  predicate PagesApart(a: Segment, b: Segment) {
    FirstPage(a) + PageCount(a) <= FirstPage(b) || FirstPage(b) + PageCount(b) <= FirstPage(a)
  }

  /** The loadable segments are below the stack and share no page. */
  predicate Layable(segs: seq<Segment>) {
    && (forall i :: 0 <= i < |segs| && segs[i].kind == PT_LOAD ==>
          segs[i].vaddr + segs[i].memSize <= USER_END - PAGE_SIZE && PagesApart(segs[i], STACK))
    && (forall i, j :: 0 <= i < j < |segs| && segs[i].kind == PT_LOAD && segs[j].kind == PT_LOAD ==>
       PagesApart(segs[i], segs[j]))
  }

  lemma LoadedStays(was: Memory, m: Memory, s: nat, a: Segment, b: Segment, data: seq<Byte>)
    requires LoadedTo(was, s, a, data, a.memSize) && OthersKept(m, was, s, b) && PagesApart(a, b)
    ensures LoadedTo(m, s, a, data, a.memSize)
  {
    forall k: nat | k < a.memSize
      ensures LoadedAt(m, s, a, data, k)
    {
      assert LoadedAt(was, s, a, data, k);
      CursorPage(a, k);
    }
  }

  lemma StillDisjoint(rs: seq<Region>, a: Segment, b: Segment, flags: Flags)
    requires Disjoint(rs, b) && PagesApart(a, b)
    ensures Disjoint(Insert(rs, Region(FirstPage(a), PageCount(a), flags)), b)
  {
    forall v: nat | FirstPage(b) <= v < FirstPage(b) + PageCount(b)
      ensures !Covered(Insert(rs, Region(FirstPage(a), PageCount(a), flags)), v)
    {
      InsertCovered(rs, Region(FirstPage(a), PageCount(a), flags), v);
    }
  }

  /** What the header loop has done: the segments before `i` are loaded, the pages of the others and of the stack
      are still free. */
  ghost predicate LoadedBefore(m: Memory, rs: seq<Region>, s: nat, segs: seq<Segment>, data: seq<Byte>, i: nat) {
    && i <= |segs|
    && (forall j :: 0 <= j < i && segs[j].kind == PT_LOAD ==>
          Accepted(segs[j], data) && LoadedTo(m, s, segs[j], data, segs[j].memSize))
    && (forall j :: i <= j < |segs| && segs[j].kind == PT_LOAD ==> Disjoint(rs, segs[j]))
    && Disjoint(rs, STACK)
  }

  lemma LoadedNext(was: Memory, m: Memory, rs: seq<Region>, s: nat, segs: seq<Segment>, data: seq<Byte>, i: nat,
      flags: Flags)
    requires LoadedBefore(was, rs, s, segs, data, i) && i < |segs| && segs[i].kind == PT_LOAD && Layable(segs)
             && Accepted(segs[i], data)
    requires LoadedTo(m, s, segs[i], data, segs[i].memSize) && OthersKept(m, was, s, segs[i])
    ensures LoadedBefore(m, Insert(rs, Region(FirstPage(segs[i]), PageCount(segs[i]), flags)), s, segs, data, i + 1)
  {
    hide LoadedTo, OthersKept, Disjoint, Insert, PagesApart;
    forall j: nat | j < i && segs[j].kind == PT_LOAD
      ensures LoadedTo(m, s, segs[j], data, segs[j].memSize)
    {
      LoadedStays(was, m, s, segs[j], segs[i], data);
    }
    forall j: nat | i < j < |segs| && segs[j].kind == PT_LOAD
      ensures Disjoint(Insert(rs, Region(FirstPage(segs[i]), PageCount(segs[i]), flags)), segs[j])
    {
      StillDisjoint(rs, segs[i], segs[j], flags);
    }
    StillDisjoint(rs, segs[i], STACK, flags);
  }

  /** Page `p` belongs to one of the first `i` segments that are loaded. */
  predicate TouchedBy(segs: seq<Segment>, i: nat, p: nat) {
    exists j: nat :: j < i && j < |segs| && segs[j].kind == PT_LOAD && Touches(segs[j], p)
  }

  /** What the header loop has granted: to the segments before `i` what they ask for, on no other page of the space
      anything, and in no other space any change. */
  ghost predicate GrantedBefore(was: State, a: State, s: nat, segs: seq<Segment>, i: nat) {
    && (forall j: nat :: j < i && j < |segs| && segs[j].kind == PT_LOAD ==> SegGranted(a, s, segs[j]))
    && (forall p: nat :: (s, p) in a.pt <==> TouchedBy(segs, i, p))
    && RightsKept(was, a, s, 0, USER_PAGES)
  }

  lemma NoneGranted(a: State, s: nat, segs: seq<Segment>)
    requires Inv(a) && s in a.spaces && a.spaces[s].regions == []
    ensures GrantedBefore(a, a, s, segs, 0)
  {
    assert TiledSpace(a.spaces[s], a.pt, s);
    NoPages(a.spaces[s], a.pt, s);
  }

  lemma FreshSpace(vm: Vmm, s: nat, segs: seq<Segment>)
    requires vm.Valid() && s in vm.spaces && vm.spaces[s].regions == []
    ensures GrantedBefore(vm.View(), vm.View(), s, segs, 0) && SpacesKept(MemNow(vm), MemNow(vm), s)
  {
    hide GrantedBefore;
    ValidInv(vm);
    NoneGranted(vm.View(), s, segs);
  }

  /** What other spaces hold stays. */
  ghost predicate SpacesKept(m: Memory, was: Memory, s: nat) {
    forall x :: x in was && x.0 != s ==> x in m && m[x] == was[x]
  }

  lemma OtherSpaces(m: Memory, b: Memory, was: Memory, s: nat, seg: Segment)
    requires SpacesKept(b, was, s) && OthersKept(m, b, s, seg)
    ensures SpacesKept(m, was, s)
  {
  }

  lemma WiderKept(a: State, b: State, s: nat, first: nat, n: nat)
    requires RightsKept(a, b, s, first, n) && first + n <= USER_PAGES
    ensures RightsKept(a, b, s, 0, USER_PAGES)
  {
    hide May;
  }

  lemma SegStays(a: State, b: State, s: nat, seg: Segment, other: Segment)
    requires SegGranted(a, s, seg) && RightsKept(a, b, s, FirstPage(other), PageCount(other)) && PagesApart(seg, other)
    ensures SegGranted(b, s, seg)
  {
    hide Granted, RightsKept;
    GrantedStays(a, b, s, FirstPage(seg), PageCount(seg), FirstPage(other), PageCount(other), SegFlags(seg));
  }

  /** The pages of a space after one more segment. */
  lemma PagesAfter(a: State, b: State, s: nat, seg: Segment, p: nat)
    requires SegGranted(b, s, seg) && RightsKept(a, b, s, FirstPage(seg), PageCount(seg))
    ensures (s, p) in b.pt <==> (s, p) in a.pt || Touches(seg, p)
    ensures (s, p) in a.pt && !Touches(seg, p) ==> (s, p) in b.pt && b.pt[(s, p)] == a.pt[(s, p)]
  {
    hide May, Passes, Asked, FirstPage, PageCount, Touches;
    PagesTouched(seg, p);
    if !InRange((s, p), s, FirstPage(seg), PageCount(seg)) {
      assert (s, p) in a.pt <==> (s, p) in b.pt;
    }
  }

  lemma GrantedNext(was: State, a: State, b: State, s: nat, segs: seq<Segment>, i: nat)
    requires GrantedBefore(was, a, s, segs, i) && i < |segs| && segs[i].kind == PT_LOAD && Layable(segs)
    requires SegGranted(b, s, segs[i]) && RightsKept(a, b, s, FirstPage(segs[i]), PageCount(segs[i]))
    ensures GrantedBefore(was, b, s, segs, i + 1)
  {
    hide SegGranted, RightsKept, Touches, PagesApart;
    forall j: nat | j < i && segs[j].kind == PT_LOAD
      ensures SegGranted(b, s, segs[j])
    {
      SegStays(a, b, s, segs[j], segs[i]);
    }
    forall p: nat
      ensures (s, p) in b.pt <==> TouchedBy(segs, i + 1, p)
    {
      PagesAfter(a, b, s, segs[i], p);
      TouchedNext(segs, i, p);
    }
    PagesInRange(segs[i]);
    WiderKept(a, b, s, FirstPage(segs[i]), PageCount(segs[i]));
    RightsKeptThen(was, a, b, s, 0, USER_PAGES);
  }

  lemma TouchedNext(segs: seq<Segment>, i: nat, p: nat)
    requires i < |segs|
    ensures TouchedBy(segs, i + 1, p) <==> TouchedBy(segs, i, p) || (segs[i].kind == PT_LOAD && Touches(segs[i], p))
  {
    hide Touches;
  }

  lemma GrantedSkip(was: State, a: State, s: nat, segs: seq<Segment>, i: nat)
    requires GrantedBefore(was, a, s, segs, i) && i < |segs| && segs[i].kind != PT_LOAD
    ensures GrantedBefore(was, a, s, segs, i + 1)
  {
    hide SegGranted, RightsKept, Touches;
    forall p: nat
      ensures TouchedBy(segs, i + 1, p) <==> TouchedBy(segs, i, p)
    {
      TouchedNext(segs, i, p);
    }
  }

  /** The header loop of `elf_load`. */
  method LoadSegments(vm: Vmm, s: nat, segs: seq<Segment>, data: seq<Byte>) returns (ok: bool)
    requires vm.Valid() && s in vm.spaces && vm.spaces[s].regions == [] && Layable(segs)
    modifies vm, vm.phys.bitmap, vm.phys.rc
    ensures ok <==> AllLoadable(segs, data) && Covers(old(vm.Snap()), s, SegPaths(segs), SegPages(segs))
    ensures ok ==> Spent(old(vm.Snap()), vm.Snap(), s, SegPaths(segs), SegPages(segs))
    ensures ok ==> vm.Valid() && s in vm.spaces && LoadedBefore(MemNow(vm), vm.spaces[s].regions, s, segs, data, |segs|)
    ensures ok ==> GrantedBefore(old(vm.View()), vm.View(), s, segs, |segs|)
    ensures ok ==> SpacesKept(MemNow(vm), old(MemNow(vm)), s)
  {
    hide Settled, Vmm.Valid, Vmm.View, LoadedBefore, MemNow, LoadedTo, OthersKept, PagesApart;
    hide SegGranted, RightsKept, SpacesKept, GrantedBefore, Inv, FirstPage, PageCount;
    hide Spent, Covers, SegCovers, SegPaths, SegPages, Loadable, Accepted, AllLoadable;
    MemThere(vm);
    ghost var a := vm.Snap();
    NothingYet(a, s, segs, data);
    FreshSpace(vm, s, segs);
    NoneLoaded(MemNow(vm), vm.spaces[s].regions, s, segs, data);
    for i := 0 to |segs|
      invariant vm.Valid() && s in vm.spaces && LoadedBefore(MemNow(vm), vm.spaces[s].regions, s, segs, data, i)
      invariant vm.phys.Valid() && Spent(a, vm.Snap(), s, SegPaths(segs[..i]), SegPages(segs[..i]))
      invariant AllLoadable(segs[..i], data) && GrantedBefore(old(vm.View()), vm.View(), s, segs, i)
      invariant SpacesKept(MemNow(vm), old(MemNow(vm)), s)
    {
      ghost var b := vm.Snap();
      if segs[i].kind == PT_LOAD {
        NextFree(MemNow(vm), vm.spaces[s].regions, s, segs, data, i);
        ghost var m, rs, c := MemNow(vm), vm.spaces[s].regions, vm.View();
        ok := LoadSegment(vm, s, segs[i], data);
        if !ok {
          StopsAt(a, b, s, segs, i, data);
          return;
        }
        MemThere(vm);
        OtherSpaces(MemNow(vm), m, old(MemNow(vm)), s, segs[i]);
        GrantedNext(old(vm.View()), c, vm.View(), s, segs, i);
        GoesOn(a, b, vm.Snap(), s, segs, i, data);
        LoadedNext(m, MemNow(vm), rs, s, segs, data, i, SegFlags(segs[i]) + {Used});
      } else {
        SkipHeader(MemNow(vm), vm.spaces[s].regions, s, segs, data, i);
        Passed(segs, i, data);
        GrantedSkip(old(vm.View()), vm.View(), s, segs, i);
      }
    }
    assert segs[..|segs|] == segs;
    SpentCovers(a, vm.Snap(), s, SegPaths(segs), SegPages(segs));
    ok := true;
  }

  /** The pages of the loadable segments, and the tables for them. */
  function SegPages(segs: seq<Segment>): nat {
    if segs == [] then 0 else SegPages(segs[..|segs| - 1]) + LoadPages(segs[|segs| - 1])
  }

  function SegPaths(segs: seq<Segment>): set<Place> {
    if segs == [] then {}
    else SegPaths(segs[..|segs| - 1]) + Paths(FirstPage(segs[|segs| - 1]), LoadPages(segs[|segs| - 1]))
  }

  function LoadPages(seg: Segment): nat { if seg.kind == PT_LOAD then PageCount(seg) else 0 }

  predicate AllLoadable(segs: seq<Segment>, data: seq<Byte>) {
    forall i: nat :: i < |segs| && segs[i].kind == PT_LOAD ==> Loadable(segs[i], data)
  }

  lemma NothingYet(a: Snapshot, s: nat, segs: seq<Segment>, data: seq<Byte>)
    ensures Spent(a, a, s, SegPaths(segs[..0]), SegPages(segs[..0])) && AllLoadable(segs[..0], data)
  {
    NothingSpent(a, a, s);
  }

  lemma UpTo(segs: seq<Segment>, i: nat)
    requires i < |segs|
    ensures SegPages(segs[..i + 1]) == SegPages(segs[..i]) + LoadPages(segs[i])
    ensures SegPaths(segs[..i + 1]) == SegPaths(segs[..i]) + Paths(FirstPage(segs[i]), LoadPages(segs[i]))
  {
    assert segs[..i + 1][..i] == segs[..i];
  }

  lemma {:induction false} UpToAll(segs: seq<Segment>, i: nat)
    requires i <= |segs|
    ensures SegPages(segs[..i]) <= SegPages(segs) && SegPaths(segs[..i]) <= SegPaths(segs)
    decreases |segs| - i
  {
    if i == |segs| {
      assert segs[..i] == segs;
    } else {
      UpTo(segs, i);
      UpToAll(segs, i + 1);
    }
  }

  lemma StopsAt(a: Snapshot, b: Snapshot, s: nat, segs: seq<Segment>, i: nat, data: seq<Byte>)
    requires i < |segs| && segs[i].kind == PT_LOAD && !(Loadable(segs[i], data) && SegCovers(b, s, segs[i]))
    requires Spent(a, b, s, SegPaths(segs[..i]), SegPages(segs[..i]))
    ensures !(AllLoadable(segs, data) && Covers(a, s, SegPaths(segs), SegPages(segs)))
  {
    hide Spent, Covers, SegPaths, SegPages, Loadable, PageCount, FirstPage, Paths;
    if AllLoadable(segs, data) {
      var n := PageCount(segs[i]);
      CoversThen(a, b, s, SegPaths(segs[..i]), SegPages(segs[..i]), Paths(FirstPage(segs[i]), n), n);
      UpTo(segs, i);
      UpToAll(segs, i + 1);
      if Covers(a, s, SegPaths(segs), SegPages(segs)) {
        CoversLess(a, s, SegPaths(segs[..i + 1]), SegPages(segs[..i + 1]), SegPaths(segs), SegPages(segs));
      }
    }
  }

  lemma GoesOn(a: Snapshot, b: Snapshot, c: Snapshot, s: nat, segs: seq<Segment>, i: nat, data: seq<Byte>)
    requires i < |segs| && segs[i].kind == PT_LOAD && Loadable(segs[i], data) && AllLoadable(segs[..i], data)
    requires Spent(a, b, s, SegPaths(segs[..i]), SegPages(segs[..i]))
    requires Spent(b, c, s, Paths(FirstPage(segs[i]), PageCount(segs[i])), PageCount(segs[i]))
    ensures Spent(a, c, s, SegPaths(segs[..i + 1]), SegPages(segs[..i + 1])) && AllLoadable(segs[..i + 1], data)
  {
    hide Spent, SegPaths, SegPages, Loadable, PageCount, FirstPage, Paths;
    UpTo(segs, i);
    SpentThen(a, b, c, s, SegPaths(segs[..i]), Paths(FirstPage(segs[i]), PageCount(segs[i])), SegPages(segs[..i]),
      PageCount(segs[i]));
    OneMoreLoadable(segs, i, data);
  }

  lemma OneMoreLoadable(segs: seq<Segment>, i: nat, data: seq<Byte>)
    requires i < |segs| && AllLoadable(segs[..i], data) && (segs[i].kind == PT_LOAD ==> Loadable(segs[i], data))
    ensures AllLoadable(segs[..i + 1], data)
  {
    hide Loadable;
    var ls := segs[..i + 1];
    forall j: nat | j < |ls| && ls[j].kind == PT_LOAD
      ensures Loadable(ls[j], data)
    {
      assert j < i ==> segs[..i][j] == segs[j];
    }
  }

  lemma Passed(segs: seq<Segment>, i: nat, data: seq<Byte>)
    requires i < |segs| && segs[i].kind != PT_LOAD && AllLoadable(segs[..i], data)
    ensures SegPages(segs[..i + 1]) == SegPages(segs[..i]) && SegPaths(segs[..i + 1]) == SegPaths(segs[..i])
    ensures AllLoadable(segs[..i + 1], data)
  {
    UpTo(segs, i);
    OneMoreLoadable(segs, i, data);
    hide SegPages, SegPaths;
    assert Paths(FirstPage(segs[i]), 0) == {};
  }

  lemma NoneLoaded(m: Memory, rs: seq<Region>, s: nat, segs: seq<Segment>, data: seq<Byte>)
    requires rs == []
    ensures LoadedBefore(m, rs, s, segs, data, 0)
  {
  }

  lemma NextFree(m: Memory, rs: seq<Region>, s: nat, segs: seq<Segment>, data: seq<Byte>, i: nat)
    requires LoadedBefore(m, rs, s, segs, data, i) && i < |segs| && segs[i].kind == PT_LOAD
    ensures Disjoint(rs, segs[i])
  {
  }

  lemma SkipHeader(m: Memory, rs: seq<Region>, s: nat, segs: seq<Segment>, data: seq<Byte>, i: nat)
    requires LoadedBefore(m, rs, s, segs, data, i) && i < |segs| && segs[i].kind != PT_LOAD
    ensures LoadedBefore(m, rs, s, segs, data, i + 1)
  {
  }

  lemma StackFree(m: Memory, rs: seq<Region>, s: nat, segs: seq<Segment>, data: seq<Byte>)
    requires LoadedBefore(m, rs, s, segs, data, |segs|)
    ensures Disjoint(rs, STACK)
  {
  }

  /** The user stack: sixteen fresh pages at the top. */
  method MapStack(vm: Vmm, s: nat) returns (ok: bool)
    requires vm.Valid() && s in vm.spaces && Disjoint(vm.spaces[s].regions, STACK)
    modifies vm, vm.phys.bitmap, vm.phys.rc
    ensures ok <==> SegCovers(old(vm.Snap()), s, STACK)
    ensures ok ==> vm.Valid() && s in vm.spaces && OthersKept(MemNow(vm), old(MemNow(vm)), s, STACK)
    ensures ok ==> SegGranted(vm.View(), s, STACK)
    ensures ok ==> RightsKept(old(vm.View()), vm.View(), s, FirstPage(STACK), PageCount(STACK))
  {
    hide Settled, OthersKept, Inv, DoAlloc, SegCovers, Need, Lost, Spent, Granted, RightsKept;
    SegNeed(vm, s, STACK);
    ValidInv(vm);
    ghost var c := vm.View();
    var out;
    ghost var frames, fill;
    out, frames, fill := vm.SpaceAlloc(s, FirstPage(STACK), 16, SegFlags(STACK));
    ok := out.Done?;
    if ok {
      AllocKeepsMem(c, s, FirstPage(STACK), SegFlags(STACK), frames, fill, STACK);
      AllocSpacesIs(c, s, FirstPage(STACK), SegFlags(STACK), frames, fill);
    }
  }

  function SegByte(seg: Segment, data: seq<Byte>, k: nat): Byte
    requires InFile(seg, data)
  {
    if k < seg.fileSize then data[seg.offset + k] else 0
  }

  /** In memory, byte `vaddr + k` is file byte `offset + k` for `k < fileSize` and 0 for the rest of `memSize`. */
  ghost predicate InPlace(m: Memory, s: nat, seg: Segment, data: seq<Byte>) {
    && InFile(seg, data) && seg.fileSize <= seg.memSize
    && (forall k: nat :: k < seg.memSize ==>
          ByteIn(m, s, seg.vaddr + k) == Some(SegByte(seg, data, k)))
  }

  /** Every loadable segment passed the bounds and is in memory; exactly as it should be if its end did not wrap. */
  ghost predicate AllInPlace(m: Memory, s: nat, segs: seq<Segment>, data: seq<Byte>) {
    forall i: nat :: i < |segs| && segs[i].kind == PT_LOAD ==>
      && Accepted(segs[i], data) && LoadedTo(m, s, segs[i], data, segs[i].memSize)
      && (segs[i].offset + segs[i].fileSize < U64 ==> InPlace(m, s, segs[i], data))
  }

  lemma LoadedInPlace(m: Memory, s: nat, seg: Segment, data: seq<Byte>)
    requires LoadedTo(m, s, seg, data, seg.memSize) && Accepted(seg, data) && seg.offset + seg.fileSize < U64
    requires |data| < U64
    ensures InPlace(m, s, seg, data)
  {
    InFileIff(seg, data);
    forall k: nat | k < seg.memSize
      ensures ByteIn(m, s, seg.vaddr + k) == Some(SegByte(seg, data, k))
    {
      assert LoadedAt(m, s, seg, data, k);
    }
  }

  lemma AllLoaded(was: Memory, m: Memory, rs: seq<Region>, s: nat, segs: seq<Segment>, data: seq<Byte>)
    requires LoadedBefore(was, rs, s, segs, data, |segs|) && OthersKept(m, was, s, STACK) && Layable(segs)
    requires |data| < U64
    ensures AllInPlace(m, s, segs, data)
  {
    hide LoadedTo, OthersKept, InPlace, PagesApart;
    forall i: nat | i < |segs| && segs[i].kind == PT_LOAD
      ensures LoadedTo(m, s, segs[i], data, segs[i].memSize)
      ensures segs[i].offset + segs[i].fileSize < U64 ==> InPlace(m, s, segs[i], data)
    {
      LoadedStays(was, m, s, segs[i], STACK, data);
      if segs[i].offset + segs[i].fileSize < U64 {
        LoadedInPlace(m, s, segs[i], data);
      }
    }
  }

  /** A segment that passes the bounds although its first page is not in the file: its end wraps. */
  lemma WrappedSegment(data: seq<Byte>)
    requires 0x2000 <= |data| < U64 / 2
    ensures var seg := Segment(PT_LOAD, 4, U64 - 0x1000, 0x40_0000, 0x2000, 0x2000);
            && Layable([seg]) && Accepted(seg, data) && !InFile(seg, data)
            && forall k: nat :: k < 0x1000 ==> Position(seg, k) >= |data|
  {
    var seg := Segment(PT_LOAD, 4, U64 - 0x1000, 0x40_0000, 0x2000, 0x2000);
    InFileIff(seg, data);
    forall k: nat | k < 0x1000
      ensures Position(seg, k) >= |data|
    {
      assert Position(seg, k) == seg.offset + k;
    }
  }

  const STACK_TOP: nat := 0x7FFF_FFFF_E000

  predicate ButExecute(k: Access) { k != Executing }

  /** What the processor and the fault handler together let user code do with the byte at `va`. */
  ghost predicate RightAt(t: Tables, a: State, s: nat, va: nat, k: Access, want: bool) {
    (WalkPasses(t, s, va / PAGE_SIZE, 4, k) <==> want) && (May(a, s, va / PAGE_SIZE, k) <==> want)
  }

  /** The pages of a loaded program: every byte of a segment can be read, and written or executed exactly if its header
      says so; the stack of sixteen pages can be read and written; nothing else is mapped. */
  ghost predicate LaidOut(t: Tables, a: State, s: nat, segs: seq<Segment>) {
    && (forall i: nat, va: nat, k :: i < |segs| && segs[i].kind == PT_LOAD
                                     && segs[i].vaddr <= va < segs[i].vaddr + segs[i].memSize ==>
                                       RightAt(t, a, s, va, k, SegAsks(segs[i], k)))
    && (forall va: nat, k :: STACK_TOP - 16 * PAGE_SIZE <= va < STACK_TOP ==> RightAt(t, a, s, va, k, ButExecute(k)))
    && (forall p: nat :: (s, p) in a.pt <==>
          TouchedBy(segs, |segs|, p) || STACK_TOP / PAGE_SIZE - 16 <= p < STACK_TOP / PAGE_SIZE)
  }

  /** One byte of a segment that was granted. */
  lemma ByteGranted(c: Snapshot, a: State, top: Table, total: nat, s: nat, seg: Segment, va: nat, k: Access)
    requires Shown(c, a, top, total) && s in a.spaces && SegGranted(a, s, seg)
    requires seg.vaddr <= va < seg.vaddr + seg.memSize <= USER_END
    ensures RightAt(c.tables, a, s, va, k, SegAsks(seg, k))
  {
    hide Shown, Asked, SegFlags, SegAsks, FirstPage, PageCount, WalkPasses, May, Passes;
    CursorPage(seg, va - seg.vaddr);
    Cursor(va);
    SegFlagsAsk(seg);
    HardwareShows(c, a, top, total, s, va / PAGE_SIZE, k);
    assert May(a, s, va / PAGE_SIZE, k) <==> Asked(SegFlags(seg), k);
    assert Passes(a.pt[(s, va / PAGE_SIZE)], k) <==> Asked(SegFlags(seg), k);
  }

  lemma AllGranted(was: State, b: State, c: Snapshot, a: State, top: Table, total: nat, s: nat, segs: seq<Segment>)
    requires GrantedBefore(was, b, s, segs, |segs|) && Layable(segs) && Shown(c, a, top, total) && s in a.spaces
    requires SegGranted(a, s, STACK) && RightsKept(b, a, s, FirstPage(STACK), PageCount(STACK))
    ensures LaidOut(c.tables, a, s, segs) && RightsKept(was, a, s, 0, USER_PAGES)
  {
    hide Shown, SegGranted, RightsKept, SegAsks, RightAt, FirstPage, PageCount, TouchedBy, PagesApart, Touches;
    forall i: nat, va: nat, k: Access | i < |segs| && segs[i].kind == PT_LOAD
        && segs[i].vaddr <= va < segs[i].vaddr + segs[i].memSize
      ensures RightAt(c.tables, a, s, va, k, SegAsks(segs[i], k))
    {
      SegStays(b, a, s, segs[i], STACK);
      ByteGranted(c, a, top, total, s, segs[i], va, k);
    }
    forall va: nat, k: Access | STACK_TOP - 16 * PAGE_SIZE <= va < STACK_TOP
      ensures RightAt(c.tables, a, s, va, k, ButExecute(k))
    {
      ByteGranted(c, a, top, total, s, STACK, va, k);
      StackAsks(k);
    }
    forall p: nat
      ensures (s, p) in a.pt
              <==> TouchedBy(segs, |segs|, p) || STACK_TOP / PAGE_SIZE - 16 <= p < STACK_TOP / PAGE_SIZE
    {
      PagesAfter(b, a, s, STACK, p);
      StackTouches(p);
    }
    PagesInRange(STACK);
    WiderKept(b, a, s, FirstPage(STACK), PageCount(STACK));
    RightsKeptThen(was, b, a, s, 0, USER_PAGES);
  }

  lemma StackAsks(k: Access)
    ensures SegAsks(STACK, k) <==> ButExecute(k)
  {
  }

  lemma StackTouches(p: nat)
    ensures Touches(STACK, p) <==> STACK_TOP / PAGE_SIZE - 16 <= p < STACK_TOP / PAGE_SIZE
  {
  }

  /** The frames `elf_load` takes: the root, the pages of the segments and of the stack, and the tables for them all. */
  function FramesFor(segs: seq<Segment>): nat {
    1 + SegPages(segs) + 16 + |SegPaths(segs) + Paths(FirstPage(STACK), 16)|
  }

  lemma {:induction false} NoRootPath(first: nat, n: nat)
    ensures (4, 0) !in Paths(first, n)
    decreases n
  {
    if n > 0 {
      NoRootPath(first, n - 1);
    }
  }

  lemma {:induction false} NoRootPaths(segs: seq<Segment>)
    ensures (4, 0) !in SegPaths(segs)
    decreases |segs|
  {
    if segs != [] {
      NoRootPaths(segs[..|segs| - 1]);
      NoRootPath(FirstPage(segs[|segs| - 1]), LoadPages(segs[|segs| - 1]));
    }
  }

  /** Frames enough for the segments and then for the stack are frames enough for both. */
  lemma WholeBudget(a: Snapshot, b: Snapshot, roots: set<nat>, top: Table, total: nat, d: nat, segs: seq<Segment>)
    requires Mem(a.tables, a.roles, roots, top, total) && d !in roots && b.roles == RootRoles(a.roles, d)
    requires d in a.free && b.free == a.free - {d}
    ensures Covers(b, d, SegPaths(segs) + Paths(FirstPage(STACK), 16), SegPages(segs) + 16)
            <==> |a.free| >= FramesFor(segs)
    ensures |a.free| >= FramesFor(segs) ==> Covers(b, d, SegPaths(segs), SegPages(segs))
  {
    hide Mem, Covers, SegPaths, SegPages, Paths;
    var m, n := SegPaths(segs) + Paths(FirstPage(STACK), 16), SegPages(segs) + 16;
    NoRootPaths(segs);
    NoRootPath(FirstPage(STACK), 16);
    NewCovers(a, b, roots, top, total, d, m, n);
    if Covers(b, d, m, n) {
      CoversLess(b, d, SegPaths(segs), SegPages(segs), m, n);
    }
  }

  lemma MemThere(vm: Vmm)
    requires vm.Valid()
    ensures vm.phys.Valid() && Mem(vm.tables, vm.roles, vm.spaces.Keys, vm.top, vm.phys.total)
  {
  }

  lemma ShownNow(vm: Vmm)
    requires vm.Valid()
    ensures vm.phys.Valid() && Shown(vm.Snap(), vm.View(), vm.top, vm.phys.total)
  {
  }

  /** A new space changes no right and no byte. */
  lemma CreatedOnly(a: State, s: nat)
    requires Inv(a) && s !in a.spaces
    ensures RightsKept(a, DoCreate(a, s), s, 0, USER_PAGES)
    ensures SpacesKept(MemOf(DoCreate(a, s).pt, DoCreate(a, s).pages), MemOf(a.pt, a.pages), s)
  {
    hide Inv, May;
    forall t: nat, v: nat, k: Access
      ensures May(DoCreate(a, s), t, v, k) <==> May(a, t, v, k)
    {
      SpaceGrants(a, Create(s), t, v, k);
    }
  }

  lemma SpacesThen(m: Memory, b: Memory, was: Memory, s: nat)
    requires SpacesKept(b, was, s) && SpacesKept(m, b, s)
    ensures SpacesKept(m, was, s)
  {
  }

  lemma NoFrames(segs: seq<Segment>)
    ensures FramesFor(segs) > 0
  {
  }

  lemma StackCovers(a: Snapshot, s: nat)
    ensures SegCovers(a, s, STACK) <==> Covers(a, s, Paths(FirstPage(STACK), 16), 16)
  {
    hide Covers, Paths;
    assert PageCount(STACK) == 16;
  }

  /** `process_create_user`, as far as memory is concerned. */
  method NewSpace(vm: Vmm) returns (s: nat)
    requires vm.Valid()
    modifies vm, vm.phys.bitmap, vm.phys.rc
    ensures s == 0 <==> old(vm.phys.Free()) == {}
    ensures s != 0 ==> s in old(vm.phys.Free()) && vm.phys.Free() == old(vm.phys.Free()) - {s}
    ensures s != 0 ==> vm.roles == RootRoles(old(vm.roles), s)
    ensures s != 0 ==> s !in old(vm.spaces) && vm.Valid() && s in vm.spaces && vm.spaces[s].regions == []
    ensures s != 0 ==> RightsKept(old(vm.View()), vm.View(), s, 0, USER_PAGES)
    ensures s != 0 ==> SpacesKept(MemNow(vm), old(MemNow(vm)), s)
  {
    hide Settled, Inv, RightsKept, SpacesKept;
    ValidInv(vm);
    ghost var c := vm.View();
    s := vm.SpaceCreate();
    if s != 0 {
      CreatedOnly(c, s);
    }
  }

  /** `elf_load` up to the start of the first thread: a new space in which every byte of every loadable segment whose
      end does not wrap is the file's byte, or zero behind the file part, whatever the page offsets and frames. */
  method ElfLoad(vm: Vmm, data: seq<Byte>) returns (ok: bool, s: nat)
    requires vm.Valid() && |data| < U64 / 2
    requires ElfCheck(data) ==>
               HeadersInside(PhOff(data), PhEntSize(data), PhNum(data), |data|)
               && Layable(Segments(data))
    modifies vm, vm.phys.bitmap, vm.phys.rc
    ensures ok <==> ElfCheck(data) && AllLoadable(Segments(data), data)
                    && |old(vm.phys.Free())| >= FramesFor(Segments(data))
    ensures !ElfCheck(data) ==> vm.Valid() && vm.View() == old(vm.View())
    ensures ok ==> vm.Valid() && s in vm.spaces && s !in old(vm.spaces)
    ensures ok ==> AllInPlace(MemNow(vm), s, Segments(data), data)
    ensures ok ==> LaidOut(vm.tables, vm.View(), s, Segments(data))
    ensures ok ==> RightsKept(old(vm.View()), vm.View(), s, 0, USER_PAGES) && SpacesKept(MemNow(vm), old(MemNow(vm)), s)
  {
    hide Settled, Vmm.Valid, MemNow, Little, Layable, Segments, AllInPlace, AllLoadable, FramesFor, Covers, SegPaths,
        SegPages, Paths, LaidOut, RightsKept, SpacesKept, Inv, Vmm.View;
    if !ElfCheck(data) {
      return false, 0;
    }
    var segs := Segments(data);
    MemThere(vm);
    ghost var a, was, bytes := vm.Snap(), vm.View(), MemNow(vm);
    s := NewSpace(vm);
    if s == 0 {
      NoFrames(segs);
      return false, 0;
    }
    MemThere(vm);
    WholeBudget(a, vm.Snap(), old(vm.spaces.Keys), vm.top, vm.phys.total, s, segs);
    ghost var made, held := vm.View(), MemNow(vm);
    ok := LoadAll(vm, s, segs, data);
    if ok {
      RightsKeptThen(was, made, vm.View(), s, 0, USER_PAGES);
      SpacesThen(MemNow(vm), held, bytes, s);
    }
  }

  /** The segments, then the stack. */
  method LoadAll(vm: Vmm, s: nat, segs: seq<Segment>, data: seq<Byte>) returns (ok: bool)
    requires vm.Valid() && s in vm.spaces && vm.spaces[s].regions == [] && Layable(segs) && |data| < U64
    modifies vm, vm.phys.bitmap, vm.phys.rc
    ensures ok <==> AllLoadable(segs, data)
                    && Covers(old(vm.Snap()), s, SegPaths(segs), SegPages(segs))
                    && Covers(old(vm.Snap()), s, SegPaths(segs) + Paths(FirstPage(STACK), 16), SegPages(segs) + 16)
    ensures ok ==> vm.Valid() && s in vm.spaces && AllInPlace(MemNow(vm), s, segs, data)
    ensures ok ==> LaidOut(vm.tables, vm.View(), s, segs)
    ensures ok ==> RightsKept(old(vm.View()), vm.View(), s, 0, USER_PAGES) && SpacesKept(MemNow(vm), old(MemNow(vm)), s)
  {
    hide GrantedBefore, SegGranted, RightsKept, SpacesKept, LaidOut, FirstPage, PageCount, Shown;
    hide Settled, Vmm.Valid, MemNow, LoadedTo, LoadedBefore, OthersKept, PagesApart, Layable, AllInPlace, AllLoadable,
        Spent, Covers, SegCovers, SegPaths, SegPages, Paths;
    MemThere(vm);
    ghost var b := vm.Snap();
    ok := LoadSegments(vm, s, segs, data);
    if !ok {
      return;
    }
    MemThere(vm);
    ghost var m, rs, c := MemNow(vm), vm.spaces[s].regions, vm.View();
    StackFree(m, rs, s, segs, data);
    CoversThen(b, vm.Snap(), s, SegPaths(segs), SegPages(segs), Paths(FirstPage(STACK), 16), 16);
    StackCovers(vm.Snap(), s);
    ok := MapStack(vm, s);
    if ok {
      AllLoaded(m, MemNow(vm), rs, s, segs, data);
      OtherSpaces(MemNow(vm), m, old(MemNow(vm)), s, STACK);
      ShownNow(vm);
      AllGranted(old(vm.View()), c, vm.Snap(), vm.View(), vm.top, vm.phys.total, s, segs);
    }
  }
}
