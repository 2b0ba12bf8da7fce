/** Executables as bytes: header and program headers written field by field as the System V ABI lays them out (gABI,
    chapters 4 and 5, ELF64, little-endian), and what the loader reads back from them. */
module ElfImages {
  import opened Layout
  import opened EagerCopy
  import opened PageTable
  import opened AccessRights
  import opened AddressSpaces
  import opened ElfLoader

  /** A number as `n` bytes, the least significant first. */
  function Bytes(x: nat, n: nat): (b: seq<Byte>)
    ensures |b| == n
  {
    if n == 0 then [] else [x % 256] + Bytes(x / 256, n - 1)
  }

  lemma {:induction false} BytesRead(before: seq<Byte>, x: nat, n: nat, after: seq<Byte>)
    requires x < Power(n)
    ensures Little(before + Bytes(x, n) + after, |before|, n) == x
    decreases n
  {
    if n > 0 {
      var low: Byte := x % 256;
      var data := before + Bytes(x, n) + after;
      assert data == (before + [low]) + Bytes(x / 256, n - 1) + after;
      BytesRead(before + [low], x / 256, n - 1, after);
      assert data[|before|] == low;
    }
  }

  /** A value and how many bytes it takes. */
  datatype Field = Field(value: nat, width: nat)

  /** The first `i` fields, one behind the other. */
  function Encoded(fs: seq<Field>, i: nat): seq<Byte>
    requires i <= |fs|
  {
    if i == 0 then [] else Encoded(fs, i - 1) + Bytes(fs[i - 1].value, fs[i - 1].width)
  }

  function Start(fs: seq<Field>, i: nat): nat
    requires i <= |fs|
  {
    if i == 0 then 0 else Start(fs, i - 1) + fs[i - 1].width
  }

  predicate Fit(fs: seq<Field>) {
    forall i :: 0 <= i < |fs| ==> fs[i].value < Power(fs[i].width)
  }

  lemma {:induction false} EncodedParts(fs: seq<Field>, i: nat, j: nat)
    requires i <= j <= |fs|
    ensures |Encoded(fs, i)| == Start(fs, i) && Encoded(fs, i) <= Encoded(fs, j)
    decreases i + j
  {
    if i < j {
      EncodedParts(fs, i, j - 1);
    } else if i > 0 {
      EncodedParts(fs, i - 1, i - 1);
    }
  }

  /** A part in the middle. */
  lemma Between(before: seq<Byte>, head: seq<Byte>, part: seq<Byte>, all: seq<Byte>, after: seq<Byte>)
      returns (rest: seq<Byte>)
    requires head + part <= all
    ensures before + all + after == (before + head) + part + rest
  {
    rest := all[|head + part|..] + after;
    assert all == head + part + all[|head + part|..];
  }

  /** Every field of a record reads back at its place, whatever stands before and behind the record. */
  lemma FieldRead(before: seq<Byte>, fs: seq<Field>, after: seq<Byte>, i: nat)
    requires Fit(fs) && i < |fs|
    ensures |Encoded(fs, |fs|)| == Start(fs, |fs|) && Start(fs, i) + fs[i].width <= Start(fs, |fs|)
    ensures Little(before + Encoded(fs, |fs|) + after, |before| + Start(fs, i), fs[i].width) == fs[i].value
  {
    var head, part := Encoded(fs, i), Bytes(fs[i].value, fs[i].width);
    EncodedParts(fs, i, i);
    EncodedParts(fs, i + 1, |fs|);
    EncodedParts(fs, |fs|, |fs|);
    assert Encoded(fs, i + 1) == head + part;
    hide Encoded, Little, Bytes, Start;
    var rest := Between(before, head, part, Encoded(fs, |fs|), after);
    BytesRead(before + head, fs[i].value, fs[i].width, rest);
  }

  // ---------- records ----------

  /** `elf64_ehdr_t`. */
  datatype FileHeader = FileHeader(ident: seq<Byte>, kind: nat, machine: nat, version: nat, entry: nat, phOff: nat,
    shOff: nat, flags: nat, ehSize: nat, phEntSize: nat, phNum: nat, shEntSize: nat, shNum: nat, shStrNdx: nat)

  function HeaderFields(h: FileHeader): seq<Field> {
    [Field(h.kind, 2), Field(h.machine, 2), Field(h.version, 4), Field(h.entry, 8), Field(h.phOff, 8),
     Field(h.shOff, 8), Field(h.flags, 4), Field(h.ehSize, 2), Field(h.phEntSize, 2), Field(h.phNum, 2),
     Field(h.shEntSize, 2), Field(h.shNum, 2), Field(h.shStrNdx, 2)]
  }

  function HeaderBytes(h: FileHeader): seq<Byte> {
    h.ident + Encoded(HeaderFields(h), 13)
  }

  predicate HeaderFits(h: FileHeader) { |h.ident| == 16 && Fit(HeaderFields(h)) }

  /** The fields the loader reads. */
  lemma HeaderRead(h: FileHeader, rest: seq<Byte>)
    requires HeaderFits(h)
    ensures var data := HeaderBytes(h) + rest;
            && |HeaderBytes(h)| == EHDR_SIZE && data[..16] == h.ident
            && Little(data, 16, 2) == h.kind && Little(data, 18, 2) == h.machine
            && PhOff(data) == h.phOff && PhEntSize(data) == h.phEntSize && PhNum(data) == h.phNum
  {
    var fs, data := HeaderFields(h), HeaderBytes(h) + rest;
    HeaderStarts(h);
    hide Little, Encoded, Start, HeaderFields, Fit;
    FieldRead(h.ident, fs, rest, 0);
    FieldRead(h.ident, fs, rest, 1);
    FieldRead(h.ident, fs, rest, 4);
    FieldRead(h.ident, fs, rest, 8);
    FieldRead(h.ident, fs, rest, 9);
  }

  lemma HeaderStarts(h: FileHeader)
    ensures var fs := HeaderFields(h);
            && |fs| == 13 && Start(fs, 0) == 0 && Start(fs, 1) == 2 && Start(fs, 4) == 16 && Start(fs, 8) == 38
            && Start(fs, 9) == 40 && Start(fs, 13) == 48
            && fs[0] == Field(h.kind, 2) && fs[1] == Field(h.machine, 2) && fs[4] == Field(h.phOff, 8)
            && fs[8] == Field(h.phEntSize, 2) && fs[9] == Field(h.phNum, 2)
  {
    var fs := HeaderFields(h);
    assert Start(fs, 1) == 2 && Start(fs, 2) == 4;
    assert Start(fs, 3) == 8 && Start(fs, 4) == 16;
    assert Start(fs, 5) == 24 && Start(fs, 6) == 32;
    assert Start(fs, 7) == 36 && Start(fs, 8) == 38;
    assert Start(fs, 9) == 40 && Start(fs, 10) == 42;
    assert Start(fs, 11) == 44 && Start(fs, 12) == 46;
  }

  /** A program header with what the loader ignores: physical address, alignment, and padding up to the entry size. */
  datatype Row = Row(seg: Segment, paddr: nat, align: nat, pad: seq<Byte>)

  function RowFields(r: Row): seq<Field> {
    [Field(r.seg.kind, 4), Field(r.seg.flags, 4), Field(r.seg.offset, 8), Field(r.seg.vaddr, 8), Field(r.paddr, 8),
     Field(r.seg.fileSize, 8), Field(r.seg.memSize, 8), Field(r.align, 8)]
  }

  function RowBytes(r: Row): seq<Byte> {
    Encoded(RowFields(r), 8) + r.pad
  }

  lemma RowStarts(r: Row)
    ensures var fs := RowFields(r);
            && |fs| == 8 && Start(fs, 0) == 0 && Start(fs, 1) == 4 && Start(fs, 2) == 8 && Start(fs, 3) == 16
            && Start(fs, 5) == 32 && Start(fs, 6) == 40 && Start(fs, 8) == PHDR_SIZE
            && fs[0] == Field(r.seg.kind, 4) && fs[1] == Field(r.seg.flags, 4) && fs[2] == Field(r.seg.offset, 8)
            && fs[3] == Field(r.seg.vaddr, 8) && fs[5] == Field(r.seg.fileSize, 8)
            && fs[6] == Field(r.seg.memSize, 8)
  {
    var fs := RowFields(r);
    assert Start(fs, 1) == 4 && Start(fs, 2) == 8;
    assert Start(fs, 3) == 16 && Start(fs, 4) == 24;
    assert Start(fs, 5) == 32 && Start(fs, 6) == 40;
    assert Start(fs, 7) == 48;
  }

  /** A program header reads back wherever it stands. */
  lemma RowRead(before: seq<Byte>, r: Row, after: seq<Byte>)
    requires Fit(RowFields(r))
    ensures |RowBytes(r)| == PHDR_SIZE + |r.pad|
    ensures var data, h := before + RowBytes(r) + after, |before|;
            && Little(data, h, 4) == r.seg.kind && Little(data, h + 4, 4) == r.seg.flags
            && Little(data, h + 8, 8) == r.seg.offset && Little(data, h + 16, 8) == r.seg.vaddr
            && Little(data, h + 32, 8) == r.seg.fileSize && Little(data, h + 40, 8) == r.seg.memSize
  {
    var fs, rest := RowFields(r), r.pad + after;
    RowStarts(r);
    assert before + RowBytes(r) + after == before + Encoded(fs, 8) + rest;
    hide Little, Encoded, Start, RowFields, Fit;
    FieldRead(before, fs, rest, 0);
    FieldRead(before, fs, rest, 1);
    FieldRead(before, fs, rest, 2);
    FieldRead(before, fs, rest, 3);
    FieldRead(before, fs, rest, 5);
    FieldRead(before, fs, rest, 6);
  }

  // ---------- files ----------

  function RowsTo(rows: seq<Row>, i: nat): seq<Byte>
    requires i <= |rows|
  {
    if i == 0 then [] else RowsTo(rows, i - 1) + RowBytes(rows[i - 1])
  }

  /** A file: header, anything, program headers, anything. */
  datatype Image = Image(header: FileHeader, gap: seq<Byte>, rows: seq<Row>, body: seq<Byte>)

  function Written(img: Image): seq<Byte> {
    HeaderBytes(img.header) + img.gap + RowsTo(img.rows, |img.rows|) + img.body
  }

  /** The fields fit their widths, and the header says where the program headers are. */
  predicate Consistent(img: Image) {
    && HeaderFits(img.header) && img.header.phOff == EHDR_SIZE + |img.gap| && img.header.phNum == |img.rows|
    && forall i :: 0 <= i < |img.rows| ==>
                     Fit(RowFields(img.rows[i])) && PHDR_SIZE + |img.rows[i].pad| == img.header.phEntSize
  }

  lemma OneMore(i: nat, n: nat)
    ensures (i + 1) * n == i * n + n
  {
  }

  lemma {:induction false} RowsParts(img: Image, i: nat, j: nat)
    requires Consistent(img) && i <= j <= |img.rows|
    ensures |RowsTo(img.rows, i)| == i * img.header.phEntSize && RowsTo(img.rows, i) <= RowsTo(img.rows, j)
    decreases i + j
  {
    hide Fit, Encoded, RowFields, HeaderFits;
    if i < j {
      RowsParts(img, i, j - 1);
    } else if i > 0 {
      RowsParts(img, i - 1, i - 1);
      RowRead([], img.rows[i - 1], []);
      OneMore(i - 1, img.header.phEntSize);
    }
  }

  /** Program header `i` of a written file is row `i`. */
  lemma RowAt(img: Image, i: nat)
    requires Consistent(img) && i < |img.rows|
    ensures var data := Written(img);
            && |data| >= EHDR_SIZE && HeaderAt(PhOff(data), PhEntSize(data), i) + PHDR_SIZE <= |data|
            && SegmentAt(data, i) == img.rows[i].seg
  {
    hide Little, RowBytes, HeaderBytes, Fit, HeaderFits, RowFields;
    var data, all := Written(img), RowsTo(img.rows, |img.rows|);
    assert data == HeaderBytes(img.header) + (img.gap + all + img.body);
    HeaderRead(img.header, img.gap + all + img.body);
    RowsParts(img, i, i + 1);
    RowsParts(img, i + 1, |img.rows|);
    RowsParts(img, |img.rows|, |img.rows|);
    OneMore(i, img.header.phEntSize);
    var front := HeaderBytes(img.header) + img.gap;
    assert RowsTo(img.rows, i + 1) == RowsTo(img.rows, i) + RowBytes(img.rows[i]);
    hide RowsTo;
    var rest := Between(front, RowsTo(img.rows, i), RowBytes(img.rows[i]), all, img.body);
    hide Written;
    RowRead(front + RowsTo(img.rows, i), img.rows[i], rest);
  }

  function Segs(img: Image): (r: seq<Segment>)
    ensures |r| == |img.rows| && forall i :: 0 <= i < |r| ==> r[i] == img.rows[i].seg
  {
    seq(|img.rows|, i requires 0 <= i < |img.rows| => img.rows[i].seg)
  }

  /** The header is that of an x86-64 executable. */
  predicate Executable(h: FileHeader) {
    && |h.ident| == 16 && h.ident[0] == 0x7F && h.ident[1] == 'E' as int && h.ident[2] == 'L' as int
    && h.ident[3] == 'F' as int && h.ident[4] == 2 && h.ident[5] == 1
    && (h.kind == 2 || h.kind == 3) && h.machine == 62 && h.phEntSize >= PHDR_SIZE
  }

  /** What passes `elf_check` and what is refused, for a header of any fields in front of anything. */
  lemma CheckedIff(h: FileHeader, rest: seq<Byte>)
    requires HeaderFits(h)
    ensures ElfCheck(HeaderBytes(h) + rest)
            <==> Executable(h) && (h.phOff + h.phNum * h.phEntSize) % U64 <= EHDR_SIZE + |rest|
  {
    var data := HeaderBytes(h) + rest;
    HeaderRead(h, rest);
    assert data[..4] == data[..16][..4] && data[4] == data[..16][4] && data[5] == data[..16][5];
    hide Little, HeaderBytes, Fit;
    assert h.ident[..4] == [0x7F, 0x45, 0x4C, 0x46]
           <==> h.ident[0] == 0x7F && h.ident[1] == 0x45 && h.ident[2] == 0x4C && h.ident[3] == 0x46;
  }

  /** The header of a written file, and that the header table ends inside the file. */
  lemma WrittenHeader(img: Image)
    requires Consistent(img)
    ensures var data := Written(img);
            && |data| >= EHDR_SIZE && PhNum(data) == |img.rows|
            && img.header.phOff + img.header.phNum * img.header.phEntSize <= |data|
    ensures |Written(img)| < U64 ==> (ElfCheck(Written(img)) <==> Executable(img.header))
  {
    hide Little, HeaderBytes, Fit, RowFields, RowsTo, ElfCheck, Executable;
    var data, all := Written(img), RowsTo(img.rows, |img.rows|);
    var rest := img.gap + all + img.body;
    assert data == HeaderBytes(img.header) + rest;
    HeaderRead(img.header, rest);
    CheckedIff(img.header, rest);
    RowsParts(img, |img.rows|, |img.rows|);
  }

  /** A file that is written is accepted, its program headers are in it, and they read back. */
  lemma WrittenRead(img: Image)
    requires Consistent(img) && Executable(img.header) && |Written(img)| < U64
    ensures ElfCheck(Written(img))
    ensures var data := Written(img);
            HeadersInside(PhOff(data), PhEntSize(data), PhNum(data), |data|) && Segments(data) == Segs(img)
  {
    hide Little, Written, Fit, SegmentAt, ElfCheck, HeaderAt, Executable, Consistent;
    var data := Written(img);
    WrittenHeader(img);
    forall i: nat | i < |img.rows|
      ensures HeaderAt(PhOff(data), PhEntSize(data), i) + PHDR_SIZE <= |data| && SegmentAt(data, i) == img.rows[i].seg
    {
      RowAt(img, i);
    }
    assert Segments(data) == Segs(img);
  }

  /** `elf_load` of a written file: what is loaded is what was written. */
  method LoadWritten(vm: Vmm, img: Image) returns (ok: bool, s: nat)
    requires vm.Valid() && Consistent(img) && |Written(img)| < U64 / 2 && Layable(Segs(img))
    modifies vm, vm.phys.bitmap, vm.phys.rc
    ensures ok <==> Executable(img.header) && AllLoadable(Segs(img), Written(img))
                    && |old(vm.phys.Free())| >= FramesFor(Segs(img))
    ensures ok ==> vm.Valid() && s in vm.spaces && s !in old(vm.spaces)
    ensures ok ==> AllInPlace(MemNow(vm), s, Segs(img), Written(img)) && LaidOut(vm.tables, vm.View(), s, Segs(img))
  {
    hide Vmm.Valid, Vmm.View, MemNow, Little, Layable, Segments, AllInPlace, AllLoadable, FramesFor, LaidOut,
        Written, ElfCheck, Executable, Consistent;
    var data := Written(img);
    WrittenHeader(img);
    if Executable(img.header) {
      WrittenRead(img);
    }
    ok, s := ElfLoad(vm, data);
  }
}
