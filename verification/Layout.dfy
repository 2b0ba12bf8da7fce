/** Constants, address arithmetic and the value types shared by the memory stack. */
module Layout {

  const PAGE_SIZE: nat := 4096
  /** Pages of the user half: the canonical lower half of a 48-bit address space. */
  const USER_PAGES: nat := 0x8_0000_0000
  const U32: nat := 0x1_0000_0000
  const U64: nat := 0x1_0000_0000_0000_0000

  type Byte = b: int | 0 <= b < 256
  /** The bytes of one frame. */
  type Page = p: seq<Byte> | |p| == PAGE_SIZE witness seq(PAGE_SIZE, _ => 0)
  /** A 32-bit counter; increments wrap. */
  type Counter = n: int | 0 <= n < U32
  /** A 64-bit word. */
  type Word = n: int | 0 <= n < U64

  datatype Option<+T> = None | Some(value: T)

  /** One bit of `vmm_region.flags`. */
  datatype RegionFlag = Used | Kernel | User | Guard | Read | Write | Exec | Shared | Cow | Mmio
  type Flags = set<RegionFlag>

  /** A page-table word: zero, or a present entry with the bits the kernel sets. */
  datatype Entry = Absent | Entry(frame: nat, writable: bool, user: bool, noExec: bool)

  /** `flags_to_pte` together with the frame number it is stored with. */
  function PteFor(frame: nat, flags: Flags): Entry {
    Entry(frame, Write in flags, User in flags, Exec !in flags)
  }

  predicate NoDup<T(==)>(s: seq<T>) {
    forall i, j :: 0 <= i < j < |s| ==> s[i] != s[j]
  }

  /** A user region, in pages: `base == 4096 * first`, `size == 4096 * pages`. */
  datatype Region = Region(first: nat, pages: nat, flags: Flags) {
    function End(): nat { first + pages }
    predicate Covers(v: nat) { first <= v < End() }
  }

  /** `vmm_space_t` without its root frame, which names the space. */
  datatype Space = Space(regions: seq<Region>, regionCount: nat, usedPages: nat)

  /** Region lists are sorted by base and regions do not overlap. */
  predicate Sorted(rs: seq<Region>) {
    && (forall i :: 0 <= i < |rs| ==> rs[i].pages > 0 && rs[i].End() <= USER_PAGES)
    && (forall i, j :: 0 <= i < j < |rs| ==> rs[i].End() <= rs[j].first)
  }

  predicate Covered(rs: seq<Region>, v: nat) {
    exists i :: 0 <= i < |rs| && rs[i].Covers(v)
  }

  function TotalPages(rs: seq<Region>): nat {
    if rs == [] then 0 else TotalPages(rs[..|rs| - 1]) + rs[|rs| - 1].pages
  }

  lemma {:induction false} TotalPagesConcat(a: seq<Region>, b: seq<Region>)
    ensures TotalPages(a + b) == TotalPages(a) + TotalPages(b)
  {
    if b == [] {
      assert a + b == a;
    } else {
      TotalPagesConcat(a, b[..|b| - 1]);
      assert (a + b)[..|a + b| - 1] == a + b[..|b| - 1];
    }
  }

  /** Where `vmm_space_alloc` links a node: before the first region whose base is not below it. */
  function InsertAt(rs: seq<Region>, first: nat): (k: nat)
    ensures k <= |rs|
    ensures forall i :: 0 <= i < k ==> rs[i].first < first
    ensures k < |rs| ==> rs[k].first >= first
  {
    if rs == [] then 0
    else if rs[0].first < first then 1 + InsertAt(rs[1..], first)
    else 0
  }

  function Insert(rs: seq<Region>, r: Region): seq<Region> {
    var k := InsertAt(rs, r.first);
    rs[..k] + [r] + rs[k..]
  }

  /** Every covered page of a sorted list names its region. */
  function IndexOf(rs: seq<Region>, v: nat): (i: nat)
    requires Covered(rs, v)
    ensures i < |rs| && rs[i].Covers(v)
    ensures forall j :: 0 <= j < i ==> !rs[j].Covers(v)
  {
    if rs[0].Covers(v) then 0
    else
      assert Covered(rs[1..], v) by {
        var i :| 0 <= i < |rs| && rs[i].Covers(v);
        assert rs[1..][i - 1].Covers(v);
      }
      1 + IndexOf(rs[1..], v)
  }

  /** Against a list it does not meet, the insertion point separates a region from its neighbours. */
  lemma InsertGap(rs: seq<Region>, r: Region, i: nat)
    requires Sorted(rs) && i < |rs| && r.pages > 0
    requires forall v :: r.Covers(v) ==> !Covered(rs, v)
    ensures i < InsertAt(rs, r.first) ==> rs[i].End() <= r.first
    ensures i >= InsertAt(rs, r.first) ==> r.End() <= rs[i].first
  {
    var k := InsertAt(rs, r.first);
    if i < k {
      assert r.Covers(r.first);
      assert !rs[i].Covers(r.first);
    } else {
      assert i == k || rs[k].End() <= rs[i].first;
      assert rs[i].Covers(rs[i].first);
      assert !r.Covers(rs[i].first);
    }
  }

  lemma InsertCovered(rs: seq<Region>, r: Region, v: nat)
    ensures Covered(Insert(rs, r), v) <==> Covered(rs, v) || r.Covers(v)
  {
    var k := InsertAt(rs, r.first);
    var ns := Insert(rs, r);
    if Covered(ns, v) {
      var i :| 0 <= i < |ns| && ns[i].Covers(v);
      if i < k {
        assert rs[i].Covers(v);
      } else if i > k {
        assert rs[i - 1].Covers(v);
      }
    }
    if Covered(rs, v) {
      var i :| 0 <= i < |rs| && rs[i].Covers(v);
      assert ns[if i < k then i else i + 1].Covers(v);
    }
    if r.Covers(v) {
      assert ns[k].Covers(v);
    }
  }

  /** A new region that meets no old one keeps the list sorted and adds exactly its own pages. */
  lemma InsertSorted(rs: seq<Region>, r: Region)
    requires Sorted(rs)
    requires r.pages > 0 && r.End() <= USER_PAGES
    requires forall v :: r.Covers(v) ==> !Covered(rs, v)
    ensures Sorted(Insert(rs, r))
  {
    forall i: nat | i < |rs|
      ensures i < InsertAt(rs, r.first) ==> rs[i].End() <= r.first
      ensures i >= InsertAt(rs, r.first) ==> r.End() <= rs[i].first
    {
      InsertGap(rs, r, i);
    }
  }

  /** The region whose base is `first`, as the list walk of `vmm_space_free` finds it. */
  function FindBase(rs: seq<Region>, first: nat): (r: Option<nat>)
    ensures r.Some? ==> r.value < |rs| && rs[r.value].first == first
    ensures r.None? ==> forall i :: 0 <= i < |rs| ==> rs[i].first != first
  {
    if rs == [] then None
    else if rs[0].first == first then Some(0)
    else match FindBase(rs[1..], first)
      case None => None
      case Some(k) => Some(k + 1)
  }

  function RemoveAt(rs: seq<Region>, k: nat): seq<Region>
    requires k < |rs|
  {
    rs[..k] + rs[k + 1..]
  }

  lemma RemoveIndex(rs: seq<Region>, k: nat, i: nat)
    requires k < |rs| && i < |rs| - 1
    ensures RemoveAt(rs, k)[i] == rs[if i < k then i else i + 1]
  {
  }

  lemma RemoveCovered(rs: seq<Region>, k: nat, v: nat)
    requires Sorted(rs) && k < |rs|
    ensures Covered(RemoveAt(rs, k), v) <==> Covered(rs, v) && !rs[k].Covers(v)
  {
    var ns := RemoveAt(rs, k);
    if rs[k].Covers(v) {
      forall i: nat | i < |ns|
        ensures !ns[i].Covers(v)
      {
        RemoveIndex(rs, k, i);
        if ns[i].Covers(v) {
          SameRegion(rs, if i < k then i else i + 1, k, v);
        }
      }
    } else {
      RemoveElsewhere(rs, k, v);
    }
  }

  lemma RemoveElsewhere(rs: seq<Region>, k: nat, v: nat)
    requires k < |rs| && !rs[k].Covers(v)
    ensures Covered(RemoveAt(rs, k), v) <==> Covered(rs, v)
  {
    var ns := RemoveAt(rs, k);
    if Covered(rs, v) {
      var i: nat :| i < |rs| && rs[i].Covers(v);
      var j := if i < k then i else i - 1;
      RemoveIndex(rs, k, j);
      CoveredBy(ns, j, v);
    }
    if Covered(ns, v) {
      var i: nat :| i < |ns| && ns[i].Covers(v);
      RemoveIndex(rs, k, i);
      CoveredBy(rs, if i < k then i else i + 1, v);
    }
  }

  lemma CoveredBy(rs: seq<Region>, i: nat, v: nat)
    requires i < |rs| && rs[i].Covers(v)
    ensures Covered(rs, v)
  {
  }

  lemma RemoveSorted(rs: seq<Region>, k: nat)
    requires Sorted(rs) && k < |rs|
    ensures Sorted(RemoveAt(rs, k))
  {
  }

  lemma RemoveTotal(rs: seq<Region>, k: nat)
    requires k < |rs|
    ensures TotalPages(RemoveAt(rs, k)) == TotalPages(rs) - rs[k].pages
  {
    hide TotalPages;
    var before, here, after := rs[..k], [rs[k]], rs[k + 1..];
    assert rs == before + here + after;
    TotalPagesConcat(before, after);
    TotalPagesConcat(before, here);
    TotalPagesConcat(before + here, after);
    TotalOne(rs[k]);
  }

  lemma TotalOne(r: Region)
    ensures TotalPages([r]) == r.pages
  {
    assert [r][..0] == [];
  }

  lemma InsertTotal(rs: seq<Region>, r: Region)
    ensures TotalPages(Insert(rs, r)) == TotalPages(rs) + r.pages
  {
    hide TotalPages;
    var k := InsertAt(rs, r.first);
    TotalPagesConcat(rs[..k], [r]);
    TotalPagesConcat(rs[..k] + [r], rs[k..]);
    TotalPagesConcat(rs[..k], rs[k..]);
    assert rs == rs[..k] + rs[k..];
    TotalOne(r);
  }

  /** Regions of a sorted list that cover the same page are the same region. */
  lemma SameRegion(rs: seq<Region>, i: nat, j: nat, v: nat)
    requires Sorted(rs) && i < |rs| && j < |rs| && rs[i].Covers(v) && rs[j].Covers(v)
    ensures i == j
  {
  }

  lemma FirstBase(rs: seq<Region>)
    requires rs != []
    ensures FindBase(rs, rs[0].first) == Some(0)
    ensures |RemoveAt(rs, 0)| == |rs| - 1 && forall r :: r in RemoveAt(rs, 0) ==> r in rs
  {
  }
}
