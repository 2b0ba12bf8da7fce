/** What a program may do with its pages: the rights the hardware grants through all four levels, and what each
    operation makes of the rights that the region flags asked for. */
module AccessRights {
  import opened Layout
  import opened PageTable
  import opened CopyOnWrite
  import opened CowInvariant
  import opened EagerCopy
  import opened CowLimits

  datatype Access = Reading | Writing | Executing

  /** One table entry lets user code through. */
  predicate Passes(e: Entry, k: Access) {
    e.Entry? && e.user && (k.Writing? ==> e.writable) && (k.Executing? ==> !e.noExec)
  }

  /** The processor's check from table `f` of level `l` down: every entry on the way must let the access through. */
  predicate WalkPasses(t: Tables, f: nat, v: nat, l: nat, k: Access)
    requires l > 0
    decreases l
  {
    var e := EntryAt(t, f, Index(v, l));
    Passes(e, k) && (l > 1 ==> WalkPasses(t, e.frame, v, l - 1, k))
  }

  /** In a tree the tables above the last level restrict nothing. */
  lemma {:induction false} BelowPasses(t: Tables, roles: Roles, roots: set<nat>, s: nat, v: nat, l: nat, k: Access)
    requires Shape(t, roles, roots) && s in roots && v < USER_PAGES && 1 <= l <= 4 && WalkTo(t, s, v, l).Some?
    ensures WalkPasses(t, WalkTo(t, s, v, l).value, v, l, k) <==> Passes(Lookup(t, s, v), k)
    decreases l
  {
    if l > 1 {
      var f := WalkTo(t, s, v, l).value;
      WalkRole(t, roles, roots, s, v, l);
      assert TableOk(t, roles, roots, f);
      if EntryAt(t, f, Index(v, l)).Entry? {
        assert WalkTo(t, s, v, l - 1) == Some(EntryAt(t, f, Index(v, l)).frame);
        BelowPasses(t, roles, roots, s, v, l - 1, k);
      } else {
        StopsAbove(t, s, v, l);
      }
    }
  }

  /** A walk that stops at one level finds nothing. */
  lemma {:induction false} StopsAbove(t: Tables, s: nat, v: nat, l: nat)
    requires 1 < l <= 4 && WalkTo(t, s, v, l - 1).None?
    ensures Lookup(t, s, v) == Absent
    decreases l
  {
    if l > 2 {
      StopsAbove(t, s, v, l - 1);
    }
  }

  /** The processor lets user code through exactly as the last-level entry says. */
  lemma HardwareAgrees(t: Tables, roles: Roles, roots: set<nat>, s: nat, v: nat, k: Access)
    requires Tree(t, roles, roots) && s in roots && v < USER_PAGES
    ensures WalkPasses(t, s, v, 4, k) <==> Passes(Lookup(t, s, v), k)
  {
    BelowPasses(t, roles, roots, s, v, 4, k);
  }

  // ---------- what a program may do, faults included ----------

  /** The access succeeds: the entry lets it through, or it is a write that the fault handler makes possible. */
  predicate May(a: State, s: nat, v: nat, k: Access) {
    && (s, v) in a.pt && a.pt[(s, v)].Entry? && a.pt[(s, v)].user
    && match k
       case Reading => true
       case Writing => Writable(a, s, v)
       case Executing => !a.pt[(s, v)].noExec
  }

  /** What the flags of a request ask for. */
  predicate Asked(flags: Flags, k: Access) {
    && User in flags
    && match k
       case Reading => true
       case Writing => RegionFlag.Write in flags
       case Executing => Exec in flags
  }

  /** The region that covers a page after an insertion. */
  lemma InsertFinds(rs: seq<Region>, r: Region, v: nat)
    requires Sorted(Insert(rs, r)) && Covered(Insert(rs, r), v)
    ensures r.Covers(v) ==> Insert(rs, r)[IndexOf(Insert(rs, r), v)] == r
    ensures !r.Covers(v) ==> Covered(rs, v) && Insert(rs, r)[IndexOf(Insert(rs, r), v)] == rs[IndexOf(rs, v)]
  {
    InsertCovered(rs, r, v);
    var ns, k := Insert(rs, r), InsertAt(rs, r.first);
    var i := IndexOf(ns, v);
    if r.Covers(v) {
      InsertIndex(rs, r, k);
      SameRegion(ns, i, k, v);
    } else {
      var j := IndexOf(rs, v);
      var m := if j < k then j else j + 1;
      InsertIndex(rs, r, m);
      SameRegion(ns, i, m, v);
    }
  }

  /** The entry of a fresh page. */
  lemma AllocEntry(a: State, s: nat, first: nat, flags: Flags, frames: seq<nat>, fill: seq<Page>, v: nat)
    requires AllocOk(a, s, first, flags, frames, fill) && first <= v < first + |frames|
    ensures var b := DoAlloc(a, s, first, flags, frames, fill);
            && (s, v) in b.pt && b.pt[(s, v)].Entry? && b.pt[(s, v)].frame == frames[v - first]
            && b.pt[(s, v)].frame in b.pages
            && (b.pt[(s, v)].user <==> User in flags) && (b.pt[(s, v)].noExec <==> Exec !in flags)
            && (b.pt[(s, v)].writable <==> RegionFlag.Write in flags)
  {
    MapRangeAt(a.pt, s, first, flags, frames, (s, v));
    assert frames[v - first] in frames;
  }

  /** A fresh region is not copy-on-write. */
  lemma AllocUnshared(a: State, s: nat, first: nat, flags: Flags, frames: seq<nat>, fill: seq<Page>, v: nat)
    requires Inv(a) && AllocOk(a, s, first, flags, frames, fill) && first <= v < first + |frames|
    ensures !Breakable(DoAlloc(a, s, first, flags, frames, fill), s, v)
  {
    hide Exact, OnePage, Exclusive, Bits;
    var b, r := DoAlloc(a, s, first, flags, frames, fill), Region(first, |frames|, flags + {Used});
    AllocKeeps(a, s, first, flags, frames, fill);
    SpaceSorted(b, s);
    hide Insert, Inv, Sorted;
    if Covered(b.spaces[s].regions, v) {
      InsertFinds(a.spaces[s].regions, r, v);
    }
  }

  /** A fresh page can be written exactly if that was asked for, and not by way of a fault. */
  lemma AllocNew(a: State, s: nat, first: nat, flags: Flags, frames: seq<nat>, fill: seq<Page>, v: nat)
    requires Inv(a) && AllocOk(a, s, first, flags, frames, fill) && first <= v < first + |frames|
    ensures var b := DoAlloc(a, s, first, flags, frames, fill);
            && (s, v) in b.pt && b.pt[(s, v)].Entry? && b.pt[(s, v)].frame == frames[v - first]
            && (b.pt[(s, v)].user <==> User in flags) && (b.pt[(s, v)].noExec <==> Exec !in flags)
            && (Writable(b, s, v) <==> RegionFlag.Write in flags)
            && (Storable(b, s, v) <==> RegionFlag.Write in flags)
  {
    hide Inv, DoAlloc, Breakable;
    AllocEntry(a, s, first, flags, frames, fill, v);
    AllocUnshared(a, s, first, flags, frames, fill, v);
  }

  /** Every other page can be written exactly if it could be. */
  lemma AllocOld(a: State, s: nat, first: nat, flags: Flags, frames: seq<nat>, fill: seq<Page>, t: nat, v: nat)
    requires Inv(a) && AllocOk(a, s, first, flags, frames, fill) && !InRange((t, v), s, first, |frames|)
    ensures var b := DoAlloc(a, s, first, flags, frames, fill);
            && ((t, v) in b.pt <==> (t, v) in a.pt) && ((t, v) in a.pt ==> b.pt[(t, v)] == a.pt[(t, v)])
            && (Writable(b, t, v) <==> Writable(a, t, v))
  {
    hide Exact, OnePage, Exclusive, Bits;
    var b, r := DoAlloc(a, s, first, flags, frames, fill), Region(first, |frames|, flags + {Used});
    AllocKeeps(a, s, first, flags, frames, fill);
    MapRangeAt(a.pt, s, first, flags, frames, (t, v));
    FramesThere(a, t, v);
    if t == s {
      SpaceSorted(b, s);
      InsertCovered(a.spaces[s].regions, r, v);
      if Covered(b.spaces[s].regions, v) {
        InsertFinds(a.spaces[s].regions, r, v);
      }
    }
    hide Inv, Insert, DoAlloc;
    WritableAlike(a, b, t, v);
  }

  /** An allocation grants on its pages exactly what its flags ask for, and changes no other right. */
  lemma AllocGrants(a: State, s: nat, first: nat, flags: Flags, frames: seq<nat>, fill: seq<Page>, t: nat, v: nat,
      k: Access)
    requires Inv(a) && AllocOk(a, s, first, flags, frames, fill)
    ensures May(DoAlloc(a, s, first, flags, frames, fill), t, v, k)
            <==> if InRange((t, v), s, first, |frames|) then Asked(flags, k) else May(a, t, v, k)
  {
    hide Inv, AllocOk, DoAlloc, Writable;
    if InRange((t, v), s, first, |frames|) {
      AllocNew(a, s, first, flags, frames, fill, v);
    } else {
      AllocOld(a, s, first, flags, frames, fill, t, v);
    }
  }

  /** On the pages of a range programs have exactly the rights that `flags` ask for, both by the entries alone and with
      the help of faults. */
  ghost predicate Granted(a: State, s: nat, first: nat, n: nat, flags: Flags) {
    && (forall v: nat :: first <= v < first + n ==> (s, v) in a.pt)
    && (forall v: nat, k :: first <= v < first + n ==> (Passes(a.pt[(s, v)], k) <==> Asked(flags, k)))
    && (forall v: nat, k :: first <= v < first + n ==> (May(a, s, v, k) <==> Asked(flags, k)))
  }

  /** Outside a range no entry and no right changed. */
  ghost predicate RightsKept(a: State, b: State, s: nat, first: nat, n: nat) {
    && (forall x: Slot :: !InRange(x, s, first, n) ==>
          (x in a.pt <==> x in b.pt) && (x in a.pt ==> b.pt[x] == a.pt[x]))
    && (forall t: nat, v: nat, k :: !InRange((t, v), s, first, n) ==> (May(b, t, v, k) <==> May(a, t, v, k)))
  }

  lemma AllocGranted(a: State, s: nat, first: nat, flags: Flags, frames: seq<nat>, fill: seq<Page>)
    requires Inv(a) && AllocOk(a, s, first, flags, frames, fill)
    ensures Granted(DoAlloc(a, s, first, flags, frames, fill), s, first, |frames|, flags)
  {
    hide Inv, DoAlloc, May, Passes, Asked, Covered, NoDup;
    var b := DoAlloc(a, s, first, flags, frames, fill);
    forall v: nat, k: Access | first <= v < first + |frames|
      ensures (s, v) in b.pt && (Passes(b.pt[(s, v)], k) <==> Asked(flags, k)) && (May(b, s, v, k) <==> Asked(flags, k))
    {
      AllocGrantedAt(a, s, first, flags, frames, fill, v, k);
    }
    forall v: nat | first <= v < first + |frames|
      ensures (s, v) in b.pt
    {
      AllocGrantedAt(a, s, first, flags, frames, fill, v, Reading);
    }
  }

  lemma AllocGrantedAt(a: State, s: nat, first: nat, flags: Flags, frames: seq<nat>, fill: seq<Page>, v: nat, k: Access)
    requires Inv(a) && AllocOk(a, s, first, flags, frames, fill) && first <= v < first + |frames|
    ensures var b := DoAlloc(a, s, first, flags, frames, fill);
            && (s, v) in b.pt && (Passes(b.pt[(s, v)], k) <==> Asked(flags, k))
            && (May(b, s, v, k) <==> Asked(flags, k))
  {
    hide Inv, DoAlloc, AllocOk;
    AllocEntry(a, s, first, flags, frames, fill, v);
    AllocGrants(a, s, first, flags, frames, fill, s, v, k);
  }

  lemma AllocRightsKept(a: State, s: nat, first: nat, flags: Flags, frames: seq<nat>, fill: seq<Page>)
    requires Inv(a) && AllocOk(a, s, first, flags, frames, fill)
    ensures RightsKept(a, DoAlloc(a, s, first, flags, frames, fill), s, first, |frames|)
  {
    hide Inv, DoAlloc, May, Covered, NoDup;
    var b := DoAlloc(a, s, first, flags, frames, fill);
    forall x: Slot | !InRange(x, s, first, |frames|)
      ensures (x in a.pt <==> x in b.pt) && (x in a.pt ==> b.pt[x] == a.pt[x])
    {
      AllocOld(a, s, first, flags, frames, fill, x.0, x.1);
    }
    forall t: nat, v: nat, k: Access | !InRange((t, v), s, first, |frames|)
      ensures May(b, t, v, k) <==> May(a, t, v, k)
    {
      AllocGrants(a, s, first, flags, frames, fill, t, v, k);
    }
  }

  /** What other pages were granted they keep. */
  lemma GrantedStays(a: State, b: State, s: nat, first: nat, n: nat, at: nat, m: nat, flags: Flags)
    requires Granted(a, s, first, n, flags) && RightsKept(a, b, s, at, m)
    requires first + n <= at || at + m <= first
    ensures Granted(b, s, first, n, flags)
  {
    hide May, Passes, Asked;
    forall v: nat | first <= v < first + n
      ensures (s, v) in b.pt && b.pt[(s, v)] == a.pt[(s, v)]
    {
      assert !InRange((s, v), s, at, m);
    }
  }

  /** Bytes that change in place change no right. */
  lemma BytesKeepRights(a: State, b: State, s: nat, first: nat, n: nat)
    requires b == a.(pages := b.pages) && b.pages.Keys == a.pages.Keys
    ensures RightsKept(a, b, s, first, n)
    ensures forall at: nat, m: nat, flags :: Granted(a, s, at, m, flags) ==> Granted(b, s, at, m, flags)
  {
    assert forall t: nat, v: nat, k :: May(b, t, v, k) <==> May(a, t, v, k);
  }

  lemma RightsKeptThen(a: State, b: State, c: State, s: nat, first: nat, n: nat)
    requires RightsKept(a, b, s, first, n) && RightsKept(b, c, s, first, n)
    ensures RightsKept(a, c, s, first, n)
  {
    hide May;
  }

  /** Where the page of a space comes from in a clone. */
  function SourceSpace(t: nat, s: nat, d: nat): nat { if t == d then s else t }

  /** A clone gives the copy what the source had. In both every user page can be written afterwards, also one that could
      not before. */
  lemma CloneGrants(a: State, s: nat, d: nat, t: nat, v: nat, k: Access)
    requires Inv(a) && CloneOk(a, s, d)
    ensures var q := SourceSpace(t, s, d);
            May(DoClone(a, s, d), t, v, k)
            <==> May(a, q, v, k) || (k == Writing && q == s && May(a, s, v, Reading))
  {
    hide Exact, OnePage, Exclusive, Tiled, Bits, DoClone, Writable;
    CloneAt(a, s, d, (t, v));
    assert d !in a.spaces;
    if t == s || t == d {
      if (s, v) in a.pt {
        CloneBreakable(a, s, d, v);
        WritableBy(DoClone(a, s, d), t, v);
      }
    } else {
      CloneElsewhere(a, s, d, t, v);
    }
  }

  lemma WritableBy(b: State, t: nat, v: nat)
    requires Breakable(b, t, v)
    ensures Writable(b, t, v)
  {
  }

  lemma CloneElsewhere(a: State, s: nat, d: nat, t: nat, v: nat)
    requires Inv(a) && CloneOk(a, s, d) && t != s && t != d
    ensures Writable(DoClone(a, s, d), t, v) <==> Writable(a, t, v)
  {
    var b := DoClone(a, s, d);
    assert Base(a);
    CloneAt(a, s, d, (t, v));
    FramesThere(a, t, v);
    SameKeys(a, s, d);
    hide Inv, DoClone;
    WritableAlike(a, b, t, v);
  }

  lemma SameKeys(a: State, s: nat, d: nat)
    requires s in a.spaces
    ensures var b := DoClone(a, s, d);
            && b.rc.Keys == a.rc.Keys && b.pages == a.pages
            && forall t :: t != s && t != d ==> (t in b.spaces <==> t in a.spaces)
                                                && (t in a.spaces ==> b.spaces[t] == a.spaces[t])
  {
  }

  /** What a program could do before a clone, it can do after it, in both spaces, and nothing more: exactly if it could
      write every page it could read. */
  lemma CloneSafeIff(a: State, s: nat, d: nat)
    requires Inv(a) && CloneOk(a, s, d)
    ensures (forall t: nat, v: nat, k :: May(DoClone(a, s, d), t, v, k) <==> May(a, SourceSpace(t, s, d), v, k))
            <==> forall v: nat :: May(a, s, v, Reading) ==> May(a, s, v, Writing)
  {
    hide Inv, DoClone, May;
    forall t: nat, v: nat, k: Access
      ensures May(DoClone(a, s, d), t, v, k)
              <==> May(a, SourceSpace(t, s, d), v, k)
                   || (k == Writing && SourceSpace(t, s, d) == s && May(a, s, v, Reading))
    {
      CloneGrants(a, s, d, t, v, k);
    }
    forall v: nat | May(a, s, v, Reading) && !May(a, s, v, Writing)
      ensures !(May(DoClone(a, s, d), s, v, Writing) <==> May(a, SourceSpace(s, s, d), v, Writing))
    {
    }
  }

  /** A break keeps what can be read and executed; what can be written shrinks by the other pages of the region. */
  lemma BreakGrants(a: State, s: nat, v: nat, spare: nat, t: nat, w: nat, k: Access)
    requires Inv(a) && BreakOk(a, s, v, spare)
    ensures var sibling := t == s && w != v && a.spaces[s].regions[IndexOf(a.spaces[s].regions, v)].Covers(w);
            May(DoBreak(a, s, v, spare), t, w, k) <==> May(a, t, w, k) && !(k == Writing && sibling)
  {
    assert Base(a);
    hide Inv, Base, DoBreak, Writable, Breakable;
    WritableAfterBreak(a, s, v, spare, t, w);
    BreakBits(a, s, v, spare);
    if (t, w) != (s, v) {
      BreakElsewhere(a, s, v, spare, (t, w));
    }
    BreakIsWrite(a, s, v);
  }

  lemma BreakElsewhere(a: State, s: nat, v: nat, spare: nat, x: Slot)
    requires BreakOk(a, s, v, spare) && x != (s, v)
    ensures var b := DoBreak(a, s, v, spare); (x in b.pt <==> x in a.pt) && (x in a.pt ==> b.pt[x] == a.pt[x])
  {
  }

  lemma BreakIsWrite(a: State, s: nat, v: nat)
    requires Breakable(a, s, v)
    ensures Writable(a, s, v) && (s, v) in a.pt && a.pt[(s, v)].Entry?
  {
  }

  lemma BreakBits(a: State, s: nat, v: nat, spare: nat)
    requires Inv(a) && BreakOk(a, s, v, spare)
    ensures var b := DoBreak(a, s, v, spare);
            && b.pt.Keys == a.pt.Keys && b.pt[(s, v)].Entry?
            && b.pt[(s, v)].user == a.pt[(s, v)].user && b.pt[(s, v)].noExec == a.pt[(s, v)].noExec
  {
    hide DoBreak, Exact, OnePage, Exclusive, Tiled;
    BreakShape(a, s, v, spare);
    assert BitsSpace(a.spaces[s].regions, a.pt, s);
    BitsAt(a.spaces[s].regions, a.pt, s, v);
  }

  lemma BitsAt(rs: seq<Region>, pt: Mapping, s: nat, v: nat)
    requires BitsSpace(rs, pt, s) && Covered(rs, v) && (s, v) in pt
    ensures BitsMatch(pt[(s, v)], rs[IndexOf(rs, v)].flags)
  {
  }

  /** Freeing a region takes its pages away and no right on any other page. */
  lemma FreeGrants(a: State, s: nat, i: nat, t: nat, v: nat, k: Access)
    requires Inv(a) && s in a.spaces && i < |a.spaces[s].regions|
    ensures May(DoFree(a, s, i), t, v, k) <==> May(a, t, v, k) && !(t == s && a.spaces[s].regions[i].Covers(v))
  {
    hide Exact, OnePage, Exclusive, Bits;
    var b, r := DoFree(a, s, i), a.spaces[s].regions[i];
    UnmapAt(a.pt, s, r, (t, v));
    if !(t == s && r.Covers(v)) {
      FreeKeeps(a, s, i);
      FramesThere(a, t, v);
      FramesThere(b, t, v);
      if t == s {
        SpaceSorted(a, s);
        SpaceSorted(b, s);
        RemoveFinds(a.spaces[s].regions, i, v);
      }
      hide Inv, DoFree;
      WritableAlike(a, b, t, v);
    }
  }

  lemma RemoveFinds(rs: seq<Region>, i: nat, v: nat)
    requires Sorted(rs) && i < |rs| && !rs[i].Covers(v)
    ensures Covered(RemoveAt(rs, i), v) <==> Covered(rs, v)
    ensures Covered(rs, v) ==> RemoveAt(rs, i)[IndexOf(RemoveAt(rs, i), v)] == rs[IndexOf(rs, v)]
  {
    RemoveCovered(rs, i, v);
    if Covered(rs, v) {
      var j := IndexOf(RemoveAt(rs, i), v);
      RemoveIndex(rs, i, j);
      SameRegion(rs, if j < i then j else j + 1, IndexOf(rs, v), v);
    }
  }

  // ---------- over whole runs ----------

  /** What was asked for on each page: by its allocation, or by the allocation it was cloned from. */
  type Book = map<Slot, Flags>

  function Requested(s: nat, first: nat, n: nat, flags: Flags): Book {
    map v: nat | first <= v < first + n :: (s, v) := flags
  }

  function Inherited(book: Book, s: nat, d: nat): Book {
    map x | x in book && x.0 == s :: (d, x.1) := book[x]
  }

  function Note(book: Book, op: Op): Book {
    match op
    case Alloc(s, first, flags, frames, _) => book + Requested(s, first, |frames|, flags)
    case Clone(s, d) => book + Inherited(book, s, d)
    case Free(s, first, pages) => map x | x in book && !(x.0 == s && first <= x.1 < first + pages) :: book[x]
    case _ => book
  }

  function NoteAll(book: Book, ops: seq<Op>): Book
    decreases |ops|
  {
    if ops == [] then book else NoteAll(Note(book, ops[0]), ops[1..])
  }

  predicate Due(book: Book, x: Slot, k: Access) { x in book && Asked(book[x], k) }

  /** The program has this right exactly where it was asked for. */
  ghost predicate AsAsked(a: State, book: Book, k: Access) {
    forall s: nat, v: nat :: May(a, s, v, k) <==> Due(book, (s, v), k)
  }

  lemma NoteAt(book: Book, op: Op, x: Slot, k: Access)
    ensures match op
            case Alloc(s, first, flags, frames, _) =>
              Due(Note(book, op), x, k)
              <==> if InRange(x, s, first, |frames|) then Asked(flags, k) else Due(book, x, k)
            case Clone(s, d) =>
              Due(Note(book, op), x, k)
              <==> if x.0 == d && (s, x.1) in book then Due(book, (s, x.1), k) else Due(book, x, k)
            case Free(s, first, pages) => Due(Note(book, op), x, k) <==> Due(book, x, k) && !InRange(x, s, first, pages)
            case _ => Note(book, op) == book
  {
    if op.Alloc? && InRange(x, op.s, op.first, |op.frames|) {
      assert x == (op.s, x.1);
      assert x in Requested(op.s, op.first, |op.frames|, op.flags);
    }
    if op.Clone? && x.0 == op.d && (op.s, x.1) in book {
      assert x == (op.d, (op.s, x.1).1);
      assert x in Inherited(book, op.s, op.d);
    }
  }

  /** No region is copy-on-write. */
  predicate NothingShared(a: State) {
    forall s :: s in a.spaces ==> forall r :: r in a.spaces[s].regions ==> Cow !in r.flags
  }

  lemma StoreGrants(a: State, s: nat, v: nat, off: nat, byte: Byte, t: nat, w: nat, k: Access)
    requires Storable(a, s, v) && off < PAGE_SIZE
    ensures May(DoStore(a, s, v, off, byte), t, w, k) <==> May(a, t, w, k)
  {
  }

  lemma NoneBreakable(a: State, s: nat, v: nat)
    requires NothingShared(a)
    ensures !Breakable(a, s, v)
  {
  }

  lemma WriteGrants(a: State, s: nat, v: nat, off: nat, byte: Byte, spare: nat, t: nat, w: nat, k: Access)
    requires Inv(a) && Writable(a, s, v) && off < PAGE_SIZE && spare !in a.rc && (k == Writing ==> NothingShared(a))
    ensures May(DoWrite(a, s, v, off, byte, spare), t, w, k) <==> May(a, t, w, k)
  {
    if k == Writing {
      NoneBreakable(a, s, v);
    }
    if Storable(a, s, v) {
      StoreGrants(a, s, v, off, byte, t, w, k);
    } else {
      assert Base(a);
      hide Inv, Base, DoBreak, May, DoStore;
      BreakThenStore(a, s, v, spare);
      BreakGrants(a, s, v, spare, t, w, k);
      StoreGrants(DoBreak(a, s, v, spare), s, v, off, byte, t, w, k);
    }
  }

  /** Creating or retiring a space without pages gives and takes nothing. */
  lemma SpaceGrants(a: State, op: Op, t: nat, w: nat, k: Access)
    requires Inv(a) && Enabled(a, op) && (op.Create? || op.Retire?)
    ensures May(Apply(a, op), t, w, k) <==> May(a, t, w, k)
  {
    hide Exact, OnePage, Exclusive, Bits;
    FramesThere(a, t, w);
    if op.Retire? {
      assert TiledSpace(a.spaces[op.s], a.pt, op.s);
      NoPages(a.spaces[op.s], a.pt, op.s);
    }
    assert t == op.s ==> (t, w) !in a.pt;
    hide Inv, Enabled;
    SameRights(a, Apply(a, op), t, w, k);
  }

  lemma SameRights(a: State, b: State, t: nat, w: nat, k: Access)
    requires b.pt == a.pt && b.rc == a.rc && b.pages == a.pages
    requires (t, w) in a.pt ==> t in a.spaces && t in b.spaces && b.spaces[t] == a.spaces[t]
    ensures May(b, t, w, k) <==> May(a, t, w, k)
  {
  }

  lemma StepAt(a: State, op: Op, book: Book, k: Access, t: nat, v: nat)
    requires Inv(a) && Enabled(a, op) && AsAsked(a, book, k) && (k == Writing ==> NothingShared(a) && !op.Clone?)
    ensures May(Apply(a, op), t, v, k) <==> Due(Note(book, op), (t, v), k)
  {
    NoteAt(book, op, (t, v), k);
    assert May(a, t, v, k) <==> Due(book, (t, v), k);
    hide Inv, May, AllocOk, DoAlloc, DoClone, DoWrite, DoFree, Due, Note, NothingShared;
    match op
    case Alloc(s, first, flags, frames, fill) =>
      AllocGrants(a, s, first, flags, frames, fill, t, v, k);
    case Clone(s, d) =>
      CloneDue(a, book, s, d, t, v, k);
    case Write(s, w, off, byte, spare) =>
      WriteGrants(a, s, w, off, byte, spare, t, v, k);
    case Free(s, first, pages) =>
      FreeGrants(a, s, FindBase(a.spaces[s].regions, first).value, t, v, k);
    case _ =>
      SpaceGrants(a, op, t, v, k);
  }

  lemma CloneDue(a: State, book: Book, s: nat, d: nat, t: nat, v: nat, k: Access)
    requires Inv(a) && CloneOk(a, s, d) && AsAsked(a, book, k) && k != Writing
    ensures May(DoClone(a, s, d), t, v, k)
            <==> if t == d && (s, v) in book then Due(book, (s, v), k) else Due(book, (t, v), k)
  {
    CloneGrants(a, s, d, t, v, k);
    NoRights(a, d, v, k);
    assert May(a, s, v, k) <==> Due(book, (s, v), k);
    assert May(a, t, v, k) <==> Due(book, (t, v), k);
  }

  lemma NoRights(a: State, d: nat, v: nat, k: Access)
    requires Inv(a) && d !in a.spaces
    ensures !May(a, d, v, k)
  {
    FramesThere(a, d, v);
  }

  lemma StillUnshared(a: State, op: Op)
    requires Enabled(a, op) && NothingShared(a) && !op.Clone?
    ensures NothingShared(Apply(a, op))
  {
    var b := Apply(a, op);
    match op
    case Alloc(s, first, flags, frames, fill) =>
      forall r | r in b.spaces[s].regions
        ensures Cow !in r.flags
      {
        var i: nat :| i < |b.spaces[s].regions| && b.spaces[s].regions[i] == r;
        InsertIndex(a.spaces[s].regions, Region(first, |frames|, flags + {Used}), i);
      }
    case Write(s, v, off, byte, spare) =>
      NoneBreakable(a, s, v);
    case _ =>
  }

  lemma {:induction false} AsAskedFrom(a: State, ops: seq<Op>, book: Book, k: Access)
    requires Inv(a) && Legal(a, ops) && AsAsked(a, book, k)
    requires k == Writing ==> NothingShared(a) && forall op :: op in ops ==> !op.Clone?
    ensures AsAsked(Run(a, ops), NoteAll(book, ops), k)
    decreases |ops|
  {
    hide Inv, AsAsked, Enabled, Guarded, Apply, NothingShared, Note;
    if ops != [] {
      var b := Apply(a, ops[0]);
      Simulation(a, ops[0]);
      StepAsAsked(a, ops[0], book, k);
      if k == Writing {
        assert ops[0] in ops && forall op :: op in ops[1..] ==> op in ops;
        StillUnshared(a, ops[0]);
      }
      AsAskedFrom(b, ops[1..], Note(book, ops[0]), k);
    }
  }

  lemma StepAsAsked(a: State, op: Op, book: Book, k: Access)
    requires Inv(a) && Enabled(a, op) && AsAsked(a, book, k) && (k == Writing ==> NothingShared(a) && !op.Clone?)
    ensures AsAsked(Apply(a, op), Note(book, op), k)
  {
    forall t: nat, v: nat
      ensures May(Apply(a, op), t, v, k) <==> Due(Note(book, op), (t, v), k)
    {
      StepAt(a, op, book, k, t, v);
    }
  }

  /** Over every run from boot a program can read and execute exactly the pages it, or the space it was cloned from,
      asked for as readable and executable. The same holds of writing as long as nothing is cloned. */
  lemma RightsAreAsAsked(ops: seq<Op>, k: Access)
    requires Legal(EMPTY, ops) && (k == Writing ==> forall op :: op in ops ==> !op.Clone?)
    ensures AsAsked(Run(EMPTY, ops), NoteAll(map[], ops), k)
  {
    assert Inv(EMPTY);
    AsAskedFrom(EMPTY, ops, map[], k);
  }

  /** A space with a page asked for read-only. */
  ghost function TextState(): State {
    DoAlloc(DoCreate(EMPTY, 1), 1, 1, {User, Read}, [10], [BlankPage()])
  }

  lemma TextInv()
    ensures AllocOk(DoCreate(EMPTY, 1), 1, 1, {User, Read}, [10], [BlankPage()]) && Inv(DoCreate(EMPTY, 1))
    ensures Inv(TextState()) && May(TextState(), 1, 1, Reading)
    ensures CloneOk(TextState(), 1, 2) && CloneGuard(TextState(), 1)
  {
    var a := DoCreate(EMPTY, 1);
    assert Inv(EMPTY);
    CreateKeeps(EMPTY, 1);
    assert AllocOk(a, 1, 1, {User, Read}, [10], [BlankPage()]);
    AllocKeeps(a, 1, 1, {User, Read}, [10], [BlankPage()]);
    hide Inv;
    ReadOnlyPage(a, {User, Read}, [10], [BlankPage()]);
  }

  lemma ReadOnlyPage(a: State, flags: Flags, frames: seq<nat>, fill: seq<Page>)
    requires a == DoCreate(EMPTY, 1) && flags == {User, Read} && frames == [10] && fill == [BlankPage()]
    requires Inv(a) && AllocOk(a, 1, 1, flags, frames, fill)
    ensures var b := DoAlloc(a, 1, 1, flags, frames, fill);
            May(b, 1, 1, Reading) && CloneOk(b, 1, 2) && CloneGuard(b, 1)
  {
    AllocGrants(a, 1, 1, flags, frames, fill, 1, 1, Reading);
    assert forall f :: f in DoAlloc(a, 1, 1, flags, frames, fill).rc ==> f in frames;
  }

  /** A page that was asked for read-only, and that a clone makes writable: create, map, clone. */
  lemma CloneGainsWriting() returns (ops: seq<Op>)
    ensures Legal(EMPTY, ops) && May(Run(EMPTY, ops), 1, 1, Writing) && May(Run(EMPTY, ops), 2, 1, Writing)
    ensures Due(NoteAll(map[], ops), (1, 1), Reading) && !Due(NoteAll(map[], ops), (1, 1), Writing)
  {
    hide Inv, DoClone, DoAlloc, CloneGuard, AllocOk, May, Due, NoteAll, TextState;
    TextInv();
    var b, c := TextState(), DoClone(TextState(), 1, 2);
    CloneGrants(b, 1, 2, 1, 1, Writing);
    CloneGrants(b, 1, 2, 2, 1, Writing);
    var alloc := Alloc(1, 1, {User, Read}, [10], [BlankPage()]);
    ops := [Create(1)] + ([alloc] + ([Clone(1, 2)] + []));
    TextRun(b, c, alloc);
    ReadOnlyNoted(ops, alloc);
  }

  lemma TextRun(b: State, c: State, alloc: Op)
    requires alloc == Alloc(1, 1, {User, Read}, [10], [BlankPage()])
    requires b == TextState() && CloneOk(b, 1, 2) && CloneGuard(b, 1) && c == DoClone(b, 1, 2)
    requires AllocOk(DoCreate(EMPTY, 1), 1, 1, {User, Read}, [10], [BlankPage()])
    ensures var ops := [Create(1)] + ([alloc] + ([Clone(1, 2)] + [])); Legal(EMPTY, ops) && Run(EMPTY, ops) == c
  {
    hide DoClone, DoAlloc, CloneGuard, AllocOk;
    assert Legal(c, []) && Run(c, []) == c;
    LegalStep(b, Clone(1, 2), []);
    LegalStep(DoCreate(EMPTY, 1), alloc, [Clone(1, 2)] + []);
    LegalStep(EMPTY, Create(1), [alloc] + ([Clone(1, 2)] + []));
  }

  lemma NoteStep(book: Book, op: Op, rest: seq<Op>)
    ensures NoteAll(book, [op] + rest) == NoteAll(Note(book, op), rest)
  {
    assert ([op] + rest)[1..] == rest;
  }

  lemma ReadOnlyNoted(ops: seq<Op>, alloc: Op)
    requires alloc == Alloc(1, 1, {User, Read}, [10], [BlankPage()])
    requires ops == [Create(1)] + ([alloc] + ([Clone(1, 2)] + []))
    ensures Due(NoteAll(map[], ops), (1, 1), Reading) && !Due(NoteAll(map[], ops), (1, 1), Writing)
  {
    hide Note;
    var book: Book := map[];
    var made := Note(Note(book, Create(1)), alloc);
    NoteStep(book, Create(1), [alloc] + ([Clone(1, 2)] + []));
    NoteStep(Note(book, Create(1)), alloc, [Clone(1, 2)] + []);
    NoteStep(made, Clone(1, 2), []);
    NoteAt(Note(book, Create(1)), alloc, (1, 1), Reading);
    NoteAt(Note(book, Create(1)), alloc, (1, 1), Writing);
    NoteAt(made, Clone(1, 2), (1, 1), Reading);
    NoteAt(made, Clone(1, 2), (1, 1), Writing);
  }
}
