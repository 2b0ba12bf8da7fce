/** The physical frame allocator: one bit per frame packed into bytes, and a share count per frame. */
module PhysMem {
  import opened Layout

  /** `1 << (idx & 7)`. */
  function Mask(i: nat): (m: bv8)
    requires i < 8
  {
    if i < 4 then (if i < 2 then (if i == 0 then 1 else 2) else (if i == 2 then 4 else 8))
    else (if i < 6 then (if i == 4 then 16 else 32) else (if i == 6 then 64 else 128))
  }

  /** `(byte >> (idx & 7)) & 1`. */
  predicate Bit(b: bv8, i: nat)
    requires i < 8
  {
    b & Mask(i) != 0
  }

  lemma SetBit(b: bv8, i: nat, j: nat)
    requires i < 8 && j < 8
    ensures Bit(b | Mask(i), j) <==> i == j || Bit(b, j)
  {
    MaskMeet(i, j);
    var m, n := Mask(i), Mask(j);
    assert (b | m) & n == (b & n) | (m & n);
    assert m & n != 0 ==> (b & n) | (m & n) != 0;
  }

  lemma ClearBit(b: bv8, i: nat, j: nat)
    requires i < 8 && j < 8
    ensures Bit(b & !Mask(i), j) <==> i != j && Bit(b, j)
  {
    MaskMeet(i, j);
    var m, n := Mask(i), Mask(j);
    if i == j {
      assert (b & !n) & n == 0;
    } else {
      assert m & n == 0 ==> (b & !m) & n == b & n;
    }
  }

  lemma MaskMeet(i: nat, j: nat)
    requires i < 8 && j < 8
    ensures Mask(i) & Mask(j) != 0 <==> i == j
  {
  }

  predicate Within(i: nat, first: nat, n: nat) {
    first <= i < first + n
  }

  /** The frames `first .. first + n`. */
  function Frames(first: nat, n: nat): set<nat> {
    set i: nat | i < first + n && Within(i, first, n)
  }

  /** `n` consecutive free frames start at `s`. */
  predicate RunAt(free: set<nat>, s: nat, n: nat) {
    forall i :: s <= i < s + n ==> i in free
  }

  ghost predicate LowestRun(free: set<nat>, s: nat, n: nat) {
    RunAt(free, s, n) && forall t: nat :: t < s ==> !RunAt(free, t, n)
  }

  /** A frame that is taken ends every run across it. */
  lemma NoRunAcross(free: set<nat>, t: nat, n: nat, i: nat)
    requires t <= i < t + n && i !in free
    ensures !RunAt(free, t, n)
  {
  }

  /** Runs of one frame are the free frames. */
  lemma OneFrameRuns(free: set<nat>)
    requires forall t: nat :: !RunAt(free, t, 1)
    ensures free == {}
  {
    if free != {} {
      var f :| f in free;
      assert RunAt(free, f, 1);
    }
  }

  lemma RunStart(free: set<nat>, g: nat)
    requires LowestRun(free, g, 1)
    ensures g in free
  {
  }

  class FrameAllocator {
    const total: nat
    const bitmap: array<bv8>
    const rc: array<Counter>

    ghost predicate Valid() {
      total <= U64 / PAGE_SIZE && bitmap.Length == (total + 7) / 8 && rc.Length == total && rc as object != bitmap
    }

    /** Every bit set: nothing is free until the memory map says so. */
    constructor (frames: nat)
      requires frames <= U64 / PAGE_SIZE
      ensures Valid() && total == frames && fresh(bitmap) && fresh(rc)
      ensures Free() == {}
    {
      total := frames;
      bitmap := new bv8[(frames + 7) / 8](_ => 255);
      rc := new Counter[frames](_ => 0);
      new;
      assert forall i :: 0 <= i < total ==> Bit(255, i % 8);
    }

    predicate IsFree(i: nat)
      requires Valid() && i < total
      reads bitmap
    {
      !Bit(bitmap[i / 8], i % 8)
    }

    ghost function Free(): (r: set<nat>)
      requires Valid()
      reads bitmap
      ensures forall i :: i in r ==> i < total
    {
      set i: nat | i < total && IsFree(i)
    }

    /** How many frames a call reaches: none if the 64-bit end of the range wraps. */
    static function Extent(first: nat, n: nat): (m: nat)
      requires first < U64 && n < U64
      ensures (first + n) % U64 == first + m || (m == 0 && (first + n) % U64 < first)
    {
      if first + n < U64 then n else 0
    }

    function Managed(first: nat, n: nat): set<nat> {
      set i: nat | i < total && Within(i, first, n)
    }

    /** `bitmap_set` and the count of the frame. */
    method SetUsed(i: nat)
      requires Valid() && i < total
      modifies bitmap, rc
      ensures Free() == old(Free()) - {i}
      ensures rc[..] == old(rc[..])[i := 1]
    {
      bitmap[i / 8] := bitmap[i / 8] | Mask(i % 8);
      rc[i] := 1;
      forall j: nat | j < total
        ensures IsFree(j) <==> old(IsFree(j)) && j != i
      {
        assert i == 8 * (i / 8) + i % 8 && j == 8 * (j / 8) + j % 8;
        SetBit(old(bitmap[i / 8]), i % 8, j % 8);
        if j / 8 != i / 8 {
          assert bitmap[j / 8] == old(bitmap[j / 8]);
        }
      }
    }

    method SetFree(i: nat)
      requires Valid() && i < total
      modifies bitmap, rc
      ensures Free() == old(Free()) + {i}
      ensures rc[..] == old(rc[..])[i := 0]
    {
      bitmap[i / 8] := bitmap[i / 8] & !Mask(i % 8);
      rc[i] := 0;
      forall j: nat | j < total
        ensures IsFree(j) <==> old(IsFree(j)) || j == i
      {
        assert i == 8 * (i / 8) + i % 8 && j == 8 * (j / 8) + j % 8;
        ClearBit(old(bitmap[i / 8]), i % 8, j % 8);
        if j / 8 != i / 8 {
          assert bitmap[j / 8] == old(bitmap[j / 8]);
        }
      }
    }

    /** `physmem_addr_mark_used`: clamped to the managed frames. */
    method MarkUsed(first: nat, n: nat)
      requires Valid() && first < U64 && n < U64
      modifies bitmap, rc
      ensures Free() == old(Free()) - Frames(first, Extent(first, n))
      ensures forall i :: 0 <= i < total ==> rc[i] == if first <= i < first + Extent(first, n) then 1 else old(rc[i])
    {
      var last := (first + n) % U64;
      if last > total {
        last := total;
      }
      var f := first;
      while f < last
        invariant first <= f && (f <= last || f == first)
        invariant Free() == old(Free()) - Frames(first, f - first)
        invariant forall i :: 0 <= i < total ==> rc[i] == if first <= i < f then 1 else old(rc[i])
      {
        label L:
        SetUsed(f);
        assert forall i :: 0 <= i < total ==> rc[i] == rc[..][i] && old@L(rc[i]) == old@L(rc[..])[i];
        f := f + 1;
        assert Frames(first, f - first) == Frames(first, f - 1 - first) + {f - 1};
      }
    }

    /** `physmem_addr_mark_free`. */
    method MarkFree(first: nat, n: nat)
      requires Valid() && first < U64 && n < U64
      modifies bitmap, rc
      ensures Free() == old(Free()) + Managed(first, Extent(first, n))
      ensures forall i :: 0 <= i < total ==> rc[i] == if first <= i < first + Extent(first, n) then 0 else old(rc[i])
    {
      var last := (first + n) % U64;
      if last > total {
        last := total;
      }
      var f := first;
      while f < last
        invariant first <= f && (f <= last || f == first)
        invariant Free() == old(Free()) + Managed(first, f - first)
        invariant forall i :: 0 <= i < total ==> rc[i] == if first <= i < f then 0 else old(rc[i])
      {
        label L:
        SetFree(f);
        assert forall i :: 0 <= i < total ==> rc[i] == rc[..][i] && old@L(rc[i]) == old@L(rc[..])[i];
        f := f + 1;
        assert Managed(first, f - first) == Managed(first, f - 1 - first) + {f - 1};
      }
    }

    /** The scan of `physmem_alloc_to`: the first frame of the lowest run of `count` free ones. */
    method FindRun(count: nat) returns (r: Option<nat>)
      requires Valid() && count > 0
      ensures r.Some? ==> LowestRun(Free(), r.value, count) && r.value + count <= total
      ensures r.None? ==> forall t: nat :: !RunAt(Free(), t, count)
    {
      var consecutive, start, frame := 0, 0, 0;
      ghost var free := Free();
      while frame < total
        invariant frame <= total && consecutive < count && consecutive <= frame
        invariant consecutive > 0 ==> start == frame - consecutive
        invariant forall i :: frame - consecutive <= i < frame ==> i in free
        invariant forall t: nat :: t + count <= frame ==> !RunAt(free, t, count)
        invariant consecutive < frame ==> frame - consecutive - 1 !in free
      {
        if IsFree(frame) {
          if consecutive == 0 {
            start := frame;
          }
          consecutive := consecutive + 1;
          if consecutive >= count {
            assert RunAt(free, start, count);
            return Some(start);
          }
          forall t: nat | t + count <= frame + 1
            ensures !RunAt(free, t, count)
          {
            if t + count == frame + 1 {
              NoRunAcross(free, t, count, frame - consecutive);
            }
          }
        } else {
          consecutive := 0;
          forall t: nat | t + count <= frame + 1
            ensures !RunAt(free, t, count)
          {
            if t + count == frame + 1 {
              NoRunAcross(free, t, count, frame);
            }
          }
        }
        frame := frame + 1;
      }
      forall t: nat
        ensures !RunAt(free, t, count)
      {
        if t + count > total {
          NoRunAcross(free, t, count, t + count - 1);
        }
      }
      r := None;
    }

    /** `physmem_alloc_to`: the address of the lowest run, which it marks; 0 when there is none. */
    method AllocTo(count: nat) returns (addr: nat)
      requires Valid()
      modifies bitmap, rc
      ensures addr % PAGE_SIZE == 0
      ensures addr != 0 ==> count > 0 && Taken(old(Free()), old(rc[..]), addr / PAGE_SIZE, count)
      ensures addr != 0 ==> |Free()| == |old(Free())| - count
      ensures addr == 0 ==>
                (Free() == old(Free()) && rc[..] == old(rc[..]))
                || (count > 0 && Taken(old(Free()), old(rc[..]), 0, count))
      ensures 0 !in old(Free()) && count > 0 ==> (addr == 0 <==> forall t: nat :: !RunAt(old(Free()), t, count))
      ensures 0 !in old(Free()) && addr == 0 ==> Free() == old(Free()) && rc[..] == old(rc[..])
    {
      if count == 0 {
        return 0;
      }
      var r := FindRun(count);
      if r.None? {
        return 0;
      }
      TakenCount(Free(), r.value, count);
      MarkUsed(r.value, count);
      addr := r.value * PAGE_SIZE;
    }

    /** The lowest run of the old free set is taken: exactly its frames are marked, each with count 1. */
    ghost predicate Taken(free: set<nat>, counts: seq<Counter>, first: nat, n: nat)
      requires Valid() && |counts| == total
      reads bitmap, rc
    {
      && LowestRun(free, first, n) && first + n <= total
      && Free() == free - Frames(first, n)
      && forall i :: 0 <= i < total ==> rc[i] == if first <= i < first + n then 1 else counts[i]
    }

    /** `physmem_free_to`. */
    method FreeTo(addr: nat, count: nat)
      requires Valid() && addr < U64 && count < U64
      modifies bitmap, rc
      ensures Free() == old(Free()) + Managed(addr / PAGE_SIZE, Extent(addr / PAGE_SIZE, count))
      ensures forall i :: 0 <= i < total ==>
                rc[i] == if addr / PAGE_SIZE <= i < addr / PAGE_SIZE + Extent(addr / PAGE_SIZE, count) then 0
                    else old(rc[i])
    {
      if count == 0 {
        assert Managed(addr / PAGE_SIZE, count) == {};
        return;
      }
      MarkFree(addr / PAGE_SIZE, count);
    }

    ghost function FreeBelow(n: nat): set<nat>
      requires Valid() && n <= total
      reads bitmap
    {
      set i: nat | i < n && IsFree(i)
    }

    /** `physmem_free_get`: the number of clear bits. */
    method FreeGet() returns (count: nat)
      requires Valid()
      ensures count == |Free()|
    {
      count := 0;
      var frame := 0;
      assert FreeBelow(0) == {};
      while frame < total
        invariant frame <= total
        invariant count == |FreeBelow(frame)|
      {
        ghost var seen, next := FreeBelow(frame), FreeBelow(frame + 1);
        if IsFree(frame) {
          assert next == seen + {frame};
          count := count + 1;
        } else {
          assert next == seen;
        }
        frame := frame + 1;
      }
      assert FreeBelow(total) == Free();
    }

    /** `physmem_frame_rc_inc`: a 32-bit count. */
    method RcInc(addr: nat)
      requires Valid()
      modifies rc
      ensures forall i :: 0 <= i < total ==>
                rc[i] == if i == addr / PAGE_SIZE then (old(rc[i]) + 1) % U32 else old(rc[i])
    {
      var frame := addr / PAGE_SIZE;
      if frame >= total {
        return;
      }
      rc[frame] := (rc[frame] + 1) % U32;
    }

    /** `physmem_frame_rc_dec_and_get`: stops at 0. */
    method RcDecAndGet(addr: nat) returns (left: nat)
      requires Valid()
      modifies rc
      ensures forall i :: 0 <= i < total ==>
                rc[i] == if i == addr / PAGE_SIZE && old(rc[i]) > 0 then old(rc[i]) - 1 else old(rc[i])
      ensures left == if addr / PAGE_SIZE < total then rc[addr / PAGE_SIZE] else 0
    {
      var frame := addr / PAGE_SIZE;
      if frame >= total {
        return 0;
      }
      if rc[frame] > 0 {
        rc[frame] := rc[frame] - 1;
      }
      left := rc[frame];
    }
  }

  /** Taking a run of `n` free frames lowers the number of free frames by exactly `n`. */
  lemma {:induction false} TakenCount(free: set<nat>, first: nat, n: nat)
    requires RunAt(free, first, n)
    ensures |free - Frames(first, n)| == |free| - n
    decreases n
  {
    if n == 0 {
      assert free - Frames(first, 0) == free;
    } else {
      TakenCount(free, first, n - 1);
      assert first + n - 1 in free - Frames(first, n - 1);
      assert free - Frames(first, n) == free - Frames(first, n - 1) - {first + n - 1};
    }
  }
}
