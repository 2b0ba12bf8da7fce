/** The installer's one-block write-back cache over a block device, with its undo log of 256 entries. */
module BlockCache {
  import opened Layout
  import opened UndoLog

  const LOG_MAX: nat := 256
  /** `(uint64_t)-1`: no block is cached. */
  const NO_BLOCK: nat := U64 - 1

  datatype Request = ReadReq(loc: nat, count: nat) | WriteReq(loc: nat, bytes: seq<Byte>)

  /** Where block `b` starts. */
  function Start(b: nat, size: nat): nat { b * size }

  lemma StartFits(b: nat, blocks: nat, size: nat)
    requires b < blocks
    ensures Start(b, size) + size <= Start(blocks, size)
  {
    var rest := blocks - b - 1;
    assert blocks * size == b * size + size + rest * size;
    assert rest * size >= 0;
  }

  /** Byte `x` lies at offset `x % size` of block `x / size`. */
  lemma BlockOf(x: nat, blocks: nat, size: nat)
    requires size > 0
    ensures Start(x / size, size) + x % size == x && x % size < size
    ensures x / size < blocks <==> x < Start(blocks, size)
  {
    var b := x / size;
    if b < blocks {
      StartFits(b, blocks, size);
    } else {
      assert b * size == blocks * size + (b - blocks) * size;
      assert (b - blocks) * size >= 0;
    }
  }

  class Device {
    const blockSize: nat
    const blocks: nat
    const disk: array<Byte>
    const cache: array<Byte>
    var dirty: bool
    var cached: nat
    const log: array<Saved>
    const reversed: array<Saved>
    var logged: nat
    var uninstalling: bool

    ghost predicate Valid()
      reads this, disk, cache
    {
      && 0 < blockSize && blocks < NO_BLOCK && disk.Length == Start(blocks, blockSize) && cache.Length == blockSize
      && log.Length == reversed.Length == LOG_MAX && logged <= LOG_MAX && disk != cache && log != reversed
      && (cached != NO_BLOCK ==> cached < blocks && Start(cached, blockSize) + blockSize <= disk.Length)
      && (dirty ==> cached != NO_BLOCK)
      && (!dirty && cached != NO_BLOCK ==>
         disk[Start(cached, blockSize)..Start(cached, blockSize) + blockSize] == cache[..])
    }

    /** The flat contents: the disk with the cached block laid over it. */
    ghost function View(): (v: Disk)
      requires Valid()
      reads this, disk, cache
      ensures |v| == disk.Length
    {
      if cached == NO_BLOCK then disk[..] else Overwrite(disk[..], Start(cached, blockSize), cache[..])
    }

    lemma CleanView()
      requires Valid() && !dirty
      ensures View() == disk[..]
    {
      hide Start;
      if cached != NO_BLOCK {
        OverwriteSame(disk[..], Start(cached, blockSize), cache[..]);
      }
    }

    /** `device_init` has found the block size and read block 0. */
    constructor (contents: Disk, size: nat, count: nat)
      requires size > 0 && 0 < count < NO_BLOCK && |contents| == Start(count, size)
      ensures Valid() && fresh(disk) && fresh(cache) && fresh(log) && fresh(reversed)
      ensures View() == disk[..] == contents && logged == 0 && !uninstalling
    {
      StartFits(0, count, size);
      blockSize, blocks := size, count;
      disk := new Byte[|contents|](i requires 0 <= i < |contents| => contents[i]);
      cache := new Byte[size](i requires 0 <= i < size => contents[i]);
      log := new Saved[LOG_MAX](_ => Saved([], 0));
      reversed := new Saved[LOG_MAX](_ => Saved([], 0));
      dirty, cached, logged, uninstalling := false, 0, 0, false;
      new;
      assert Start(0, size) == 0;
      assert disk[..] == contents;
      assert disk[0..size] == cache[..];
      CleanView();
    }

    /** `device_flush_cache`. */
    method Flush()
      requires Valid()
      modifies this`dirty, disk
      ensures Valid() && !dirty && View() == old(View()) && disk[..] == old(View())
    {
      hide Start;
      if !dirty {
        CleanView();
        return;
      }
      var at := Start(cached, blockSize);
      forall k | 0 <= k < blockSize {
        disk[at + k] := cache[k];
      }
      dirty := false;
      assert disk[at..at + blockSize] == cache[..];
      CleanView();
      assert disk[..] == old(View());
    }

    /** `device_cache_block`: fails past the end of the device. */
    method CacheBlock(b: nat) returns (ok: bool)
      requires Valid() && b < NO_BLOCK
      modifies this`dirty, this`cached, disk, cache
      ensures Valid() && View() == old(View()) && (ok <==> b < blocks) && (ok ==> cached == b)
      ensures disk[..] == old(disk[..]) || disk[..] == old(View())
    {
      hide Start, Overwrite;
      if cached == b {
        return true;
      }
      if dirty {
        Flush();
      }
      CleanView();
      if b >= blocks {
        return false;
      }
      StartFits(b, blocks, blockSize);
      var at := Start(b, blockSize);
      forall k | 0 <= k < blockSize {
        cache[k] := disk[at + k];
      }
      cached := b;
      assert forall k: nat :: k < blockSize ==> cache[k] == disk[at + k];
      assert disk[at..at + blockSize] == cache[..];
      CleanView();
      return true;
    }

    /** Whether a transfer stays on the device. */
    predicate OnDevice(loc: nat, count: nat) {
      count == 0 || loc + count <= disk.Length
    }

    /** One turn of the loop in `_device_read`: as much as the block of byte `x` holds of the next `want` bytes. */
    method Fetch(x: nat, want: nat) returns (ok: bool, piece: seq<Byte>)
      requires Valid() && x + want < NO_BLOCK && want > 0
      modifies this`dirty, this`cached, disk, cache
      ensures Valid() && View() == old(View()) && (ok <==> x < disk.Length)
      ensures disk[..] == old(disk[..]) || disk[..] == old(View())
      ensures ok ==> 0 < |piece| <= want && x + |piece| <= disk.Length && piece == View()[x..x + |piece|]
    {
      hide Start, Overwrite, View;
      BlockOf(x, blocks, blockSize);
      ok := CacheBlock(x / blockSize);
      if !ok {
        return false, [];
      }
      var offset := x % blockSize;
      var chunk := if want > blockSize - offset then blockSize - offset else want;
      CachedPart(offset, chunk);
      piece := cache[offset..offset + chunk];
    }

    /** `_device_read`: what a flat array would return. */
    method Read(loc: nat, count: nat) returns (ok: bool, buffer: seq<Byte>)
      requires Valid() && loc + count < NO_BLOCK
      modifies this`dirty, this`cached, disk, cache
      ensures Valid() && View() == old(View()) && (ok <==> OnDevice(loc, count))
      ensures disk[..] == old(disk[..]) || disk[..] == old(View())
      ensures ok ==> buffer == if count == 0 then [] else View()[loc..loc + count]
    {
      hide Start, Overwrite, View;
      buffer := [];
      while |buffer| < count
        invariant Valid() && View() == old(View()) && |buffer| <= count
        invariant disk[..] == old(disk[..]) || disk[..] == old(View())
        invariant |buffer| > 0 ==> loc + |buffer| <= disk.Length && buffer == View()[loc..loc + |buffer|]
        decreases count - |buffer|
      {
        var got, piece := Fetch(loc + |buffer|, count - |buffer|);
        if !got {
          return false, buffer;
        }
        Append(View(), loc, |buffer|, |piece|);
        buffer := buffer + piece;
      }
      ok := true;
    }

    lemma Append(v: Disk, loc: nat, n: nat, more: nat)
      requires loc + n + more <= |v|
      ensures v[loc..loc + n] + v[loc + n..loc + n + more] == v[loc..loc + n + more]
    {
    }

    /** Bytes of the cached block are bytes of the view. */
    lemma CachedPart(offset: nat, chunk: nat)
      requires Valid() && cached != NO_BLOCK && offset + chunk <= blockSize
      ensures Start(cached, blockSize) + offset + chunk <= disk.Length
      ensures cache[offset..offset + chunk]
              == View()[Start(cached, blockSize) + offset..Start(cached, blockSize) + offset + chunk]
    {
      hide Start;
      OverwritePart(disk[..], Start(cached, blockSize), cache[..], offset, chunk);
    }

    /** The copy into the cached block. */
    method Patch(offset: nat, bytes: seq<Byte>)
      requires Valid() && cached != NO_BLOCK && offset + |bytes| <= blockSize
      modifies this`dirty, cache
      ensures Valid() && Start(cached, blockSize) + offset + |bytes| <= disk.Length
      ensures View() == Overwrite(old(View()), Start(cached, blockSize) + offset, bytes)
    {
      hide Start;
      forall k | 0 <= k < |bytes| {
        cache[offset + k] := bytes[k];
      }
      dirty := true;
    }

    lemma Nothing(bytes: seq<Byte>, loc: nat)
      requires Valid()
      ensures Overwrite(View(), loc, bytes[..0]) == View()
    {
    }

    /** The transfer loop of `_device_write`. Every byte outside the range stays on the disk as it was there or
        in the cache. */
    method Transfer(loc: nat, bytes: seq<Byte>)
      requires Valid() && OnDevice(loc, |bytes|) && loc + |bytes| < NO_BLOCK
      modifies this`dirty, this`cached, disk, cache
      ensures Valid() && View() == Overwrite(old(View()), loc, bytes)
      ensures forall x: nat :: x < disk.Length && !(loc <= x < loc + |bytes|) ==>
              disk[x] == old(disk[x]) || disk[x] == old(View())[x]
    {
      hide Start, Overwrite, View;
      var progress := 0;
      Nothing(bytes, loc);
      while progress < |bytes|
        invariant Valid() && progress <= |bytes| && View() == Overwrite(old(View()), loc, bytes[..progress])
        invariant forall x: nat :: x < disk.Length && !(loc <= x < loc + |bytes|) ==>
                  disk[x] == old(disk[x]) || disk[x] == old(View())[x]
      {
        var x := loc + progress;
        BlockOf(x, blocks, blockSize);
        ghost var v, d := View(), disk[..];
        var got := CacheBlock(x / blockSize);
        assert forall y: nat :: y < disk.Length ==> disk[..][y] == d[y] || disk[..][y] == v[y];
        var offset := x % blockSize;
        var chunk := if |bytes| - progress > blockSize - offset then blockSize - offset else |bytes| - progress;
        Patch(offset, bytes[progress..progress + chunk]);
        OverwriteMore(old(View()), loc, bytes[..progress], bytes[progress..progress + chunk]);
        assert bytes[..progress] + bytes[progress..progress + chunk] == bytes[..progress + chunk];
        progress := progress + chunk;
      }
    }

    /** `_device_write`. While installing, the old bytes are logged first; the 257th write and one off the device
        fail and change nothing. While uninstalling nothing is logged. */
    method Write(loc: nat, bytes: seq<Byte>) returns (ok: bool)
      requires Valid() && loc + |bytes| < NO_BLOCK && (uninstalling ==> OnDevice(loc, |bytes|))
      modifies this`dirty, this`cached, this`logged, disk, cache, log
      ensures Valid() && (ok <==> (uninstalling || old(logged) < LOG_MAX) && OnDevice(loc, |bytes|))
      ensures View() == if ok then Overwrite(old(View()), loc, bytes) else old(View())
      ensures log[..logged] == old(log[..logged]) + if ok && !uninstalling then [OldBytes(old(View()), loc, |bytes|)]
              else []
      ensures forall x: nat :: x < disk.Length && !(ok && loc <= x < loc + |bytes|) ==>
              disk[x] == old(disk[x]) || disk[x] == old(View())[x]
    {
      hide Start, Overwrite, View;
      if !uninstalling {
        if logged >= LOG_MAX {
          return false;
        }
        var got := Save(loc, |bytes|);
        assert forall y: nat :: y < disk.Length ==> disk[..][y] == old(disk[..])[y] || disk[..][y] == old(View())[y];
        if !got {
          return false;
        }
      }
      ghost var d := disk[..];
      Transfer(loc, bytes);
      assert forall y: nat :: y < disk.Length ==> d[y] == old(disk[y]) || d[y] == old(View())[y];
      if !uninstalling {
        CountEntry();
      }
      return true;
    }

    /** The old bytes go into the next entry of the log. */
    method Save(loc: nat, count: nat) returns (ok: bool)
      requires Valid() && loc + count < NO_BLOCK && logged < LOG_MAX
      modifies this`dirty, this`cached, disk, cache, log
      ensures Valid() && View() == old(View()) && (ok <==> OnDevice(loc, count))
      ensures disk[..] == old(disk[..]) || disk[..] == old(View())
      ensures log[..logged] == old(log[..logged]) && (ok ==> log[logged] == OldBytes(View(), loc, count))
    {
      hide Start, Overwrite;
      var data;
      ok, data := Read(loc, count);
      if ok {
        log[logged] := Saved(data, loc);
      }
    }

    method CountEntry()
      requires Valid() && logged < LOG_MAX
      modifies this`logged
      ensures Valid() && View() == old(View()) && logged == old(logged) + 1
    {
      hide Start, Overwrite;
      logged := logged + 1;
    }

    /** `reverse_uninstall_data`: through a second array and back. */
    method ReverseLog()
      requires Valid()
      modifies log, reversed
      ensures Valid() && View() == old(View()) && log[..logged] == Reversed(old(log[..logged]))
    {
      hide Start, View;
      var j := logged - 1;
      for i := 0 to logged
        invariant j == logged - 1 - i && log[..] == old(log[..])
        invariant forall k: nat :: logged - i <= k < logged ==> reversed[k] == old(log[..])[logged - 1 - k]
      {
        reversed[j] := log[i];
        j := j - 1;
      }
      forall k | 0 <= k < logged {
        log[k] := reversed[k];
      }
    }

    /** `uninstall`: what is cached is thrown away, dirty or not; the logged bytes are written in the order of the
        log, and flushed. */
    method Uninstall()
      requires Valid() && Fits(log[..logged], disk.Length)
      requires forall i: nat :: i < logged ==> log[i].loc + |log[i].data| < NO_BLOCK
      modifies this`dirty, this`cached, this`logged, this`uninstalling, disk, cache, log
      ensures Valid() && logged == old(logged) && disk[..] == Replay(old(disk[..]), old(log[..logged]))
    {
      hide Start, Overwrite;
      uninstalling := true;
      dirty := false;
      cached := NO_BLOCK;
      ghost var entries := log[..logged];
      for i := 0 to logged
        invariant Valid() && uninstalling && logged == old(logged) && log[..logged] == entries
        invariant View() == Replay(old(disk[..]), entries[..i])
      {
        var e := log[i];
        assert e == entries[i];
        assert entries[..i + 1][..i] == entries[..i];
        var ok := Write(e.loc, e.data);
        assert log[..logged] == entries;
      }
      assert entries[..logged] == entries;
      Flush();
    }

    /** The log is enough to bring `orig` back from what is on the disk. */
    ghost predicate Covered(orig: Disk)
      requires Valid()
      reads this, disk, cache, log
    {
      && !uninstalling && Undoable(orig, log[..logged], disk[..], View())
      && forall i: nat :: i < logged ==> log[i].loc + |log[i].data| < NO_BLOCK
    }

    /** One request of the installation. */
    method Serve(r: Request, ghost orig: Disk)
      requires Valid() && Covered(orig) && (r.ReadReq? ==> r.loc + r.count < NO_BLOCK)
               && (r.WriteReq? ==> r.loc + |r.bytes| < NO_BLOCK)
      modifies this`dirty, this`cached, this`logged, disk, cache, log
      ensures Valid() && Covered(orig)
    {
      hide Start, Overwrite, View, Undoable;
      ghost var d, v, l := disk[..], View(), log[..logged];
      match r {
        case ReadReq(loc, count) =>
          var ok, data := Read(loc, count);
          MixedUndoable(orig, l, d, v, disk[..]);
        case WriteReq(loc, bytes) => ServeWrite(loc, bytes, orig);
      }
    }

    method ServeWrite(loc: nat, bytes: seq<Byte>, ghost orig: Disk)
      requires Valid() && Covered(orig) && loc + |bytes| < NO_BLOCK
      modifies this`dirty, this`cached, this`logged, disk, cache, log
      ensures Valid() && Covered(orig)
    {
      hide Start, Overwrite, View, Undoable;
      ghost var d, v, l := disk[..], View(), log[..logged];
      var ok := Write(loc, bytes);
      assert forall y: nat :: y < disk.Length ==> disk[y] == disk[..][y];
      if ok {
        WriteUndoable(orig, l, d, v, OldBytes(v, loc, |bytes|), bytes, disk[..]);
      } else {
        assert log[..logged] == l;
        MixedUndoable(orig, l, d, v, disk[..]);
      }
    }

    /** An installation that is given up: after any reads and writes, whatever has reached the disk and whatever
        is still in the cache, reversing the log and uninstalling leaves the disk byte for byte as it was. */
    method InstallAndUndo(requests: seq<Request>)
      requires Valid() && !dirty && logged == 0 && !uninstalling
      requires forall r :: r in requests ==>
               (r.ReadReq? ==> r.loc + r.count < NO_BLOCK) && (r.WriteReq? ==> r.loc + |r.bytes| < NO_BLOCK)
      modifies this, disk, cache, log, reversed
      ensures Valid() && disk[..] == old(disk[..])
    {
      ghost var orig := disk[..];
      CleanView();
      NothingLogged(orig);
      assert log[..0] == [];
      for i := 0 to |requests|
        invariant Valid() && Covered(orig)
      {
        Serve(requests[i], orig);
      }
      ghost var l, d := log[..logged], disk[..];
      UndoRestores(orig, l, d, View());
      ReverseLog();
      assert forall i: nat :: i < logged ==> log[i] == Reversed(l)[i];
      Uninstall();
    }
  }

  function OldBytes(v: Disk, loc: nat, count: nat): Saved
    requires count > 0 ==> loc + count <= |v|
  {
    Saved(if count == 0 then [] else v[loc..loc + count], loc)
  }
}
