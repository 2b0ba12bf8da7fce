/** What the installer's undo log promises: saved bytes, replayed newest first, bring the original disk back. */
module UndoLog {
  import opened Layout

  type Disk = seq<Byte>

  /** One `uninstall_data`: the bytes that stood at `loc` before a write. */
  datatype Saved = Saved(data: seq<Byte>, loc: nat) {
    predicate Covers(x: nat) { loc <= x < loc + |data| }
  }

  /** `bytes` laid over `d` at `loc`. */
  function Overwrite(d: Disk, loc: nat, bytes: seq<Byte>): (r: Disk)
    requires bytes != [] ==> loc + |bytes| <= |d|
    ensures |r| == |d|
    ensures forall x: nat :: x < |d| ==> r[x] == if loc <= x < loc + |bytes| then bytes[x - loc] else d[x]
  {
    if bytes == [] then d else d[..loc] + bytes + d[loc + |bytes|..]
  }

  lemma OverwriteSame(d: Disk, at: nat, c: seq<Byte>)
    requires at + |c| <= |d| && d[at..at + |c|] == c
    ensures Overwrite(d, at, c) == d
  {
    assert d == d[..at] + d[at..at + |c|] + d[at + |c|..];
  }

  lemma OverwritePart(d: Disk, at: nat, c: seq<Byte>, from: nat, n: nat)
    requires at + |c| <= |d| && from + n <= |c|
    ensures Overwrite(d, at, c)[at + from..at + from + n] == c[from..from + n]
  {
  }

  /** Two adjoining pieces are one. */
  lemma OverwriteMore(d: Disk, at: nat, a: seq<Byte>, b: seq<Byte>)
    requires at + |a| + |b| <= |d|
    ensures Overwrite(Overwrite(d, at, a), at + |a|, b) == Overwrite(d, at, a + b)
  {
  }

  predicate Fits(log: seq<Saved>, n: nat) {
    forall i :: 0 <= i < |log| ==> log[i].data == [] || log[i].loc + |log[i].data| <= n
  }

  /** The saved bytes written back in the order of the list. */
  function Replay(d: Disk, log: seq<Saved>): (r: Disk)
    requires Fits(log, |d|)
    ensures |r| == |d|
    decreases |log|
  {
    if log == [] then d
    else Overwrite(Replay(d, log[..|log| - 1]), log[|log| - 1].loc, log[|log| - 1].data)
  }

  function Reversed(log: seq<Saved>): (r: seq<Saved>)
    ensures |r| == |log| && forall i :: 0 <= i < |log| ==> r[i] == log[|log| - 1 - i]
  {
    seq(|log|, i requires 0 <= i < |log| => log[|log| - 1 - i])
  }

  /** What the oldest entry that covers byte `x` saved. */
  function Oldest(log: seq<Saved>, x: nat): Option<Byte> {
    if log == [] then None
    else if log[0].Covers(x) then Some(log[0].data[x - log[0].loc])
    else Oldest(log[1..], x)
  }

  /** Replayed newest first, each covered byte ends as its oldest entry has it, the others stay. */
  lemma {:induction false} ReplayReversed(d: Disk, log: seq<Saved>, x: nat)
    requires Fits(log, |d|) && Fits(Reversed(log), |d|) && x < |d|
    ensures Replay(d, Reversed(log))[x] == if Oldest(log, x).Some? then Oldest(log, x).value else d[x]
    decreases |log|
  {
    if log != [] {
      var r := Reversed(log);
      assert r[..|r| - 1] == Reversed(log[1..]);
      ReplayReversed(d, log[1..], x);
    }
  }

  lemma {:induction false} OldestStays(log: seq<Saved>, e: Saved, x: nat)
    ensures Oldest(log + [e], x) == if Oldest(log, x).Some? then Oldest(log, x)
                                    else if e.Covers(x) then Some(e.data[x - e.loc]) else None
    decreases |log|
  {
    if log == [] {
      assert (log + [e])[1..] == [];
    } else {
      assert (log + [e])[1..] == log[1..] + [e];
      OldestStays(log[1..], e, x);
    }
  }

  /** The log can bring `orig` back from `disk`: a byte it covers was saved with its original value, any other
      is untouched on the disk and in the cache. */
  ghost predicate Undoable(orig: Disk, log: seq<Saved>, disk: Disk, view: Disk) {
    && |orig| == |disk| == |view| && Fits(log, |disk|)
    && forall x: nat :: x < |orig| ==>
         match Oldest(log, x)
         case Some(b) => b == orig[x]
         case None => disk[x] == orig[x] && view[x] == orig[x]
  }

  lemma NothingLogged(d: Disk)
    ensures Undoable(d, [], d, d)
  {
  }

  /** Each byte on the disk is what it was or what the cache would have written. */
  ghost predicate Mixed(was: Disk, view: Disk, now: Disk) {
    |was| == |view| == |now| && forall x: nat :: x < |now| ==> now[x] == was[x] || now[x] == view[x]
  }

  /** Writing back cached blocks keeps the log sufficient. */
  lemma MixedUndoable(orig: Disk, log: seq<Saved>, disk: Disk, view: Disk, now: Disk)
    requires Undoable(orig, log, disk, view) && Mixed(disk, view, now)
    ensures Undoable(orig, log, now, view)
  {
  }

  /** So does a logged write, wherever its bytes have got to. */
  lemma WriteUndoable(orig: Disk, log: seq<Saved>, disk: Disk, view: Disk, e: Saved, bytes: seq<Byte>, now: Disk)
    requires Undoable(orig, log, disk, view) && |bytes| == |e.data| && (bytes != [] ==> e.loc + |bytes| <= |view|)
    requires e.data != [] ==> e.data == view[e.loc..e.loc + |bytes|]
    requires |now| == |disk| && forall x: nat :: x < |now| && !e.Covers(x) ==> now[x] == disk[x] || now[x] == view[x]
    ensures Undoable(orig, log + [e], now, Overwrite(view, e.loc, bytes))
  {
    forall x: nat | x < |orig|
      ensures match Oldest(log + [e], x)
              case Some(b) => b == orig[x]
              case None => now[x] == orig[x] && Overwrite(view, e.loc, bytes)[x] == orig[x]
    {
      OldestStays(log, e, x);
    }
  }

  /** Undoing works from the disk alone, whatever the cache still held. */
  lemma UndoRestores(orig: Disk, log: seq<Saved>, disk: Disk, view: Disk)
    requires Undoable(orig, log, disk, view)
    ensures Fits(Reversed(log), |disk|) && Replay(disk, Reversed(log)) == orig
  {
    forall x: nat | x < |orig|
      ensures Replay(disk, Reversed(log))[x] == orig[x]
    {
      ReplayReversed(disk, log, x);
    }
  }
}
