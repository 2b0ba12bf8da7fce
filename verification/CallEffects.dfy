/** What each thread and process call does, said of the lists themselves: who comes into being, who runs, who is freed
    and when. */
module CallEffects {
  import opened Layout
  import opened ReadyQueue
  import opened Lifecycle
  import opened LifecycleInvariant
  import opened SafeBurial

  // ---------- burial ----------

  /** `process_reap_zombies` frees every process on its list that has no thread left, and no other. */
  lemma {:induction false} ReapsAll(a: Sys, i: nat)
    requires Core(a)
    ensures var b := ReapProcs(a, i);
            && (forall p :: p in b.procs <==> p in a.procs && !(p in a.procZombies && i <= IndexIn(a.procZombies, p)
                                                               && a.procs[p].threadCount == 0))
            && (forall p :: p in b.procs ==> b.procs[p] == a.procs[p])
    decreases |a.procZombies| - i
  {
    hide ListsOk, AllPlaced, Fresh, SpacesOk, ActiveOk, Buriable, ProcOk;
    if i < |a.procZombies| {
      ZombieProc(a, i);
      var z := a.procZombies[i];
      NoDupIndex(a.procZombies, i);
      if a.procs[z].threadCount == 0 {
        Unthreaded(a, i);
        BuryProcKeeps(a, i);
        ReapsAll(BuryProc(a, i), i);
        forall p | p != z && p in a.procs
          ensures p in a.procZombies && i <= IndexIn(a.procZombies, p)
                  <==> p in BuryProc(a, i).procZombies && i <= IndexIn(BuryProc(a, i).procZombies, p)
        {
          WithoutOne(a.procZombies, i, p);
        }
      } else {
        ReapsAll(a, i + 1);
      }
    }
  }

  /** Where an element of a list first stands. */
  function IndexIn(q: seq<nat>, p: nat): (i: nat)
    requires p in q
    ensures i < |q| && q[i] == p
  {
    if q[0] == p then 0 else 1 + IndexIn(q[1..], p)
  }

  lemma NoDupIndex(q: seq<nat>, i: nat)
    requires NoDup(q) && i < |q|
    ensures IndexIn(q, q[i]) == i
  {
    var j := IndexIn(q, q[i]);
    assert q[j] == q[i];
  }

  lemma WithoutOne(q: seq<nat>, i: nat, p: nat)
    requires NoDup(q) && i < |q| && p != q[i]
    ensures var r := q[..i] + q[i + 1..];
            p in q && i <= IndexIn(q, p) <==> p in r && i <= IndexIn(r, p)
  {
    var r := q[..i] + q[i + 1..];
    assert NoDup(r);
    if p in q {
      var j := IndexIn(q, p);
      assert r[if j < i then j else j - 1] == p;
      NoDupIndex(r, if j < i then j else j - 1);
    }
    if p in r {
      var j := IndexIn(r, p);
      assert q[if j < i then j else j + 1] == p;
    }
  }

  /** The spaces that go are destroyed, in order, and nothing else is. */
  lemma {:induction false} ReapsSpaces(a: Sys, i: nat)
    requires Core(a)
    ensures var b := ReapProcs(a, i);
            && b.spaces <= a.spaces && a.destroyed <= b.destroyed
            && forall s :: s in b.destroyed[|a.destroyed|..] <==> s in a.spaces && s !in b.spaces
    decreases |a.procZombies| - i
  {
    hide ListsOk, AllPlaced, ProcsOk, SpacesOk, ActiveOk, Buriable, ProcOk;
    if i < |a.procZombies| {
      ZombieProc(a, i);
      if a.procs[a.procZombies[i]].threadCount == 0 {
        Unthreaded(a, i);
        BuryProcKeeps(a, i);
        SpaceThere(a, a.procZombies[i]);
        var c := BuryProc(a, i);
        var s := a.procs[a.procZombies[i]].space;
        assert c.destroyed == if s != 0 then a.destroyed + [s] else a.destroyed;
        ReapsSpaces(c, i);
        var b := ReapProcs(c, i);
        if s != 0 {
          assert b.destroyed[|a.destroyed|..] == [s] + b.destroyed[|c.destroyed|..];
        }
      } else {
        ReapsSpaces(a, i + 1);
      }
    }
  }

  lemma SpaceThere(a: Sys, p: nat)
    requires Core(a) && Buriable(a, p)
    ensures 0 !in a.spaces && (a.procs[p].space != 0 ==> a.procs[p].space in a.spaces)
  {
  }

  /** A space is there as long as a process has it, and not the kernel's. */
  lemma SpacesHeld(a: Sys, s: nat)
    requires Core(a)
    ensures s in a.spaces <==> s != 0 && exists p :: p in a.procs && a.procs[p].space == s
  {
    hide ListsOk, AllPlaced, ProcsOk, ActiveOk;
  }

  /** The space of a rightly buried process. */
  ghost predicate SpaceFreed(a: Sys, s: nat) {
    exists p :: RightlyBuried(a, p) && a.procs[p].space == s
  }

  /** From `a` to `b` exactly the rightly buried processes went, with exactly their spaces, each destroyed once. */
  ghost predicate FreedExactly(a: Sys, b: Sys) {
    && (forall p :: p in b.procs <==> p in a.procs && !RightlyBuried(a, p))
    && (forall p :: p in b.procs ==> b.procs[p].space == a.procs[p].space && b.procs[p].zombie == a.procs[p].zombie)
    && (forall s :: s in b.spaces <==>
          s in a.spaces && !SpaceFreed(a, s))
    && a.destroyed <= b.destroyed && NoDup(b.destroyed)
    && (forall s :: s in b.destroyed[|a.destroyed|..] <==>
          s != 0 && SpaceFreed(a, s))
  }

  /** After the threads are buried, a dead process has none left exactly if all it had were waiting for burial. */
  lemma ThreadlessIff(a: Sys, b: Sys, p: nat)
    requires Core(a) && Core(b) && ThreadsReaped(a, b) && p in a.procs && a.procs[p].zombie
    requires b.procs[p].space == a.procs[p].space && b.procs[p].zombie
    ensures b.procs[p].threadCount == 0 <==> RightlyBuried(a, p)
  {
    hide ListsOk, AllPlaced, Fresh, SpacesOk;
    assert ProcOk(b.threads, p, b.procs[p]);
    if b.procs[p].threadCount == 0 {
      NobodyLeft(a, b, p);
    } else {
      var t := b.procs[p].threads[0];
      assert t in b.procs[p].threads;
    }
  }

  lemma NobodyLeft(a: Sys, b: Sys, p: nat)
    requires Core(a) && Core(b) && ThreadsReaped(a, b) && p in a.procs && a.procs[p].zombie
    requires b.procs[p].space == a.procs[p].space && b.procs[p].threads == [] && ProcOk(b.threads, p, b.procs[p])
    requires b.procs[p].zombie
    ensures RightlyBuried(a, p)
  {
    hide ListsOk, AllPlaced, Fresh, ProcsOk;
    assert Buriable(b, p) by {
      ActiveElsewhere(b, p);
    }
    BuriedBefore(a, b, p);
  }

  /** A process without threads does not have the active space. */
  lemma ActiveElsewhere(b: Sys, p: nat)
    requires Core(b) && p in b.procs && forall t :: t in b.threads ==> b.threads[t].owner != p
    ensures b.procs[p].space != 0 ==> b.procs[p].space != b.active && b.procs[p].space in b.spaces
    ensures b.procs[p].space != 0 ==> forall q :: q in b.procs && q != p ==> b.procs[q].space != b.procs[p].space
  {
    hide ListsOk, AllPlaced, Fresh, ProcsOk;
  }

  /** Which spaces are gone when these processes are. */
  lemma SpacesGone(a: Sys, b: Sys, s: nat)
    requires Core(a) && Core(b) && b.spaces <= a.spaces
    requires forall p :: p in b.procs <==> p in a.procs && !RightlyBuried(a, p)
    requires forall p :: p in b.procs ==> b.procs[p].space == a.procs[p].space
    ensures s in b.spaces <==> s in a.spaces && !SpaceFreed(a, s)
    ensures s in a.spaces && s !in b.spaces
            <==> s != 0 && SpaceFreed(a, s)
  {
    SpacesHeld(a, s);
    SpacesHeld(b, s);
    OneOwner(a, s);
    hide Core;
  }

  lemma OneOwner(a: Sys, s: nat)
    requires Core(a)
    ensures forall p, q :: p in a.procs && q in a.procs && a.procs[p].space == s && a.procs[q].space == s && s != 0 ==>
                             p == q
  {
    hide ListsOk, AllPlaced, ProcsOk, ActiveOk, Fresh;
  }

  /** Which processes are left. */
  lemma ReapedProcesses(a: Sys)
    requires Core(a)
    ensures forall p :: p in Reaped(a).procs <==> p in a.procs && !RightlyBuried(a, p)
    ensures forall p :: p in Reaped(a).procs ==>
                          Reaped(a).procs[p].space == a.procs[p].space && Reaped(a).procs[p].zombie == a.procs[p].zombie
    ensures Core(Reaped(a)) && Reaped(a).spaces <= a.spaces && a.destroyed <= Reaped(a).destroyed
    ensures forall s :: s in Reaped(a).destroyed[|a.destroyed|..] <==> s in a.spaces && s !in Reaped(a).spaces
  {
    hide Core, RightlyBuried, ReapThreads, ReapProcs, Survivors;
    ReapThreadsKeeps(a);
    ThreadsSame(a);
    var r := ReapThreads(a);
    ReapProcsKeeps(r, 0);
    ReapsAll(r, 0);
    ReapsSpaces(r, 0);
    forall p
      ensures p in Reaped(a).procs <==> p in a.procs && !RightlyBuried(a, p)
    {
      OnZombieList(r, p);
      if p in a.procs && a.procs[p].zombie {
        ThreadlessIff(a, r, p);
      }
      BuriedIsZombie(a, p);
    }
  }

  lemma ReapedExactly(a: Sys)
    requires Core(a)
    ensures FreedExactly(a, Reaped(a)) && Core(Reaped(a))
  {
    hide Core, RightlyBuried, SpaceFreed, Reaped;
    ReapedProcesses(a);
    var b := Reaped(a);
    forall s
      ensures s in b.spaces <==> s in a.spaces && !SpaceFreed(a, s)
      ensures s in a.spaces && s !in b.spaces <==> s != 0 && SpaceFreed(a, s)
    {
      SpacesGone(a, b, s);
    }
    DestroyedOnce(b);
  }

  lemma DestroyedOnce(b: Sys)
    requires Core(b)
    ensures NoDup(b.destroyed)
  {
  }

  /** What one yield frees: exactly the processes that are dead with all their threads waiting for burial, and exactly
      their spaces. */
  lemma YieldFrees(a: Sys)
    requires Core(a) && a.enabled && Leaving(a) && Demand(a) <= SLOTS
    ensures FreedExactly(a, DoYield(a))
  {
    hide Core, FreedExactly, Reaped;
    ReapedKeeps(a);
    ReapedExactly(a);
    YieldIs(a);
    HandOver(Reaped(a));
    FreedLikewise(a, Reaped(a), DoYield(a));
  }

  lemma FreedLikewise(a: Sys, b: Sys, c: Sys)
    requires FreedExactly(a, b) && c.procs == b.procs && c.spaces == b.spaces && c.destroyed == b.destroyed
    ensures FreedExactly(a, c)
  {
    hide RightlyBuried;
  }

  /** `process_reap_zombies`: exactly the dead processes without threads go, with their spaces. */
  ghost predicate Threadless(a: Sys, p: nat) {
    p in a.procs && a.procs[p].zombie && forall t :: t in a.threads ==> a.threads[t].owner != p
  }

  ghost predicate ThreadlessGone(a: Sys, b: Sys) {
    && (forall p :: p in b.procs <==> p in a.procs && !Threadless(a, p))
    && (forall p :: p in b.procs ==> b.procs[p] == a.procs[p])
    && b.spaces <= a.spaces && (forall s :: s in a.spaces && s !in b.spaces <==> s != 0 && ThreadlessSpace(a, s))
    && a.destroyed <= b.destroyed && NoDup(b.destroyed)
    && (forall s :: s in b.destroyed[|a.destroyed|..] <==> s in a.spaces && s !in b.spaces)
  }

  ghost predicate ThreadlessSpace(a: Sys, s: nat) {
    exists p :: Threadless(a, p) && a.procs[p].space == s
  }

  lemma ReapsThreadless(a: Sys)
    requires Core(a)
    ensures ThreadlessGone(a, ReapProcs(a, 0))
  {
    hide Core, Threadless, ThreadlessSpace, ReapProcs;
    ReapsAll(a, 0);
    ReapsSpaces(a, 0);
    ReapProcsKeeps(a, 0);
    var b := ReapProcs(a, 0);
    forall p
      ensures p in b.procs <==> p in a.procs && !Threadless(a, p)
    {
      CountIsThreads(a, p);
    }
    forall s
      ensures s in a.spaces && s !in b.spaces <==> s != 0 && ThreadlessSpace(a, s)
    {
      ThreadlessSpaces(a, b, s);
    }
    DestroyedOnce(b);
  }

  lemma CountIsThreads(a: Sys, p: nat)
    requires Core(a)
    ensures Threadless(a, p) <==> p in a.procs && p in a.procZombies && a.procs[p].threadCount == 0
    ensures Threadless(a, p) ==> p in a.procs
  {
    hide ListsOk, AllPlaced, Fresh, SpacesOk, ActiveOk;
    if p in a.procs {
      assert ProcOk(a.threads, p, a.procs[p]);
      if a.procs[p].threadCount != 0 {
        assert a.procs[p].threads[0] in a.procs[p].threads;
      }
    }
  }

  lemma ThreadlessSpaces(a: Sys, b: Sys, s: nat)
    requires Core(a) && Core(b) && b.spaces <= a.spaces
    requires forall p :: p in b.procs <==> p in a.procs && !Threadless(a, p)
    requires forall p :: p in b.procs ==> b.procs[p] == a.procs[p]
    ensures s in a.spaces && s !in b.spaces <==> s != 0 && ThreadlessSpace(a, s)
  {
    SpacesHeld(a, s);
    SpacesHeld(b, s);
    OneOwner(a, s);
    hide Core;
  }

  lemma OnZombieList(r: Sys, p: nat)
    requires Core(r)
    ensures p in r.procZombies <==> p in r.procs && r.procs[p].zombie
  {
  }

  lemma BuriedIsZombie(a: Sys, p: nat)
    ensures RightlyBuried(a, p) ==> p in a.procs && a.procs[p].zombie
  {
  }

  // ---------- no dead process is left behind ----------

  /** While someone runs, a dead process has all its threads on the zombie list: the next yield frees it. */
  lemma ZombieDue(a: Sys, p: nat)
    requires Inv(a) && p in a.procs && a.procs[p].zombie
    ensures RightlyBuried(a, p)
  {
    assert ProcOk(a.threads, p, a.procs[p]);
    assert AliveOf(a.threads, p) == {};
    forall t | t in a.threads && a.threads[t].owner == p
      ensures t in a.zombies && a.threads[t].state == Dead
    {
      assert a.threads[t].state != Dead ==> t in AliveOf(a.threads, p);
      assert Placed(a, t);
    }
    ZombieIdle(a, p);
  }

  lemma ZombieIdle(a: Sys, p: nat)
    requires Core(a) && p in a.procs && (forall t :: t in a.threads && a.threads[t].owner == p ==> t in a.zombies)
    ensures a.procs[p].space != 0 ==> a.procs[p].space != a.active
  {
    hide AllPlaced, Fresh, ProcsOk;
  }

  /** The state handed to `sched_yield` has the same dead processes, and the same threads to bury. */
  lemma ZombieAtYield(a: Sys, op: Op, p: nat)
    requires Inv(a) && Started(a) && Enabled(a, op) && AtYield(a, op).Some? && p in a.procs && a.procs[p].zombie
    ensures RightlyBuried(AtYield(a, op).value, p) && AtYield(a, op).value.procs[p].space == a.procs[p].space
    ensures AtYield(a, op).value.destroyed == a.destroyed
  {
    ZombieDue(a, p);
    hide AllPlaced, Fresh, SpacesOk, ProcOk, DoYield;
    if op.Exit? {
      DieKeeps(a);
      NotYet(a, p);
    }
  }

  lemma NotYet(a: Sys, p: nat)
    requires Inv(a) && a.current != 0 && RightlyBuried(a, p) && a.current in a.threads
             && a.threads[a.current].owner in a.procs
    ensures RightlyBuried(Die(a), p) && Die(a).procs[p].space == a.procs[p].space && Die(a).destroyed == a.destroyed
  {
    hide AllPlaced, Fresh, SpacesOk, ProcOk;
  }

  /** A call that yields frees every dead process. */
  lemma YieldBuries(a: Sys, op: Op, p: nat)
    requires Inv(a) && Started(a) && Enabled(a, op) && AtYield(a, op).Some? && p in a.procs && a.procs[p].zombie
    ensures var b := Apply(a, op);
            p !in b.procs && (a.procs[p].space != 0 ==> a.procs[p].space in b.destroyed)
  {
    hide Inv, Core, DoYield, Leaving, Enabled, RightlyBuried, AtYield, Apply;
    ZombieAtYield(a, op, p);
    AtYieldKeeps(a, op);
    var y := AtYield(a, op).value;
    YieldFrees(y);
    FreedSpace(y, DoYield(y), p);
  }

  lemma FreedSpace(y: Sys, b: Sys, p: nat)
    requires FreedExactly(y, b) && RightlyBuried(y, p)
    ensures p !in b.procs && (y.procs[p].space != 0 ==> y.procs[p].space in b.destroyed)
  {
    hide RightlyBuried;
    BuriedIsZombie(y, p);
    assert SpaceFreed(y, y.procs[p].space);
    if y.procs[p].space != 0 {
      assert y.procs[p].space in b.destroyed[|y.destroyed|..];
    }
  }

  predicate SameIds(a: Sys, b: Sys) {
    b.nextTid == a.nextTid && b.nextPid == a.nextPid && b.nextSpace == a.nextSpace
  }

  lemma {:induction false} ReapThreadsIds(a: Sys)
    ensures SameIds(a, ReapThreads(a))
    decreases |a.zombies|
  {
    if a.zombies != [] && a.zombies[0] in a.threads {
      ReapThreadsIds(BuryThread(a));
    }
  }

  lemma {:induction false} ReapProcsIds(a: Sys, i: nat)
    ensures SameIds(a, ReapProcs(a, i))
    decreases |a.procZombies| - i
  {
    if i < |a.procZombies| && a.procZombies[i] in a.procs {
      if a.procs[a.procZombies[i]].threadCount == 0 {
        ReapProcsIds(BuryProc(a, i), i);
      } else {
        ReapProcsIds(a, i + 1);
      }
    }
  }

  lemma YieldIds(a: Sys)
    ensures SameIds(a, DoYield(a))
  {
    ReapThreadsIds(a);
    ReapProcsIds(ReapThreads(a), 0);
    hide ReapThreads, ReapProcs;
  }

  lemma YieldOff(a: Sys)
    ensures !a.enabled ==> DoYield(a) == a
  {
  }

  /** No call brings back what is gone: ids are not used again, and a destroyed space stays destroyed. */
  lemma GoneStays(a: Sys, op: Op)
    requires Inv(a) && Started(a) && Enabled(a, op)
    ensures a.nextPid <= Apply(a, op).nextPid
    ensures forall p: nat :: p < a.nextPid && p !in a.procs ==> p !in Apply(a, op).procs
    ensures forall s :: s in a.destroyed ==> s in Apply(a, op).destroyed
  {
    if AtYield(a, op).Some? {
      hide Inv, Core, FreedExactly, DoYield, Leaving;
      AtYieldKeeps(a, op);
      var y := AtYield(a, op).value;
      YieldFrees(y);
      YieldIds(y);
      BeforeYield(a, op);
      OnlyFewer(y, DoYield(y));
    } else {
      YieldOff(a);
      hide Inv, DoYield;
    }
  }

  lemma BeforeYield(a: Sys, op: Op)
    requires Inv(a) && Enabled(a, op) && AtYield(a, op).Some?
    ensures var y := AtYield(a, op).value;
            y.procs.Keys == a.procs.Keys && y.nextPid == a.nextPid && y.destroyed == a.destroyed
  {
    hide AllPlaced, Fresh, SpacesOk, ProcOk, DoYield;
  }

  lemma OnlyFewer(y: Sys, b: Sys)
    requires FreedExactly(y, b)
    ensures (forall p :: p in b.procs ==> p in y.procs) && forall s :: s in y.destroyed ==> s in b.destroyed
  {
    hide RightlyBuried, SpaceFreed;
  }

  /** A dead process stays dead until it is freed. */
  lemma ZombieStays(a: Sys, op: Op, p: nat)
    requires Inv(a) && Started(a) && Enabled(a, op) && AtYield(a, op).None? && p in a.procs && a.procs[p].zombie
    ensures var b := Apply(a, op); p in b.procs && b.procs[p].zombie && b.procs[p].space == a.procs[p].space
  {
    YieldOff(a);
    hide ListsOk, AllPlaced, ProcsOk, SpacesOk, ActiveOk, DoYield;
    assert p < a.nextPid;
  }

  lemma {:induction false} GoneForGood(a: Sys, ops: seq<Op>, p: nat, s: nat)
    requires Inv(a) && Started(a) && Legal(a, ops) && p < a.nextPid && p !in a.procs && (s != 0 ==> s in a.destroyed)
    ensures p !in Run(a, ops).procs && s !in Run(a, ops).spaces && (s != 0 ==> s in Run(a, ops).destroyed)
    decreases |ops|
  {
    hide Inv, Started, Apply, Enabled;
    if ops == [] {
      DestroyedGone(a, s);
    } else {
      StepKeeps(a, ops[0]);
      GoneStays(a, ops[0]);
      GoneForGood(Apply(a, ops[0]), ops[1..], p, s);
    }
  }

  lemma DestroyedGone(a: Sys, s: nat)
    requires Inv(a) && (s != 0 ==> s in a.destroyed)
    ensures s !in a.spaces
  {
  }

  /** A dead process is gone for good, with its space, after the next yield, whatever is called before and after. */
  lemma {:induction false} BuriedByNextYield(a: Sys, ops: seq<Op>, p: nat)
    requires Inv(a) && Started(a) && Legal(a, ops) && p in a.procs && a.procs[p].zombie && Yields(a, ops) > 0
    ensures var s := a.procs[p].space;
            p !in Run(a, ops).procs && s !in Run(a, ops).spaces && (s != 0 ==> s in Run(a, ops).destroyed)
    decreases |ops|
  {
    hide Inv, Started, Apply, Enabled, AtYield;
    var b := Apply(a, ops[0]);
    StepKeeps(a, ops[0]);
    PidBound(a, p);
    GoneStays(a, ops[0]);
    if AtYield(a, ops[0]).Some? {
      YieldBuries(a, ops[0], p);
      GoneForGood(b, ops[1..], p, a.procs[p].space);
    } else {
      ZombieStays(a, ops[0], p);
      BuriedByNextYield(b, ops[1..], p);
    }
  }

  lemma PidBound(a: Sys, p: nat)
    requires Inv(a) && p in a.procs
    ensures p < a.nextPid
  {
  }

  /** The running thread is the last of its process that is not dead. */
  ghost predicate LastAlive(a: Sys) {
    a.current in a.threads
    && forall t :: t in a.threads && a.threads[t].owner == a.threads[a.current].owner && t != a.current ==>
                     a.threads[t].state == Dead
  }

  /** `thread_exit` kills the process exactly if the thread was its last; the yield inside it does not free it yet. */
  lemma ExitKillsIff(a: Sys)
    requires Inv(a) && Started(a) && Enabled(a, Exit)
    ensures a.current in a.threads && a.threads[a.current].owner in a.procs
    ensures var p, b := a.threads[a.current].owner, Apply(a, Exit);
            p in b.procs && b.procs[p].space == a.procs[p].space && (b.procs[p].zombie <==> LastAlive(a))
  {
    hide AllPlaced, Fresh, SpacesOk, DoYield, Die, ProcOk;
    DieKeeps(a);
    var p, y := a.threads[a.current].owner, Die(a);
    LastDies(a);
    NotDue(a);
    hide Inv, Core;
    AtYieldKeeps(a, Exit);
    YieldFrees(y);
    hide RightlyBuried, SpaceFreed;
  }

  lemma LastDies(a: Sys)
    requires Inv(a) && a.current != 0
    ensures a.current in a.threads && a.threads[a.current].owner in a.procs
    ensures var p := a.threads[a.current].owner;
            p in Die(a).procs && (Die(a).procs[p].zombie <==> LastAlive(a)) && Die(a).procs[p].space == a.procs[p].space
  {
    hide AllPlaced, Fresh, SpacesOk;
    var p := a.threads[a.current].owner;
    assert ProcOk(a.threads, p, a.procs[p]);
    AliveLast(a.threads, p, a.current);
    hide ListsOk, ProcsOk;
    DieIs(a);
  }

  lemma AliveLast(threads: map<nat, Thread>, p: nat, t: nat)
    requires t in threads && threads[t].owner == p && threads[t].state != Dead
    ensures |AliveOf(threads, p)| >= 1
    ensures |AliveOf(threads, p)| == 1
            <==> forall u :: u in threads && threads[u].owner == p && u != t ==> threads[u].state == Dead
  {
    var s := AliveOf(threads, p);
    assert t in s;
    assert |s - {t}| == |s| - 1;
    if |s| == 1 {
      assert s - {t} == {};
      forall u | u in threads && threads[u].owner == p && u != t
        ensures threads[u].state == Dead
      {
        assert u !in s - {t};
      }
    } else {
      var u :| u in s - {t};
    }
  }

  /** The thread that exits is not on the zombie list yet. */
  lemma NotDue(a: Sys)
    requires Inv(a) && a.enabled && a.current != 0 && a.idle != Some(a.current)
    ensures a.current in a.threads && !RightlyBuried(Die(a), a.threads[a.current].owner)
  {
    DieKeeps(a);
    assert a.current !in Die(a).zombies;
    assert a.current in Die(a).threads && Die(a).threads[a.current].owner == a.threads[a.current].owner;
  }

  /** A process whose last thread exits is freed, with its space, at the next yield after that, and stays so. */
  lemma LastThreadOut(a: Sys, ops: seq<Op>)
    requires Inv(a) && Started(a) && Enabled(a, Exit) && LastAlive(a) && Legal(Apply(a, Exit), ops)
    requires Yields(Apply(a, Exit), ops) > 0
    ensures a.threads[a.current].owner in a.procs
    ensures var p, c := a.threads[a.current].owner, Run(Apply(a, Exit), ops);
            var s := a.procs[p].space;
            p !in c.procs && s !in c.spaces && (s != 0 ==> s in c.destroyed)
  {
    hide Inv, Started, Apply, Enabled;
    ExitKillsIff(a);
    StepKeeps(a, Exit);
    BuriedByNextYield(Apply(a, Exit), ops, a.threads[a.current].owner);
  }

  /** Hence within a quantum of timer ticks. */
  lemma LastThreadOutByTicks(a: Sys, ops: seq<Op>)
    requires Inv(a) && Started(a) && Enabled(a, Exit) && LastAlive(a) && Legal(Apply(a, Exit), ops)
    requires Ticks(ops) >= QUANTUM
    ensures a.threads[a.current].owner in a.procs
    ensures a.threads[a.current].owner !in Run(Apply(a, Exit), ops).procs
  {
    hide Inv, Started, DoExit;
    StepKeeps(a, Exit);
    StillOn(a);
    TicksYield(DoExit(a), ops);
    LastThreadOut(a, ops);
  }

  lemma StillOn(a: Sys)
    requires Inv(a) && Started(a) && Enabled(a, Exit)
    ensures DoExit(a).enabled
  {
    hide Inv;
    DieKeeps(a);
    hide Core, Leaving, DoYield;
    AtYieldKeeps(a, Exit);
    YieldKeeps(Die(a));
  }

  // ---------- processes and threads come into being ----------

  /** Nothing changed but processes and spaces. */
  predicate SameThreads(a: Sys, b: Sys) {
    && b.queue == a.queue && b.current == a.current && b.idle == a.idle && b.zombies == a.zombies
    && b.enabled == a.enabled && b.ticks == a.ticks && b.threads == a.threads && b.active == a.active
    && b.freed == a.freed && b.nextTid == a.nextTid && b.procZombies == a.procZombies
  }

  /** Process `p` is new, alive, without threads and at the head of the list. A user process has a space of its own that
      never was anyone's, any other the kernel's. */
  predicate Spawned(a: Sys, b: Sys, p: nat, user: bool) {
    && SameThreads(a, b) && p != 0 && p !in a.procs && b.procs.Keys == a.procs.Keys + {p}
    && (forall q :: q in a.procs ==> b.procs[q] == a.procs[q])
    && !b.procs[p].zombie && b.procs[p].threads == [] && b.procs[p].threadCount == 0 && b.procs[p].aliveCount == 0
    && b.procList == [p] + a.procList && b.destroyed == a.destroyed
    && var s := b.procs[p].space;
       if user then s > 0 && s !in a.spaces && s !in a.destroyed && b.spaces == a.spaces + {s}
       else s == 0 && b.spaces == a.spaces
  }

  lemma NewProcSpawns(a: Sys, user: bool)
    requires Core(a)
    ensures Spawned(a, DoNewProc(a, user), a.nextPid, user)
  {
    hide ListsOk, AllPlaced, ProcsOk, SpacesOk, ActiveOk;
  }

  /** Thread `t` is new, ready and last in the queue, and belongs to `p` alone. */
  predicate Joins(a: Sys, b: Sys, t: nat, p: nat) {
    && t != 0 && t !in a.threads && t !in a.freed && b.threads == a.threads[t := Thread(Ready, p)]
    && b.queue == a.queue + [t] && b.current == a.current && b.idle == a.idle && b.zombies == a.zombies
    && b.enabled == a.enabled && b.ticks == a.ticks && b.active == a.active && b.freed == a.freed
    && b.procList == a.procList && b.procZombies == a.procZombies && b.spaces == a.spaces
    && b.destroyed == a.destroyed && p in a.procs && b.procs.Keys == a.procs.Keys
    && (forall q :: q in a.procs && q != p ==> b.procs[q] == a.procs[q])
    && var o, n := a.procs[p], b.procs[p];
       n.threads == [t] + o.threads && n.threadCount == o.threadCount + 1 && n.aliveCount == o.aliveCount + 1
       && n.zombie == o.zombie && n.space == o.space
  }

  lemma CreateJoins(a: Sys, p: nat)
    requires Core(a) && p in a.procs && |a.queue| < SLOTS
    ensures Joins(a, DoCreate(a, p), a.nextTid, p)
  {
    hide ListsOk, AllPlaced, ProcsOk, SpacesOk, ActiveOk;
  }

  /** The child: a living process with one thread, which is ready and last in the queue, and with a space of its own
      that
      no other process has. Everyone else is as before. */
  predicate Forked(a: Sys, b: Sys, p: nat, t: nat) {
    && p != 0 && p !in a.procs && b.procs.Keys == a.procs.Keys + {p}
    && (forall q :: q in a.procs ==> b.procs[q] == a.procs[q] && b.procs[q].space != b.procs[p].space)
    && (var s := b.procs[p].space;
        s > 0 && s !in a.spaces && s !in a.destroyed && b.spaces == a.spaces + {s}
        && b.procs[p] == Proc(false, [t], 1, 1, s))
    && t != 0 && t !in a.threads && t !in a.freed && b.threads == a.threads[t := Thread(Ready, p)]
    && b.queue == a.queue + [t] && b.procList == [p] + a.procList
    && b.current == a.current && b.idle == a.idle && b.zombies == a.zombies && b.enabled == a.enabled
    && b.ticks == a.ticks && b.active == a.active && b.freed == a.freed && b.destroyed == a.destroyed
    && b.procZombies == a.procZombies
  }

  lemma ForkMakesChild(a: Sys)
    requires Core(a) && |a.queue| < SLOTS
    ensures Forked(a, DoFork(a), a.nextPid, a.nextTid)
  {
    hide DoNewProc, DoCreate, ListsOk, AllPlaced, Fresh, ProcsOk, ActiveOk;
    NewProcKeeps(a, true);
    NewProcSpawns(a, true);
    CreateJoins(DoNewProc(a, true), a.nextPid);
    var b := DoFork(a);
    var s := b.procs[a.nextPid].space;
    assert b.procs[a.nextPid].threads == [a.nextTid] + [];
    assert b.procs[a.nextPid] == Proc(false, [a.nextTid], 1, 1, s);
    forall q | q in a.procs
      ensures b.procs[q].space != s
    {
      assert a.procs[q].space == 0 || a.procs[q].space in a.spaces;
    }
  }

  /** A failed creation leaves no trace but used-up ids and, if a space was made, one destruction. */
  lemma FailLeavesNothing(a: Sys, spaceMade: bool)
    requires Core(a)
    ensures var b := DoFail(a, spaceMade);
            && SameThreads(a, b) && b.procs == a.procs && b.procList == a.procList && b.spaces == a.spaces
            && a.nextPid < b.nextPid && a.destroyed <= b.destroyed
            && |b.destroyed| == |a.destroyed| + (if spaceMade then 1 else 0)
            && forall s :: s in b.destroyed && s !in a.destroyed ==> s > 0 && s !in a.spaces && s < b.nextSpace
  {
    hide ListsOk, AllPlaced, ProcsOk, SpacesOk, ActiveOk;
  }

  // ---------- who runs ----------

  /** The running thread is put back, unless it is idle: it yields in the middle of its work. */
  predicate GoesBack(a: Sys) {
    a.current in a.threads && a.threads[a.current].state == Running && a.idle != Some(a.current)
  }

  /** Whoever is to run next. */
  function NextUp(a: Sys): nat {
    if a.queue != [] then a.queue[0] else if GoesBack(a) || a.idle.None? then a.current else a.idle.value
  }

  /** After a yield: the longest waiting thread runs, or the same one if nobody waits, or idle; it runs in the address
      space of its process; the one before is last in the queue, or, dead, the only one to be buried. */
  ghost predicate Switched(a: Sys, b: Sys) {
    && b.current == NextUp(a) && b.idle == a.idle && b.enabled == a.enabled && b.ticks == a.ticks
    && b.queue == (if a.queue == [] then [] else a.queue[1..] + (if GoesBack(a) then [a.current] else []))
    && b.threads.Keys == (set t | t in a.threads && t !in a.zombies)
    && (forall t :: t in b.threads ==> b.threads[t].owner == a.threads[t].owner)
    && (forall t :: t in b.threads && t != b.current ==>
          b.threads[t].state == if t == a.current && GoesBack(a) then Ready else a.threads[t].state)
    && b.current in b.threads && b.threads[b.current].state == Running
    && b.zombies == (if StateOf(a, a.current) == Dead then [a.current] else [])
    && b.freed == a.freed + a.zombies
    && b.threads[b.current].owner in b.procs && b.active == b.procs[b.threads[b.current].owner].space
  }

  /** The switch changes one state and no owner. */
  lemma PickMeans(c: Sys)
    requires c.idle.Some? && (c.queue != [] ==> c.queue[0] in c.threads) && c.idle.value in c.threads
    ensures var b := PickNext(c);
            && b.threads.Keys == c.threads.Keys && b.queue == (if c.queue == [] then [] else c.queue[1..])
            && b.current == (if c.queue != [] then c.queue[0] else c.idle.value)
            && (forall t :: t in b.threads ==> b.threads[t].owner == c.threads[t].owner)
            && (forall t :: t in b.threads && t != b.current ==> b.threads[t].state == c.threads[t].state)
  {
  }

  /** The second half of `sched_yield`, from the state in which nobody is left to bury. */
  lemma HandOverMeans(a: Sys)
    requires Core(a) && a.enabled && Demand(a) <= SLOTS && a.zombies == [] && Leaving(a)
    ensures Switched(a, if Alone(a) then a else PickNext(PutBack(a)))
  {
    hide AllPlaced, Fresh, ProcsOk, SpacesOk, Inv;
    HandOver(a);
    var b := if Alone(a) then a else PickNext(PutBack(a));
    Held(b);
    if !Alone(a) {
      PutBackMeans(a);
      PickMeans(PutBack(a));
      hide PickNext;
    }
  }

  lemma Held(b: Sys)
    requires Inv(b) && b.current != 0
    ensures b.current in b.threads && b.threads[b.current].state == Running && b.threads[b.current].owner in b.procs
            && b.active == b.procs[b.threads[b.current].owner].space
  {
  }

  /** What is put back, and who can be picked. */
  lemma PutBackMeans(b: Sys)
    requires Core(b) && b.enabled && Demand(b) <= SLOTS && b.zombies == [] && Leaving(b)
    ensures var c := PutBack(b);
            && c.current in c.threads && (c.queue != [] ==> c.queue[0] in c.threads) && c.idle.Some?
               && c.idle.value in c.threads && c.threads.Keys == b.threads.Keys && c.idle == b.idle
            && c.queue == b.queue + (if GoesBack(b) then [b.current] else [])
            && (forall t :: t in c.threads ==> c.threads[t].owner == b.threads[t].owner)
            && (forall t :: t in c.threads ==>
                  c.threads[t].state == if t == b.current && GoesBack(b) then Ready else b.threads[t].state)
            && c.zombies == (if b.threads[b.current].state == Dead then [b.current] else []) && c.current == b.current
            && c.enabled == b.enabled && c.ticks == b.ticks && c.freed == b.freed
  {
    hide AllPlaced, Fresh, ProcsOk, SpacesOk, ActiveOk;
    if PutBack(b).queue != [] {
      assert PutBack(b).queue[0] in PutBack(b).queue;
    }
  }

  lemma YieldSwitches(a: Sys)
    requires Core(a) && a.enabled && Leaving(a) && Demand(a) <= SLOTS
    ensures Switched(a, DoYield(a))
  {
    hide Core, Switched, Reaped;
    ReapedKeeps(a);
    YieldIs(a);
    HandOverMeans(Reaped(a));
    SwitchedLikewise(a, Reaped(a), DoYield(a));
  }

  lemma SwitchedLikewise(a: Sys, r: Sys, b: Sys)
    requires Switched(r, b) && r.zombies == [] && r.queue == a.queue && r.current == a.current && r.idle == a.idle
    requires r.enabled == a.enabled && r.ticks == a.ticks && r.threads == Survivors(a)
    requires r.freed == a.freed + a.zombies && a.current in a.threads && a.current !in a.zombies
    ensures Switched(a, b)
  {
  }

  /** A timer tick yields exactly at every multiple of ten of the 64-bit counter; any other only counts. */
  lemma TickYieldsIff(a: Sys)
    requires Inv(a) && Started(a) && a.enabled
    ensures var n := (a.ticks + 1) % U64;
            if n % 10 == 0 then Switched(a.(ticks := n), DoTick(a)) && FreedExactly(a.(ticks := n), DoTick(a))
            else DoTick(a) == a.(ticks := n)
  {
    hide Inv, Core, DoYield, Leaving, Switched, FreedExactly;
    TicksInv(a, NextTick(a.ticks));
    var c := a.(ticks := NextTick(a.ticks));
    StillStarted(a, NextTick(a.ticks));
    AtPlainYield(c);
    YieldSwitches(c);
    YieldFrees(c);
  }

  lemma StillStarted(a: Sys, n: Word)
    requires Started(a)
    ensures Started(a.(ticks := n))
  {
  }

  /** Between two wraps of the counter, ticks alone yield exactly once in ten. */
  lemma {:induction false} TicksYieldExactly(a: Sys, ops: seq<Op>)
    requires Inv(a) && Started(a) && a.enabled && Legal(a, ops) && a.ticks + |ops| < U64
    requires forall op :: op in ops ==> op.Tick?
    ensures Yields(a, ops) == (a.ticks % 10 + |ops|) / 10
    decreases |ops|
  {
    hide Inv, Apply, Enabled, AtYield, NextTick;
    if ops != [] {
      assert ops[0] in ops && forall op :: op in ops[1..] ==> op in ops;
      StepKeeps(a, ops[0]);
      TicksOf(a, ops[0]);
      NoWrap(a.ticks);
      TickYield(a);
      TicksYieldExactly(Apply(a, ops[0]), ops[1..]);
    }
  }

  lemma NoWrap(n: Word)
    requires n + 1 < U64
    ensures NextTick(n) == n + 1
  {
  }

  lemma TickYield(a: Sys)
    requires a.enabled
    ensures AtYield(a, Tick).Some? <==> NextTick(a.ticks) % 10 == 0
  {
  }

  /** The idle thread is taken out of the queue and nothing else changes. */
  lemma SetIdleMeans(a: Sys, t: nat)
    requires Inv(a) && a.idle == None && t in a.queue
    ensures var b := DoSetIdle(a, t);
            && b.idle == Some(t) && t !in b.queue && b == a.(queue := b.queue, idle := b.idle)
            && |b.queue| == |a.queue| - 1 && (forall x :: x in a.queue && x != t ==> x in b.queue)
  {
    hide AllPlaced, Fresh, ProcsOk, SpacesOk, ActiveOk;
    RemovedMeans(a.queue, t);
    hide NoDup;
    assert a.threads[t].state == Ready;
    assert a.threads[t := a.threads[t].(state := Ready)] == a.threads;
  }

  /** The start blocks the bootstrap context for good and runs the first ready thread. */
  lemma StartMeans(a: Sys)
    requires Inv(a) && !a.enabled && a.idle.Some?
    ensures 0 in a.threads
    ensures var y := a.(threads := a.threads[0 := Thread(Blocked, a.threads[0].owner)], enabled := true);
            Switched(y, DoStart(a)) && FreedExactly(y, DoStart(a))
  {
    hide DoYield, Switched, FreedExactly, AllPlaced, Fresh, ProcsOk, SpacesOk;
    BlockedCore(a);
    var y := SetState(a, 0, Blocked).(enabled := true);
    assert a.threads[0].(state := Blocked) == Thread(Blocked, a.threads[0].owner);
    DemandOk(a);
    hide Inv, Core;
    YieldSwitches(y);
    YieldFrees(y);
  }

  /** What `thread_exit` does before it yields: the thread is dead, its process has one living thread less, and is dead
      itself, off the list of processes and on that of the dead, exactly if that was its last. */
  ghost predicate Died(a: Sys, y: Sys) {
    && a.current in a.threads && a.threads[a.current].owner in a.procs
    && var t, p := a.current, a.threads[a.current].owner;
       && y.threads == a.threads[t := Thread(Dead, p)] && y.queue == a.queue && y.current == t && y.idle == a.idle
       && y.zombies == a.zombies && y.enabled == a.enabled && y.ticks == a.ticks && y.active == a.active
       && y.spaces == a.spaces && y.freed == a.freed && y.destroyed == a.destroyed && y.procs.Keys == a.procs.Keys
       && (forall q :: q in a.procs && q != p ==> y.procs[q] == a.procs[q])
       && y.procs[p] == a.procs[p].(aliveCount := a.procs[p].aliveCount - 1, zombie := LastAlive(a))
       && (!LastAlive(a) ==> y.procList == a.procList && y.procZombies == a.procZombies)
       && (LastAlive(a) ==> p !in y.procList && y.procZombies == [p] + a.procZombies
                            && forall q :: q != p ==> (q in y.procList <==> q in a.procList))
  }

  lemma ExitMeans(a: Sys)
    requires Inv(a) && Started(a) && Enabled(a, Exit)
    ensures Died(a, Die(a)) && Switched(Die(a), DoExit(a)) && FreedExactly(Die(a), DoExit(a))
  {
    hide AllPlaced, Fresh, SpacesOk, DoYield, ProcOk, Switched, FreedExactly, Die;
    DieKeeps(a);
    DemandOk(a);
    DiesIs(a);
    hide Inv, Core;
    YieldSwitches(Die(a));
    YieldFrees(Die(a));
  }

  lemma DiesIs(a: Sys)
    requires Inv(a) && a.current != 0
    ensures Died(a, Die(a))
  {
    hide AllPlaced, Fresh, SpacesOk, ProcOk;
    LastDies(a);
    RemovedMeans(a.procList, a.threads[a.current].owner);
    hide NoDup, Removed;
    LivingOwner(a);
  }

  lemma LivingOwner(a: Sys)
    requires Inv(a) && a.current != 0
    ensures a.current in a.threads && a.threads[a.current].owner in a.procs
            && !a.procs[a.threads[a.current].owner].zombie && a.threads[a.current].state == Running
  {
    hide AllPlaced, Fresh, SpacesOk;
    var p := a.threads[a.current].owner;
    assert ProcOk(a.threads, p, a.procs[p]);
    AliveLast(a.threads, p, a.current);
  }
}
