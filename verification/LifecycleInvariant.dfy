/** Every call keeps threads placed, counted and buried in time; the ready queue is large enough exactly while
    at most 64 threads other than idle want to run. */
module LifecycleInvariant {
  import opened Layout
  import opened ReadyQueue
  import opened Lifecycle

  // ---------- processes and threads come into being ----------

  lemma NewProcKeeps(a: Sys, user: bool)
    requires Core(a)
    ensures Core(DoNewProc(a, user)) && a.nextPid in DoNewProc(a, user).procs
            && !DoNewProc(a, user).procs[a.nextPid].zombie
    ensures a.nextPid !in a.procs
    ensures var b := DoNewProc(a, user);
            var s := b.procs[a.nextPid].space;
            if user then s > 0 && s !in a.spaces && b.spaces == a.spaces + {s} else s == 0 && b.spaces == a.spaces
  {
    hide ListsOk, AllPlaced, Fresh, ProcsOk, SpacesOk, ActiveOk;
    NewProcProcs(a, user);
    NewProcSpaces(a, user);
    NewProcLists(a, user);
    NewProcFresh(a, user);
  }

  lemma NewProcProcs(a: Sys, user: bool)
    requires ProcsOk(a) && Fresh(a)
    ensures ProcsOk(DoNewProc(a, user))
  {
    var b, p := DoNewProc(a, user), a.nextPid;
    NoThreads(a, p);
    assert p !in a.procs;
    assert forall x :: x in b.procList <==> x == p || x in a.procList;
    forall q | q in b.procs
      ensures ProcOk(b.threads, q, b.procs[q])
    {
      if q != p {
        assert ProcOk(a.threads, q, a.procs[q]);
      }
    }
  }

  lemma NewProcLists(a: Sys, user: bool)
    requires ListsOk(a) && AllPlaced(a) && ActiveOk(a) && Fresh(a)
    ensures ListsOk(DoNewProc(a, user)) && AllPlaced(DoNewProc(a, user)) && ActiveOk(DoNewProc(a, user))
  {
    assert forall t :: t in a.threads ==> Placed(a, t);
  }

  lemma NewProcFresh(a: Sys, user: bool)
    requires Fresh(a)
    ensures Fresh(DoNewProc(a, user)) && a.nextPid !in a.procs && a.nextSpace !in a.spaces && a.nextSpace > 0
  {
  }

  lemma NoThreads(a: Sys, p: nat)
    requires ProcsOk(a) && Fresh(a) && p == a.nextPid
    ensures AliveOf(a.threads, p) == {} && forall t :: t in a.threads ==> a.threads[t].owner != p
  {
  }

  lemma NewProcSpaces(a: Sys, user: bool)
    requires SpacesOk(a) && Fresh(a)
    ensures SpacesOk(DoNewProc(a, user))
  {
    var b, p := DoNewProc(a, user), a.nextPid;
    forall s | s in b.spaces
      ensures exists q :: q in b.procs && b.procs[q].space == s
    {
      if s in a.spaces {
        var q :| q in a.procs && a.procs[q].space == s;
        assert q in b.procs && b.procs[q].space == s;
      } else {
        assert b.procs[p].space == s;
      }
    }
  }

  lemma PushedMeans(q: seq<nat>, t: nat)
    requires NoDup(q) && t !in q && |q| < SLOTS
    ensures NoDup(Pushed(q, t)) && |Pushed(q, t)| == |q| + 1
    ensures forall x :: x in Pushed(q, t) <==> x in q || x == t
  {
  }

  function Joined(o: Proc, t: nat): Proc {
    o.(threads := [t] + o.threads, threadCount := o.threadCount + 1, aliveCount := o.aliveCount + 1)
  }

  lemma CreateProc(threads: map<nat, Thread>, t: nat, p: nat, q: nat, o: Proc)
    requires t !in threads && ProcOk(threads, q, o) && !(q == p && o.zombie)
    ensures ProcOk(threads[t := Thread(Ready, p)], q, if q == p then Joined(o, t) else o)
  {
    hide AliveOf;
    CreateAlive(threads, t, p, q);
    if q == p {
      CreateThreads(o.threads, t);
    }
  }

  lemma CreateAlive(threads: map<nat, Thread>, t: nat, p: nat, q: nat)
    requires t !in threads
    ensures AliveOf(threads[t := Thread(Ready, p)], q) == AliveOf(threads, q) + (if q == p then {t} else {})
    ensures t !in AliveOf(threads, q)
  {
  }

  lemma CreateThreads(ts: seq<nat>, t: nat)
    requires NoDup(ts) && t !in ts
    ensures NoDup([t] + ts) && forall x :: x in [t] + ts <==> x == t || x in ts
  {
  }

  lemma CreateEach(threads: map<nat, Thread>, procs: map<nat, Proc>, t: nat, p: nat)
    requires t !in threads && p in procs && !procs[p].zombie && forall q :: q in procs ==> ProcOk(threads, q, procs[q])
    ensures forall q :: q in procs ==> ProcOk(threads[t := Thread(Ready, p)], q, procs[p := Joined(procs[p], t)][q])
  {
    forall q | q in procs
      ensures ProcOk(threads[t := Thread(Ready, p)], q, procs[p := Joined(procs[p], t)][q])
    {
      CreateProc(threads, t, p, q, procs[q]);
    }
  }

  lemma CreateProcs(a: Sys, p: nat)
    requires ProcsOk(a) && Fresh(a) && p in a.procs && !a.procs[p].zombie
    ensures ProcsOk(DoCreate(a, p))
  {
    hide ProcOk;
    assert a.nextTid !in a.threads;
    assert DoCreate(a, p).procs == a.procs[p := Joined(a.procs[p], a.nextTid)];
    CreateEach(a.threads, a.procs, a.nextTid, p);
  }

  lemma CreateSpaces(a: Sys, p: nat)
    requires SpacesOk(a) && p in a.procs
    ensures SpacesOk(DoCreate(a, p))
  {
    var b := DoCreate(a, p);
    forall s | s in b.spaces
      ensures exists q :: q in b.procs && b.procs[q].space == s
    {
      var q :| q in a.procs && a.procs[q].space == s;
      assert q in b.procs && b.procs[q].space == s;
    }
  }

  lemma CreateLists(a: Sys, p: nat)
    requires ListsOk(a) && AllPlaced(a) && Fresh(a) && p in a.procs && |a.queue| < SLOTS
    ensures ListsOk(DoCreate(a, p)) && AllPlaced(DoCreate(a, p))
  {
    var b, t := DoCreate(a, p), a.nextTid;
    PushedMeans(a.queue, t);
    forall x | x in b.threads
      ensures Placed(b, x)
    {
      if x != t {
        assert Placed(a, x);
      }
    }
  }

  lemma CreateFresh(a: Sys, p: nat)
    requires Fresh(a) && p in a.procs
    ensures Fresh(DoCreate(a, p)) && a.nextTid !in a.threads
  {
  }

  lemma CreateActive(a: Sys, p: nat)
    requires ActiveOk(a) && p in a.procs && a.nextTid !in a.threads
    ensures ActiveOk(DoCreate(a, p)) && DoCreate(a, p).threads[a.current] == a.threads[a.current]
  {
  }

  lemma CreateCore(a: Sys, p: nat)
    requires Core(a) && p in a.procs && !a.procs[p].zombie && |a.queue| < SLOTS
    ensures Core(DoCreate(a, p)) && Demand(DoCreate(a, p)) == Demand(a) + 1
    ensures a.current in a.threads && a.current in DoCreate(a, p).threads
            && DoCreate(a, p).threads[a.current] == a.threads[a.current]
  {
    hide ListsOk, AllPlaced, Fresh, ProcsOk, SpacesOk, ActiveOk;
    CreateProcs(a, p);
    CreateSpaces(a, p);
    CreateLists(a, p);
    CreateFresh(a, p);
    CreateActive(a, p);
    InThreads(a);
    InThreads(DoCreate(a, p));
  }

  lemma InThreads(a: Sys)
    requires ListsOk(a)
    ensures a.current in a.threads && 0 in a.threads
  {
  }

  lemma CreateDropped(a: Sys, p: nat)
    requires Fresh(a) && ListsOk(a) && p in a.procs && |a.queue| >= SLOTS
    ensures !AllPlaced(DoCreate(a, p))
  {
    var b, t := DoCreate(a, p), a.nextTid;
    assert t in b.threads && !Placed(b, t);
  }

  /** A new thread is one too many exactly if 64 others already want to run. */
  lemma CreateIff(a: Sys, p: nat)
    requires Inv(a) && p in a.procs && !a.procs[p].zombie
    ensures Inv(DoCreate(a, p)) <==> Demand(a) < SLOTS
  {
    hide ListsOk, AllPlaced, Fresh, ProcsOk, SpacesOk, ActiveOk;
    if |a.queue| < SLOTS {
      CreateCore(a, p);
    } else {
      CreateDropped(a, p);
    }
  }

  // ---------- burial of threads ----------

  lemma DestroyedProc(a: Sys, z: nat, q: nat)
    requires ProcsOk(a) && z in a.threads && a.threads[z].state == Dead && z != 0 && q in a.procs
    ensures q in Destroy(a, z).procs && ProcOk(Destroy(a, z).threads, q, Destroy(a, z).procs[q])
    ensures Destroy(a, z).procs[q].zombie == a.procs[q].zombie && Destroy(a, z).procs[q].space == a.procs[q].space
  {
    var b := Destroy(a, z);
    assert ProcOk(a.threads, q, a.procs[q]);
    RemovedMeans(a.procs[q].threads, z);
    assert AliveOf(b.threads, q) == AliveOf(a.threads, q);
  }

  lemma DestroyProcs(a: Sys, z: nat)
    requires ProcsOk(a) && z in a.threads && a.threads[z].state == Dead && z != 0
    ensures ProcsOk(Destroy(a, z)) && Destroy(a, z).procs.Keys == a.procs.Keys
    ensures forall q :: q in a.procs ==> Destroy(a, z).procs[q].space == a.procs[q].space
  {
    forall q | q in a.procs
      ensures q in Destroy(a, z).procs && ProcOk(Destroy(a, z).threads, q, Destroy(a, z).procs[q])
      ensures Destroy(a, z).procs[q].zombie == a.procs[q].zombie && Destroy(a, z).procs[q].space == a.procs[q].space
    {
      DestroyedProc(a, z, q);
    }
  }

  /** Processes with the same spaces keep spaces accounted for. */
  lemma SameSpaces(a: Sys, b: Sys)
    requires SpacesOk(a) && b.spaces == a.spaces && b.procs.Keys == a.procs.Keys
    requires forall q :: q in a.procs ==> b.procs[q].space == a.procs[q].space
    ensures SpacesOk(b)
  {
    forall s | s in b.spaces
      ensures exists q :: q in b.procs && b.procs[q].space == s
    {
      var q :| q in a.procs && a.procs[q].space == s;
      assert q in b.procs && b.procs[q].space == s;
    }
  }

  lemma ZombieHead(a: Sys)
    requires ListsOk(a) && a.zombies != []
    ensures var z := a.zombies[0];
            && z in a.threads && a.threads[z].state == Dead && z != a.current && z != 0 && a.idle != Some(z)
               && z !in a.queue
            && z !in a.zombies[1..]
  {
    assert a.zombies[0] in a.zombies;
  }

  lemma BuryPlaces(a: Sys, b: Sys, z: nat)
    requires ListsOk(a) && AllPlaced(a) && a.zombies != [] && z == a.zombies[0]
    requires b.zombies == a.zombies[1..] && b.queue == a.queue && b.threads == a.threads - {z} && b.current == a.current
    requires b.idle == a.idle
    ensures ListsOk(b) && AllPlaced(b)
  {
    ZombieHead(a);
    forall t | t in b.threads
      ensures Placed(b, t)
    {
      assert Placed(a, t);
      assert t in a.zombies ==> t == z || t in a.zombies[1..];
    }
    assert forall t :: t in b.zombies ==> t in a.zombies && t != z;
  }

  lemma BuryFresh(a: Sys, b: Sys, z: nat)
    requires Fresh(a) && z in a.threads && b.threads == a.threads - {z} && b.freed == a.freed + [z]
             && b.procs.Keys == a.procs.Keys
    requires b.nextTid == a.nextTid && b.nextPid == a.nextPid && b.nextSpace == a.nextSpace && b.spaces == a.spaces
    requires b.destroyed == a.destroyed
    ensures Fresh(b)
  {
  }

  lemma BuryActive(a: Sys, b: Sys, z: nat)
    requires ActiveOk(a) && b.current == a.current != z && b.threads == a.threads - {z} && b.active == a.active
    requires b.procs.Keys == a.procs.Keys && forall q :: q in a.procs ==> b.procs[q].space == a.procs[q].space
    ensures ActiveOk(b)
  {
  }

  /** What burying one thread touches. */
  ghost predicate ThreadBuried(a: Sys, b: Sys) {
    && a.zombies != [] && b.queue == a.queue && b.current == a.current && b.idle == a.idle
       && b.zombies == a.zombies[1..]
    && b.threads == a.threads - {a.zombies[0]} && b.freed == a.freed + [a.zombies[0]] && b.enabled == a.enabled
    && b.procZombies == a.procZombies && b.destroyed == a.destroyed && b.ticks == a.ticks && b.active == a.active
    && b.spaces == a.spaces && b.procs.Keys == a.procs.Keys && b.procList == a.procList
    && b.nextTid == a.nextTid && b.nextPid == a.nextPid && b.nextSpace == a.nextSpace
  }

  lemma BuryThreadIs(a: Sys)
    requires ListsOk(a) && ProcsOk(a) && a.zombies != []
    ensures a.zombies[0] in a.threads && ThreadBuried(a, BuryThread(a)) && ProcsOk(BuryThread(a))
    ensures forall q :: q in a.procs ==> BuryThread(a).procs[q].space == a.procs[q].space
  {
    ZombieHead(a);
    RemovedAbsent(a.queue, a.zombies[0]);
    DestroyProcs(a.(zombies := a.zombies[1..]), a.zombies[0]);
  }

  /** The thread at the head of the zombie list is dead, is neither current nor queued, and goes for good. */
  lemma BuryThreadKeeps(a: Sys)
    requires Core(a) && a.zombies != []
    ensures a.zombies[0] in a.threads && ThreadBuried(a, BuryThread(a)) && Core(BuryThread(a))
  {
    hide ListsOk, AllPlaced, Fresh, ProcsOk, SpacesOk, ActiveOk;
    BuryThreadIs(a);
    ZombieHead(a);
    var b, z := BuryThread(a), a.zombies[0];
    hide BuryThread;
    SameSpaces(a, b);
    BuryPlaces(a, b, z);
    BuryFresh(a, b, z);
    BuryActive(a, b, z);
  }

  function Survivors(a: Sys): map<nat, Thread> {
    map t | t in a.threads && t !in a.zombies :: a.threads[t]
  }

  /** After `reap_zombies`: all dead threads are buried, each once; nobody else is touched. */
  ghost predicate ThreadsReaped(a: Sys, b: Sys) {
    && b.zombies == [] && b.queue == a.queue && b.current == a.current && b.idle == a.idle && b.enabled == a.enabled
    && b.procZombies == a.procZombies && b.destroyed == a.destroyed && b.ticks == a.ticks && b.active == a.active
    && b.spaces == a.spaces && b.procs.Keys == a.procs.Keys && b.threads == Survivors(a)
       && b.freed == a.freed + a.zombies
  }

  lemma ReapedNext(a: Sys, b: Sys, c: Sys)
    requires ThreadBuried(a, b) && ThreadsReaped(b, c)
    ensures ThreadsReaped(a, c)
  {
    assert forall t :: t in a.zombies <==> t == a.zombies[0] || t in a.zombies[1..];
    assert a.freed + a.zombies == a.freed + [a.zombies[0]] + a.zombies[1..];
  }

  lemma NoneReaped(a: Sys)
    requires a.zombies == []
    ensures ThreadsReaped(a, a)
  {
    assert a.threads == Survivors(a);
    assert a.freed == a.freed + a.zombies;
  }

  lemma {:induction false} ReapThreadsKeeps(a: Sys)
    requires Core(a)
    ensures Core(ReapThreads(a)) && ThreadsReaped(a, ReapThreads(a))
    decreases |a.zombies|
  {
    hide Core, Survivors;
    if a.zombies == [] {
      NoneReaped(a);
    } else {
      BuryThreadKeeps(a);
      hide BuryThread;
      ReapThreadsKeeps(BuryThread(a));
      ReapedNext(a, BuryThread(a), ReapThreads(BuryThread(a)));
    }
  }

  // ---------- burial of processes ----------

  /** What a process must be when it is freed: no thread is left, so none is current or queued, and its space
      is neither active nor anyone else's. */
  ghost predicate Buriable(a: Sys, p: nat) {
    && p in a.procs && a.procs[p].zombie
    && (forall t :: t in a.threads ==> a.threads[t].owner != p)
    && (a.procs[p].space != 0 ==> a.procs[p].space != a.active && a.procs[p].space in a.spaces)
    && (a.procs[p].space != 0 ==> forall q :: q in a.procs && q != p ==> a.procs[q].space != a.procs[p].space)
  }

  lemma Unthreaded(a: Sys, i: nat)
    requires Core(a) && i < |a.procZombies| && a.procZombies[i] in a.procs && a.procs[a.procZombies[i]].threadCount == 0
    ensures Buriable(a, a.procZombies[i])
  {
    var p := a.procZombies[i];
    assert p in a.procZombies;
    assert ProcOk(a.threads, p, a.procs[p]);
    assert a.procs[p].threads == [];
  }

  lemma BuryProcs(a: Sys, i: nat)
    requires ProcsOk(a) && i < |a.procZombies| && Buriable(a, a.procZombies[i])
    ensures ProcsOk(BuryProc(a, i))
  {
    hide ProcOk;
    var p := a.procZombies[i];
    RemovedAt(a.procZombies, i);
    RemovedMeans(a.procZombies, p);
    hide Removed;
    assert BuryProc(a, i).procZombies == Removed(a.procZombies, p);
  }

  lemma BuryProcRest(a: Sys, i: nat)
    requires ListsOk(a) && AllPlaced(a) && Fresh(a) && ActiveOk(a) && i < |a.procZombies|
             && Buriable(a, a.procZombies[i])
    ensures var b := BuryProc(a, i); ListsOk(b) && AllPlaced(b) && Fresh(b) && ActiveOk(b)
  {
    assert forall t :: t in a.threads ==> Placed(a, t);
  }

  lemma BuryProcKeeps(a: Sys, i: nat)
    requires Core(a) && i < |a.procZombies| && Buriable(a, a.procZombies[i])
    ensures Core(BuryProc(a, i)) && BuryProc(a, i).active == a.active
  {
    hide ListsOk, AllPlaced, Fresh, ProcsOk, SpacesOk, ActiveOk;
    BuryProcs(a, i);
    BurySpaces(a, i);
    BuryProcRest(a, i);
  }

  lemma BurySpaces(a: Sys, i: nat)
    requires SpacesOk(a) && i < |a.procZombies| && Buriable(a, a.procZombies[i])
    ensures SpacesOk(BuryProc(a, i))
  {
    var p, b := a.procZombies[i], BuryProc(a, i);
    forall s | s in b.spaces
      ensures exists q :: q in b.procs && b.procs[q].space == s
    {
      var q :| q in a.procs && a.procs[q].space == s;
      assert q in b.procs && b.procs[q].space == s;
    }
  }

  lemma ZombieProc(a: Sys, i: nat)
    requires ProcsOk(a) && i < |a.procZombies|
    ensures a.procZombies[i] in a.procs
  {
    assert a.procZombies[i] in a.procZombies;
  }

  lemma {:induction false} ReapProcsKeeps(a: Sys, i: nat)
    requires Core(a)
    ensures var b := ReapProcs(a, i);
            && Core(b) && b.queue == a.queue && b.current == a.current && b.idle == a.idle && b.zombies == a.zombies
            && b.threads == a.threads && b.enabled == a.enabled && b.active == a.active && b.freed == a.freed
               && b.ticks == a.ticks
            && b.procs.Keys <= a.procs.Keys
    decreases |a.procZombies| - i
  {
    hide ListsOk, AllPlaced, Fresh, ProcsOk, SpacesOk, ActiveOk, Buriable;
    if i < |a.procZombies| {
      ZombieProc(a, i);
      if a.procs[a.procZombies[i]].threadCount == 0 {
        Unthreaded(a, i);
        BuryProcKeeps(a, i);
        ReapProcsKeeps(BuryProc(a, i), i);
      } else {
        ReapProcsKeeps(a, i + 1);
      }
    }
  }

  // ---------- the switch ----------

  lemma StateProcs(a: Sys, t: nat, st: ThreadState)
    requires ProcsOk(a) && t in a.threads && a.threads[t].state != Dead && st != Dead
    ensures ProcsOk(SetState(a, t, st))
  {
    var b := SetState(a, t, st);
    forall q | q in b.procs
      ensures ProcOk(b.threads, q, b.procs[q])
    {
      assert ProcOk(a.threads, q, a.procs[q]);
      assert AliveOf(b.threads, q) == AliveOf(a.threads, q);
    }
  }

  /** In the middle of a switch: the old thread is in a list already or is the idle thread, and `hot`, which
      may be in none, is about to run. */
  ghost predicate HandLists(a: Sys, hot: nat) {
    && a.current in a.threads && 0 in a.threads && NoDup(a.queue) && NoDup(a.zombies) && a.idle.Some?
    && (forall t :: t in a.queue ==> t in a.threads && a.threads[t].state == Ready && a.idle != Some(t) && t != 0)
    && (forall t :: t in a.zombies ==> t in a.threads && a.threads[t].state == Dead && a.idle != Some(t) && t != 0)
    && a.idle.value in a.threads && a.idle.value != 0 && a.threads[a.idle.value].state in {Ready, Running}
    && (forall t :: t in a.threads ==>
          t in a.queue || t in a.zombies || a.idle == Some(t) || (t == 0 && a.threads[t].state == Blocked) || t == hot)
  }

  /** How a thread may come to the end of its turn. */
  predicate Leaving(a: Sys) {
    && a.current in a.threads
    && match a.threads[a.current].state
       case Running => a.current != 0
       case Dead => a.current != 0 && a.idle != Some(a.current)
       case Blocked => a.current == 0
       case Ready => false
  }

  lemma PutBackLists(a: Sys)
    requires ListsOk(a) && AllPlaced(a) && a.idle.Some? && Demand(a) <= SLOTS && a.zombies == [] && Leaving(a)
    ensures HandLists(PutBack(a), a.idle.value)
            && |PutBack(a).queue| + (if a.threads[a.current].state == Running then 0 else 1) <= Demand(a)
    ensures PutBack(a).idle == a.idle && PutBack(a).current == a.current && PutBack(a).active == a.active
  {
    var b := PutBack(a);
    if a.threads[a.current].state == Running && a.idle != Some(a.current) {
      PushedMeans(a.queue, a.current);
    }
    forall t | t in b.threads
      ensures t in b.queue || t in b.zombies || b.idle == Some(t) || (t == 0 && b.threads[t].state == Blocked)
    {
      assert Placed(a, t);
    }
  }

  lemma PutBackRest(a: Sys)
    requires Fresh(a) && ProcsOk(a) && SpacesOk(a) && Leaving(a)
    ensures Fresh(PutBack(a)) && ProcsOk(PutBack(a)) && SpacesOk(PutBack(a))
  {
    if a.threads[a.current].state == Running && a.idle != Some(a.current) {
      StateProcs(a, a.current, Ready);
      StateRest(a, a.current, Ready);
    }
    SameSpaces(a, PutBack(a));
  }

  lemma StateRest(a: Sys, t: nat, st: ThreadState)
    requires Fresh(a) && t in a.threads
    ensures Fresh(SetState(a, t, st)) && SetState(a, t, st).threads.Keys == a.threads.Keys
  {
  }

  lemma SwitchLists(a: Sys, next: nat)
    requires HandLists(a, next) && next in a.threads && a.threads[next].state in {Ready, Running} && next != 0
    requires next !in a.zombies && next !in a.queue
    ensures ListsOk(SwitchTo(a, next)) && AllPlaced(SwitchTo(a, next))
  {
  }

  lemma SwitchIs(a: Sys, next: nat)
    requires next in a.threads
    ensures var b := SwitchTo(a, next);
            && b.current == next && next in b.threads && b.threads[next].state == Running
            && b.queue == a.queue && b.idle == a.idle && b.enabled == a.enabled && b.zombies == a.zombies
            && b.freed == a.freed && b.destroyed == a.destroyed && b.procs == a.procs && b.spaces == a.spaces
               && b.ticks == a.ticks
  {
  }

  lemma SwitchActive(a: Sys, next: nat)
    requires ProcsOk(a) && ActiveOk(a) && next in a.threads && next != 0
    ensures ActiveOk(SwitchTo(a, next))
  {
  }

  lemma SwitchKeeps(a: Sys, next: nat)
    requires HandLists(a, next) && ActiveOk(a) && Fresh(a) && ProcsOk(a) && SpacesOk(a) && a.enabled && a.idle.Some?
    requires next in a.threads && a.threads[next].state in {Ready, Running} && next != 0 && next !in a.zombies
             && next !in a.queue
    requires |a.queue| + (if a.idle == Some(next) then 0 else 1) <= SLOTS
    ensures Inv(SwitchTo(a, next)) && SwitchTo(a, next).current == next
  {
    hide HandLists, ListsOk, AllPlaced, Fresh, ProcsOk, SpacesOk, ActiveOk, SwitchTo;
    SwitchLists(a, next);
    StateProcs(a, next, Running);
    SwitchActive(a, next);
    SwitchRest(a, next);
    SwitchIs(a, next);
  }

  lemma SwitchRest(a: Sys, next: nat)
    requires Fresh(a) && ProcsOk(SetState(a, next, Running)) && SpacesOk(a) && next in a.threads
    ensures Fresh(SwitchTo(a, next)) && ProcsOk(SwitchTo(a, next)) && SpacesOk(SwitchTo(a, next))
  {
    hide ProcOk;
    StateRest(a, next, Running);
    SameSpaces(a, SwitchTo(a, next));
  }

  lemma Popped(a: Sys)
    requires a.idle.Some? && HandLists(a, a.idle.value) && a.queue != []
    ensures var b, next := a.(queue := a.queue[1..]), a.queue[0];
            && HandLists(b, next) && next in b.threads && b.threads[next].state == Ready && next != 0
            && next !in b.zombies && next !in b.queue && a.idle != Some(next)
  {
    assert a.queue[0] in a.queue;
    assert forall t :: t in a.queue <==> t == a.queue[0] || t in a.queue[1..];
  }

  lemma IdleOut(a: Sys)
    requires a.idle.Some? && HandLists(a, a.idle.value) && a.queue == []
    ensures var next := a.idle.value;
            && next in a.threads && a.threads[next].state in {Ready, Running} && next != 0
            && next !in a.zombies && next !in a.queue
  {
  }

  lemma PickKeeps(a: Sys)
    requires a.idle.Some? && HandLists(a, a.idle.value) && ActiveOk(a) && Fresh(a) && ProcsOk(a) && SpacesOk(a)
             && a.enabled
    requires |a.queue| <= SLOTS
    requires !(a.queue == [] && a.idle == Some(a.current) && StateOf(a, a.current) == Running)
    ensures Inv(PickNext(a)) && PickNext(a).freed == a.freed && PickNext(a).destroyed == a.destroyed
    ensures PickNext(a).procs == a.procs && PickNext(a).spaces == a.spaces && PickNext(a).ticks == a.ticks
    ensures a.queue != [] ==> PickNext(a).current == a.queue[0] && PickNext(a).queue == a.queue[1..]
    ensures a.queue == [] ==> PickNext(a).current == a.idle.value
    ensures PickNext(a).current != 0
    ensures PickNext(a).idle == a.idle && PickNext(a).enabled && PickNext(a).zombies == a.zombies
  {
    hide HandLists, Fresh, ProcsOk, SpacesOk, ActiveOk, SwitchTo, Inv;
    if a.queue != [] {
      Popped(a);
      PoppedRest(a);
      SwitchKeeps(a.(queue := a.queue[1..]), a.queue[0]);
      SwitchIs(a.(queue := a.queue[1..]), a.queue[0]);
    } else {
      IdleOut(a);
      SwitchKeeps(a, a.idle.value);
      SwitchIs(a, a.idle.value);
    }
  }

  lemma PoppedRest(a: Sys)
    requires Fresh(a) && ProcsOk(a) && SpacesOk(a) && ActiveOk(a) && a.queue != []
    ensures var b := a.(queue := a.queue[1..]); Fresh(b) && ProcsOk(b) && SpacesOk(b) && ActiveOk(b)
  {
    SameSpaces(a, a.(queue := a.queue[1..]));
  }

  /** The thread part of `sched_yield`, after the dead are buried. */
  lemma HandOver(a: Sys)
    requires Core(a) && a.enabled && Demand(a) <= SLOTS && a.zombies == [] && Leaving(a)
    ensures var b := if Alone(a) then a else PickNext(PutBack(a));
            && Inv(b) && b.freed == a.freed && b.destroyed == a.destroyed && b.procs == a.procs && b.spaces == a.spaces
            && b.idle == a.idle && b.enabled && b.ticks == a.ticks && b.current != 0
            && (a.threads[a.current].state == Dead ==> b.current != a.current && b.zombies == [a.current])
            && (a.queue != [] ==>
               b.current == a.queue[0] && |b.queue| >= |a.queue| - 1 && b.queue[..|a.queue| - 1] == a.queue[1..])
  {
    hide Fresh, ProcsOk, SpacesOk, HandLists, Inv;
    if !Alone(a) {
      PutBackLists(a);
      PutBackRest(a);
      PutBackIs(a);
      var c := PutBack(a);
      if c.queue == [] && c.idle == Some(c.current) && StateOf(c, c.current) == Running {
        IdleStays(a);
      } else {
        PickKeeps(c);
        if a.threads[a.current].state == Dead && c.queue != [] {
          assert c.queue[0] in a.queue;
        }
      }
    } else {
      AloneKeeps(a);
    }
  }

  lemma AloneKeeps(a: Sys)
    requires Core(a) && Demand(a) <= SLOTS && Alone(a)
    ensures Inv(a)
  {
  }

  lemma PutBackIs(a: Sys)
    requires ActiveOk(a) && Leaving(a) && a.idle.Some? && Demand(a) <= SLOTS
    ensures var c := PutBack(a);
            && ActiveOk(c) && c.freed == a.freed && c.destroyed == a.destroyed && c.procs == a.procs
               && c.spaces == a.spaces
            && c.enabled == a.enabled && c.ticks == a.ticks && c.idle == a.idle && c.current == a.current
            && (a.threads[a.current].state == Dead ==> c.zombies == [a.current] + a.zombies && c.queue == a.queue)
            && (a.threads[a.current].state != Dead ==> c.zombies == a.zombies)
            && |c.queue| >= |a.queue| && c.queue[..|a.queue|] == a.queue
            && (c.queue == [] && c.idle == Some(c.current) && StateOf(c, c.current) == Running ==> c == a)
  {
  }

  lemma IdleStays(a: Sys)
    requires Core(a) && Demand(a) <= SLOTS && StateOf(a, a.current) == Running && a.idle == Some(a.current)
             && a.queue == []
    requires PutBack(a) == a
    ensures Inv(a) && PickNext(PutBack(a)) == a
  {
  }
}
