/** Whole runs of threads and processes: what a yield may free, that nothing is lost or freed twice, and how
    long a ready thread waits. */
module SafeBurial {
  import opened Layout
  import opened ReadyQueue
  import opened Lifecycle
  import opened LifecycleInvariant

  // ---------- one yield ----------

  /** What `process_reap_zombies` frees, and what it leaves. */
  lemma {:induction false} ReapedProcs(a: Sys, i: nat)
    requires Core(a)
    ensures var b := ReapProcs(a, i);
            && (forall p :: p in a.procs && p !in b.procs ==> Buriable(a, p))
            && (forall p :: p in b.procs ==> p in a.procs && b.procs[p] == a.procs[p])
    decreases |a.procZombies| - i
  {
    hide ListsOk, AllPlaced, Fresh, ProcsOk, SpacesOk, ActiveOk, Buriable;
    if i < |a.procZombies| {
      ZombieProc(a, i);
      if a.procs[a.procZombies[i]].threadCount == 0 {
        Unthreaded(a, i);
        BuryProcKeeps(a, i);
        ReapedProcs(BuryProc(a, i), i);
        forall p | Buriable(BuryProc(a, i), p)
          ensures Buriable(a, p)
        {
          BuriableBefore(a, i, p);
        }
      } else {
        ReapedProcs(a, i + 1);
      }
    }
  }

  lemma BuriableBefore(a: Sys, i: nat, p: nat)
    requires Core(a) && i < |a.procZombies| && a.procZombies[i] in a.procs && Buriable(BuryProc(a, i), p)
    ensures Buriable(a, p)
  {
    hide ListsOk, AllPlaced, Fresh, ProcsOk, ActiveOk;
  }

  /** The state in which `sched_yield` picks the next thread. */
  function Reaped(a: Sys): Sys {
    ReapProcs(ReapThreads(a), 0)
  }

  lemma ReapedKeeps(a: Sys)
    requires Core(a) && Leaving(a)
    ensures var b := Reaped(a);
            && Core(b) && b.zombies == [] && b.queue == a.queue && b.current == a.current && b.idle == a.idle
            && b.enabled == a.enabled && b.ticks == a.ticks && b.active == a.active && b.threads == Survivors(a)
            && b.freed == a.freed + a.zombies && Leaving(b) && Demand(b) == Demand(a)
            && a.current in b.threads && b.threads[a.current] == a.threads[a.current]
  {
    hide AllPlaced, Fresh, ProcsOk, SpacesOk, ActiveOk;
    ReapThreadsKeeps(a);
    ReapProcsKeeps(ReapThreads(a), 0);
    assert a.current !in a.zombies;
  }

  /** `sched_yield` ends with a running thread, everything in place. */
  lemma YieldKeeps(a: Sys)
    requires Core(a) && a.enabled && Leaving(a) && Demand(a) <= SLOTS
    ensures Inv(DoYield(a)) && DoYield(a).enabled && DoYield(a).ticks == a.ticks && DoYield(a).idle == a.idle
            && DoYield(a).current != 0
    ensures a.queue != [] ==> DoYield(a).current == a.queue[0]
    ensures a.queue != [] ==> |DoYield(a).queue| >= |a.queue| - 1 && DoYield(a).queue[..|a.queue| - 1] == a.queue[1..]
  {
    hide Core, Inv, Reaped, Survivors;
    ReapedKeeps(a);
    YieldIs(a);
    HandOver(Reaped(a));
  }

  lemma YieldIs(a: Sys)
    requires a.enabled
    ensures DoYield(a) == if Alone(Reaped(a)) then Reaped(a) else PickNext(PutBack(Reaped(a)))
  {
  }

  /** A process that may be freed: dead, all its threads dead and off the CPU, its space not active. */
  ghost predicate RightlyBuried(a: Sys, p: nat) {
    && p in a.procs && a.procs[p].zombie && (forall t :: t in a.threads && a.threads[t].owner == p ==> t in a.zombies)
    && (a.procs[p].space != 0 ==> a.procs[p].space != a.active)
  }

  /** Who is freed in a yield: exactly the threads on the zombie list, each of them dead, not current, not queued
      and never freed before; and processes that are dead with every thread of theirs among the freed, whose
      space is neither active before nor after. */
  lemma SafeBurialStep(a: Sys)
    requires Core(a) && a.enabled && Leaving(a) && Demand(a) <= SLOTS
    ensures var b := DoYield(a);
            && b.freed == a.freed + a.zombies
            && (forall t :: t in a.zombies ==>
               t in a.threads && a.threads[t].state == Dead && t != a.current && t !in a.queue && t !in a.freed)
            && (forall p :: p in a.procs && p !in b.procs ==> RightlyBuried(a, p))
            && (b.active == 0 || b.active in b.spaces)
            && (a.threads[a.current].state == Dead ==> a.current in b.zombies && b.current != a.current)
  {
    hide AllPlaced, Survivors, DoYield, ReapThreads, ReapProcs, PickNext, PutBack, Reaped;
    ReapedKeeps(a);
    YieldIs(a);
    HandOver(Reaped(a));
    YieldKeeps(a);
    ReapedFromThreads(a);
    SpaceActive(DoYield(a));
  }

  lemma SpaceActive(b: Sys)
    requires Inv(b)
    ensures b.active == 0 || b.active in b.spaces
  {
  }

  lemma ReapedFromThreads(a: Sys)
    requires Core(a)
    ensures forall p :: p in a.procs && p !in Reaped(a).procs ==> RightlyBuried(a, p)
  {
    hide Core, ReapProcs, Buriable, RightlyBuried, Survivors;
    ReapThreadsKeeps(a);
    ThreadsSame(a);
    hide ReapThreads;
    var b := ReapThreads(a);
    ReapedProcs(b, 0);
    forall p | p in a.procs && p !in Reaped(a).procs
      ensures RightlyBuried(a, p)
    {
      BuriedBefore(a, b, p);
    }
  }

  lemma BuriedBefore(a: Sys, b: Sys, p: nat)
    requires ThreadsReaped(a, b) && Buriable(b, p) && p in a.procs
    requires b.procs[p].space == a.procs[p].space && b.procs[p].zombie == a.procs[p].zombie
    ensures RightlyBuried(a, p)
  {
    forall t | t in a.threads && a.threads[t].owner == p
      ensures t in a.zombies
    {
      if t !in a.zombies {
        SurvivorIn(a, t);
      }
    }
  }

  lemma SurvivorIn(a: Sys, t: nat)
    requires t in a.threads && t !in a.zombies
    ensures t in Survivors(a) && Survivors(a)[t] == a.threads[t]
  {
  }

  /** Burying threads leaves a process's space and death as they are. */
  lemma {:induction false} ThreadsSame(a: Sys)
    requires Core(a)
    ensures forall p :: p in a.procs ==> p in ReapThreads(a).procs && ReapThreads(a).procs[p].space == a.procs[p].space
                                         && ReapThreads(a).procs[p].zombie == a.procs[p].zombie
    decreases |a.zombies|
  {
    hide AllPlaced, Fresh, ProcsOk, SpacesOk, ActiveOk;
    if a.zombies != [] {
      BuryThreadKeeps(a);
      ThreadsSame(BuryThread(a));
    }
  }

  // ---------- the calls ----------

  datatype Op = NewProc(user: bool) | Create(p: nat) | Fork | Fail(spaceMade: bool) | SetIdle(t: nat) | Start | Tick
      | Yield | Exit

  /** When the kernel makes each call: before `sched_start` it sets up the idle thread, after it threads run;
      only a thread other than idle exits or forks; there is room for one more thread. */
  ghost predicate Enabled(a: Sys, op: Op) {
    match op
    case NewProc(_) => true
    case Create(p) => p in a.procs && !a.procs[p].zombie && Demand(a) < SLOTS
    case Fork => a.enabled && a.current != 0 && Demand(a) < SLOTS
    case Fail(_) => true
    case SetIdle(t) => !a.enabled && a.idle == None && t in a.queue
    case Start => !a.enabled && a.idle.Some?
    case Tick => true
    case Yield => true
    case Exit => a.enabled && a.current != 0 && a.idle != Some(a.current)
  }

  ghost function Apply(a: Sys, op: Op): Sys
    requires Enabled(a, op)
  {
    match op
    case NewProc(user) => DoNewProc(a, user)
    case Create(p) => DoCreate(a, p)
    case Fork => DoFork(a)
    case Fail(spaceMade) => DoFail(a, spaceMade)
    case SetIdle(t) => DoSetIdle(a, t)
    case Start => DoStart(a)
    case Tick => DoTick(a)
    case Yield => DoYield(a)
    case Exit => DoExit(a)
  }

  /** A running thread can be made to yield. */
  lemma RunningLeaves(a: Sys)
    requires Inv(a) && a.enabled && a.current != 0
    ensures Leaving(a)
  {
  }

  /** After the start the bootstrap context never runs again. */
  ghost predicate Started(a: Sys) {
    a.enabled ==> a.current != 0
  }

  lemma NewProcInv(a: Sys, user: bool)
    requires Inv(a)
    ensures Inv(DoNewProc(a, user)) && Demand(DoNewProc(a, user)) == Demand(a)
  {
    hide ListsOk, AllPlaced, Fresh, ProcsOk, SpacesOk, ActiveOk;
    NewProcKeeps(a, user);
  }

  lemma ForkInv(a: Sys)
    requires Inv(a) && Demand(a) < SLOTS
    ensures Inv(DoFork(a)) && a.nextPid in DoNewProc(a, true).procs
  {
    NewProcInv(a, true);
    NewProcKeeps(a, true);
    CreateIff(DoNewProc(a, true), a.nextPid);
  }

  lemma FailInv(a: Sys, spaceMade: bool)
    requires Inv(a)
    ensures Inv(DoFail(a, spaceMade))
  {
    var b := DoFail(a, spaceMade);
    FailFresh(a, spaceMade);
    SameSpaces(a, b);
    FailLists(a, spaceMade);
    hide ListsOk, AllPlaced, Fresh, ProcsOk, SpacesOk, ActiveOk;
  }

  lemma FailFresh(a: Sys, spaceMade: bool)
    requires Fresh(a)
    ensures Fresh(DoFail(a, spaceMade))
  {
    assert forall i :: 0 <= i < |a.destroyed| ==> a.destroyed[i] in a.destroyed;
  }

  lemma FailLists(a: Sys, spaceMade: bool)
    requires ListsOk(a) && AllPlaced(a) && ProcsOk(a) && ActiveOk(a)
    ensures var b := DoFail(a, spaceMade); ListsOk(b) && AllPlaced(b) && ProcsOk(b) && ActiveOk(b)
  {
    hide ProcOk;
    forall t | t in a.threads
      ensures Placed(DoFail(a, spaceMade), t)
    {
      assert Placed(a, t);
    }
  }

  lemma SetIdleInv(a: Sys, t: nat)
    requires Inv(a) && !a.enabled && a.idle == None && t in a.queue
    ensures Inv(DoSetIdle(a, t))
  {
    hide ListsOk, AllPlaced, Fresh, ProcsOk, SpacesOk, ActiveOk;
    SetIdleLists(a, t);
    InThreads(a);
    StateProcs(a, t, Ready);
    StateRest(a, t, Ready);
    SetIdleRest(a, t);
    SameSpaces(a, DoSetIdle(a, t));
  }

  lemma SetIdleLists(a: Sys, t: nat)
    requires ListsOk(a) && AllPlaced(a) && a.idle == None && t in a.queue
    ensures ListsOk(DoSetIdle(a, t)) && AllPlaced(DoSetIdle(a, t)) && t != a.current && t != 0 && a.current in a.threads
    ensures Demand(DoSetIdle(a, t)) <= Demand(a) && t in a.threads && a.threads[t].state == Ready
  {
    RemovedMeans(a.queue, t);
    forall x | x in a.threads
      ensures Placed(DoSetIdle(a, t), x)
    {
      assert Placed(a, x);
    }
  }

  lemma SetIdleRest(a: Sys, t: nat)
    requires ActiveOk(a) && a.current in a.threads && a.threads[a.current].state == Running
    requires t in a.threads && t != a.current && t != 0 && 0 in a.threads
    requires ProcsOk(SetState(a, t, Ready)) && Fresh(SetState(a, t, Ready))
    ensures var b := DoSetIdle(a, t);
            && ProcsOk(b) && Fresh(b) && ActiveOk(b) && b.current == a.current && b.current in b.threads
            && b.threads[b.current] == a.threads[b.current] && 0 in b.threads && b.threads[0] == a.threads[0]
            && b.procs == a.procs && b.spaces == a.spaces && b.enabled == a.enabled && b.idle == Some(t)
  {
    hide ProcOk;
  }

  lemma StartInv(a: Sys)
    requires Inv(a) && !a.enabled && a.idle.Some?
    ensures Inv(DoStart(a)) && Started(DoStart(a)) && DoStart(a).enabled
  {
    var b := SetState(a, 0, Blocked).(enabled := true);
    BlockedCore(a);
    hide Core;
    YieldKeeps(b);
  }

  lemma BlockedCore(a: Sys)
    requires Inv(a) && !a.enabled && a.idle.Some?
    ensures var b := SetState(a, 0, Blocked).(enabled := true); Core(b) && Leaving(b) && Demand(b) == Demand(a)
  {
    StateProcs(a, 0, Blocked);
    StateRest(a, 0, Blocked);
    SameSpaces(a, SetState(a, 0, Blocked).(enabled := true));
    assert forall t :: t in a.threads ==> Placed(a, t);
  }

  /** `thread_exit` up to its yield: the last thread of a process takes the process with it. */
  lemma DieKeeps(a: Sys)
    requires Inv(a) && a.enabled && a.current != 0 && a.idle != Some(a.current)
    ensures Core(Die(a)) && Leaving(Die(a)) && Demand(Die(a)) == Demand(a) && Die(a).enabled && Die(a).ticks == a.ticks
    ensures Die(a).queue == a.queue && Die(a).zombies == a.zombies && Die(a).current == a.current
  {
    DieProcs(a);
    DieRest(a);
    hide ListsOk, AllPlaced, Fresh, ProcsOk, SpacesOk, ActiveOk;
  }

  lemma DieAlive(threads: map<nat, Thread>, t: nat, q: nat)
    requires t in threads && threads[t].state == Running
    ensures var more := threads[t := threads[t].(state := Dead)];
            AliveOf(more, q) == AliveOf(threads, q) - (if threads[t].owner == q then {t} else {})
            && (threads[t].owner == q ==> t in AliveOf(threads, q))
  {
  }

  function Bereaved(o: Proc): Proc {
    o.(aliveCount := o.aliveCount - 1, zombie := o.zombie || o.aliveCount - 1 <= 0)
  }

  lemma DieIs(a: Sys)
    requires a.current in a.threads && a.threads[a.current].owner in a.procs
             && !a.procs[a.threads[a.current].owner].zombie
    ensures var b, p := Die(a), a.threads[a.current].owner;
            && b.threads == a.threads[a.current := a.threads[a.current].(state := Dead)]
            && b.procs == a.procs[p := Bereaved(a.procs[p])] && b.spaces == a.spaces
            && b.procList == (if Bereaved(a.procs[p]).zombie then Removed(a.procList, p) else a.procList)
            && b.procZombies == (if Bereaved(a.procs[p]).zombie then [p] + a.procZombies else a.procZombies)
  {
  }

  lemma DieProc(threads: map<nat, Thread>, t: nat, q: nat, o: Proc)
    requires t in threads && threads[t].state == Running && ProcOk(threads, q, o)
    ensures ProcOk(threads[t := threads[t].(state := Dead)], q, if threads[t].owner == q then Bereaved(o) else o)
    ensures threads[t].owner == q ==> !o.zombie
  {
    DieAlive(threads, t, q);
    hide AliveOf;
  }

  /** Each process after one thread has died. */
  ghost predicate OneDied(a: Sys, b: Sys, p: nat) {
    && a.current in a.threads && p in a.procs
       && b.threads == a.threads[a.current := a.threads[a.current].(state := Dead)]
    && b.procs == a.procs[p := Bereaved(a.procs[p])] && p == a.threads[a.current].owner
  }

  lemma DieEach(a: Sys, b: Sys, p: nat)
    requires OneDied(a, b, p) && a.threads[a.current].state == Running && forall q :: q in a.procs ==>
             ProcOk(a.threads, q, a.procs[q])
    ensures forall q :: q in b.procs ==> ProcOk(b.threads, q, b.procs[q])
  {
    forall q | q in b.procs
      ensures ProcOk(b.threads, q, b.procs[q])
    {
      DieProc(a.threads, a.current, q, a.procs[q]);
    }
  }

  lemma DieProcs(a: Sys)
    requires ProcsOk(a) && SpacesOk(a) && a.current in a.threads && a.threads[a.current].state == Running
             && a.current != 0
    ensures ProcsOk(Die(a)) && SpacesOk(Die(a)) && Die(a).procs.Keys == a.procs.Keys
    ensures forall q :: q in a.procs ==> Die(a).procs[q].space == a.procs[q].space
  {
    hide ProcOk, SpacesOk;
    var p := a.threads[a.current].owner;
    DieProc(a.threads, a.current, p, a.procs[p]);
    DieIs(a);
    hide Die, ProcsOk;
    Died(a, Die(a), p);
  }

  lemma Died(a: Sys, b: Sys, p: nat)
    requires ProcsOk(a) && SpacesOk(a) && OneDied(a, b, p) && b.spaces == a.spaces
    requires a.threads[a.current].state == Running && a.current != 0 && !a.procs[p].zombie
    requires b.procList == (if Bereaved(a.procs[p]).zombie then Removed(a.procList, p) else a.procList)
    requires b.procZombies == (if Bereaved(a.procs[p]).zombie then [p] + a.procZombies else a.procZombies)
    ensures ProcsOk(b) && SpacesOk(b) && b.procs.Keys == a.procs.Keys
    ensures forall q :: q in a.procs ==> b.procs[q].space == a.procs[q].space
  {
    hide ProcOk, SpacesOk, NoDup, Removed;
    DieEach(a, b, p);
    DieLists(a, b, p);
    SameSpaces(a, b);
  }

  lemma DieLists(a: Sys, b: Sys, p: nat)
    requires NoDup(a.procList) && NoDup(a.procZombies) && p in a.procs && !a.procs[p].zombie
    requires forall q :: q in a.procList <==> q in a.procs && !a.procs[q].zombie
    requires forall q :: q in a.procZombies <==> q in a.procs && a.procs[q].zombie
    requires b.procs == a.procs[p := Bereaved(a.procs[p])]
    requires b.procList == (if Bereaved(a.procs[p]).zombie then Removed(a.procList, p) else a.procList)
    requires b.procZombies == (if Bereaved(a.procs[p]).zombie then [p] + a.procZombies else a.procZombies)
    ensures NoDup(b.procList) && NoDup(b.procZombies)
    ensures forall q :: q in b.procList <==> q in b.procs && !b.procs[q].zombie
    ensures forall q :: q in b.procZombies <==> q in b.procs && b.procs[q].zombie
  {
    hide Removed, NoDup;
    if Bereaved(a.procs[p]).zombie {
      RemovedMeans(a.procList, p);
      Prepended(a.procZombies, p);
    }
  }

  lemma Prepended(q: seq<nat>, p: nat)
    requires NoDup(q) && p !in q
    ensures NoDup([p] + q) && forall x :: x in [p] + q <==> x == p || x in q
  {
  }

  lemma DieRest(a: Sys)
    requires Inv(a) && a.enabled && a.current != 0 && a.idle != Some(a.current)
    requires Die(a).procs.Keys == a.procs.Keys && forall q :: q in a.procs ==> Die(a).procs[q].space == a.procs[q].space
    ensures var b := Die(a);
            && ListsOk(b) && AllPlaced(b) && Fresh(b) && ActiveOk(b) && Leaving(b) && Demand(b) == Demand(a)
               && b.enabled && b.idle == a.idle
            && b.queue == a.queue && b.zombies == a.zombies && b.current == a.current && b.ticks == a.ticks
            && b.threads[0] == a.threads[0]
  {
    hide ProcsOk, SpacesOk, ProcOk;
    assert forall t :: t in a.threads ==> Placed(a, t);
  }

  /** Every call keeps the invariant. */
  lemma StepKeeps(a: Sys, op: Op)
    requires Inv(a) && Started(a) && Enabled(a, op)
    ensures Inv(Apply(a, op)) && Started(Apply(a, op))
  {
    hide Inv, Core;
    match op {
      case NewProc(user) =>
        NewProcInv(a, user);
      case Create(p) =>
        CreateIff(a, p);
      case Fork =>
        ForkInv(a);
      case Fail(spaceMade) =>
        FailInv(a, spaceMade);
      case SetIdle(t) =>
        SetIdleInv(a, t);
      case Start =>
        StartInv(a);
      case Tick =>
        TickKeeps(a);
      case Yield =>
        PlainYield(a);
      case Exit =>
        ExitKeeps(a);
    }
  }

  lemma PlainYield(a: Sys)
    requires Inv(a) && Started(a)
    ensures Inv(DoYield(a)) && Started(DoYield(a))
  {
    if a.enabled {
      RunningLeaves(a);
      YieldKeeps(a);
    }
  }

  lemma TicksLists(a: Sys, n: Word)
    requires ListsOk(a) && AllPlaced(a) && Fresh(a) && ActiveOk(a)
    ensures var b := a.(ticks := n); ListsOk(b) && AllPlaced(b) && Fresh(b) && ActiveOk(b)
  {
    assert forall t :: t in a.threads ==> Placed(a, t);
  }

  lemma TicksProcs(a: Sys, n: Word)
    requires ProcsOk(a) && SpacesOk(a)
    ensures ProcsOk(a.(ticks := n)) && SpacesOk(a.(ticks := n))
  {
    hide ProcOk;
    SameSpaces(a, a.(ticks := n));
  }

  lemma TicksInv(a: Sys, n: Word)
    requires Inv(a)
    ensures Inv(a.(ticks := n))
  {
    hide ListsOk, AllPlaced, Fresh, ProcsOk, SpacesOk, ActiveOk;
    TicksLists(a, n);
    TicksProcs(a, n);
  }

  lemma TickKeeps(a: Sys)
    requires Inv(a) && Started(a)
    ensures Inv(DoTick(a)) && Started(DoTick(a))
  {
    hide Inv, DoYield, NextTick, QuantumEnds;
    TicksInv(a, NextTick(a.ticks));
    PlainYield(a.(ticks := NextTick(a.ticks)));
  }

  lemma ExitKeeps(a: Sys)
    requires Inv(a) && a.enabled && a.current != 0 && a.idle != Some(a.current)
    ensures Inv(DoExit(a)) && Started(DoExit(a))
  {
    DieKeeps(a);
    YieldKeeps(Die(a));
  }

  // ---------- whole runs ----------

  ghost predicate Legal(a: Sys, ops: seq<Op>)
    decreases |ops|
  {
    ops == [] || (Enabled(a, ops[0]) && Legal(Apply(a, ops[0]), ops[1..]))
  }

  ghost function Run(a: Sys, ops: seq<Op>): Sys
    requires Legal(a, ops)
    decreases |ops|
  {
    if ops == [] then a else Run(Apply(a, ops[0]), ops[1..])
  }

  lemma {:induction false} RunKeeps(a: Sys, ops: seq<Op>)
    requires Inv(a) && Started(a) && Legal(a, ops)
    ensures Inv(Run(a, ops)) && Started(Run(a, ops))
    decreases |ops|
  {
    hide Inv, Started, Apply, Enabled;
    if ops != [] {
      StepKeeps(a, ops[0]);
      RunKeeps(Apply(a, ops[0]), ops[1..]);
    }
  }

  lemma InitInv()
    ensures Inv(Init()) && Started(Init())
  {
  }

  function Bit(b: bool): nat { if b then 1 else 0 }

  /** In how many of the places a thread can be it is: on the CPU, queued and ready, dead and waiting for burial,
      idle in the background, retired as the bootstrap context. */
  function Places(a: Sys, t: nat): nat {
    Bit(t == a.current) + Bit(t in a.queue && StateOf(a, t) == Ready) + Bit(t in a.zombies && StateOf(a, t) == Dead)
    + Bit(a.idle == Some(t) && t != a.current) + Bit(t == 0 && t != a.current && StateOf(a, t) == Blocked)
  }

  lemma OnePlace(a: Sys, t: nat)
    requires Inv(a) && t in a.threads
    ensures Places(a, t) == 1 && t !in a.freed
  {
    assert Placed(a, t);
  }

  /** Over every run from boot: each thread is freed or in exactly one place, and nothing is freed twice. */
  lemma Conservation(ops: seq<Op>, t: nat)
    requires Legal(Init(), ops)
    ensures var a := Run(Init(), ops);
            (t in a.threads ==> Places(a, t) == 1 && t !in a.freed) && NoDup(a.queue) && NoDup(a.freed)
                && NoDup(a.destroyed)
  {
    InitInv();
    RunKeeps(Init(), ops);
    if t in Run(Init(), ops).threads {
      OnePlace(Run(Init(), ops), t);
    }
  }

  /** The state that a call hands to `sched_yield`, if it does. */
  function AtYield(a: Sys, op: Op): Option<Sys> {
    match op
    case Yield => if a.enabled then Some(a) else None
    case Tick => if a.enabled && QuantumEnds(NextTick(a.ticks)) then Some(a.(ticks := NextTick(a.ticks))) else None
    case Exit => Some(Die(a))
    case Start => Some(SetState(a, 0, Blocked).(enabled := true))
    case _ => None
  }

  lemma AtYieldKeeps(a: Sys, op: Op)
    requires Inv(a) && Started(a) && Enabled(a, op) && AtYield(a, op).Some?
    ensures var y := AtYield(a, op).value;
            Core(y) && y.enabled && Leaving(y) && Demand(y) <= SLOTS && Apply(a, op) == DoYield(y)
                && y.zombies == a.zombies
  {
    hide Inv, Core, DoYield, NextTick, QuantumEnds, Die, SetState;
    match op {
      case Yield => AtPlainYield(a);
      case Tick =>
        TicksInv(a, NextTick(a.ticks));
        AtPlainYield(a.(ticks := NextTick(a.ticks)));
      case Exit => DieKeeps(a); DemandOk(a);
      case Start => BlockedCore(a); DemandOk(a); ZombiesOf(a);
      case _ =>
    }
  }

  lemma ZombiesOf(a: Sys)
    ensures SetState(a, 0, Blocked).(enabled := true).zombies == a.zombies
  {
  }

  lemma DemandOk(a: Sys)
    requires Inv(a)
    ensures Demand(a) <= SLOTS
  {
  }

  lemma AtPlainYield(a: Sys)
    requires Inv(a) && Started(a) && a.enabled
    ensures Core(a) && Leaving(a) && Demand(a) <= SLOTS
  {
  }

  /** At every yield of every run, whoever asks for it, only what is safe to free is freed. */
  lemma BurialAlwaysSafe(ops: seq<Op>, op: Op)
    requires Legal(Init(), ops) && Enabled(Run(Init(), ops), op) && AtYield(Run(Init(), ops), op).Some?
    ensures var y := AtYield(Run(Init(), ops), op).value;
            var b := Apply(Run(Init(), ops), op);
            && b.freed == y.freed + y.zombies
            && (forall t :: t in y.zombies ==>
               t in y.threads && y.threads[t].state == Dead && t != y.current && t !in y.queue && t !in y.freed)
            && (forall p :: p in y.procs && p !in b.procs ==> RightlyBuried(y, p))
            && (b.active == 0 || b.active in b.spaces)
  {
    hide Inv, Core, RightlyBuried, DoYield, AtYield, Leaving;
    InitInv();
    RunKeeps(Init(), ops);
    AtYieldKeeps(Run(Init(), ops), op);
    SafeBurialStep(AtYield(Run(Init(), ops), op).value);
  }

  /** With 64 threads waiting, the running one that yields is dropped: it is ready, and nowhere. */
  lemma OverfullLoses(a: Sys)
    requires Core(a) && a.enabled && Leaving(a) && StateOf(a, a.current) == Running && a.idle != Some(a.current)
    requires |a.queue| == SLOTS
    ensures var b := DoYield(a); a.current in b.threads && StateOf(b, a.current) == Ready && Places(b, a.current) == 0
  {
    hide AllPlaced, Fresh, ProcsOk, SpacesOk, ActiveOk, DoYield, Reaped, Survivors;
    ReapedKeeps(a);
    YieldIs(a);
    var b := Reaped(a);
    assert b.queue[0] in b.queue;
  }

  lemma RunStep(a: Sys, op: Op, rest: seq<Op>)
    requires Enabled(a, op) && Legal(Apply(a, op), rest)
    ensures Legal(a, [op] + rest) && Run(a, [op] + rest) == Run(Apply(a, op), rest)
  {
    assert ([op] + rest)[1..] == rest;
  }

  /** The scheduler runs a thread of process `p` beside `n` waiting ones. */
  ghost predicate Waiting(a: Sys, p: nat, n: nat) {
    && Inv(a) && a.enabled && a.idle.Some? && a.idle != Some(a.current) && a.current != 0 && |a.queue| == n
    && p in a.procs && !a.procs[p].zombie
  }

  lemma OneMore(a: Sys, p: nat)
    requires Waiting(a, p, |a.queue|) && Demand(a) < SLOTS
    ensures Enabled(a, Op.Create(p)) && Waiting(DoCreate(a, p), p, |a.queue| + 1) && DoCreate(a, p).current == a.current
  {
    hide Inv;
    CreateIff(a, p);
  }

  /** Threads can be added until 64 want to run. */
  lemma {:induction false} Fill(a: Sys, p: nat) returns (ops: seq<Op>)
    requires Waiting(a, p, |a.queue|) && |a.queue| < SLOTS
    ensures Legal(a, ops) && Waiting(Run(a, ops), p, SLOTS - 1)
    decreases SLOTS - |a.queue|
  {
    hide Inv, Waiting, DoCreate;
    ops := [];
    if |a.queue| < SLOTS - 1 {
      NotFull(a, p);
      OneMore(a, p);
      Longer(DoCreate(a, p), p, |a.queue| + 1);
      var rest := Fill(DoCreate(a, p), p);
      RunStep(a, Op.Create(p), rest);
      ops := [Op.Create(p)] + rest;
    }
  }

  lemma NotFull(a: Sys, p: nat)
    requires Waiting(a, p, |a.queue|)
    ensures Demand(a) == |a.queue| + 1
  {
    hide Inv;
  }

  lemma Longer(a: Sys, p: nat, n: nat)
    requires Waiting(a, p, n)
    ensures |a.queue| == n
  {
    hide Inv;
  }

  /** The calls of a boot: a process, its first thread as idle, a second one, and off it goes. */
  function Boot(): seq<Op> {
    [NewProc(false), Op.Create(1), SetIdle(1), Op.Create(1), Start]
  }

  lemma Boots()
    ensures Legal(Init(), Boot()) && Waiting(Run(Init(), Boot()), 1, 0)
  {
    hide Inv, DoYield;
    InitInv();
    var a1 := DoNewProc(Init(), false);
    var a2 := DoCreate(a1, 1);
    var a3 := DoSetIdle(a2, 1);
    var a4 := DoCreate(a3, 1);
    assert a2.queue == [1] && a4.queue == [2] && a4.idle == Some(1);
    StartsAlone(a4, 2);
    var a5 := DoStart(a4);
    assert Legal(a5, []) && Run(a5, []) == a5;
    RunStep(a4, Start, []);
    assert [Start] + [] == [Start];
    RunStep(a3, Op.Create(1), [Start]);
    RunStep(a2, SetIdle(1), [Op.Create(1)] + [Start]);
    RunStep(a1, Op.Create(1), [SetIdle(1)] + ([Op.Create(1)] + [Start]));
    RunStep(Init(), NewProc(false), [Op.Create(1)] + ([SetIdle(1)] + ([Op.Create(1)] + [Start])));
    assert Boot() == [NewProc(false)] + ([Op.Create(1)] + ([SetIdle(1)] + ([Op.Create(1)] + [Start])));
    RunKeeps(Init(), Boot());
  }

  /** `sched_start` with one thread waiting and nothing to bury. */
  lemma StartsAlone(a: Sys, t: nat)
    requires a.queue == [t] && a.zombies == [] && a.procZombies == [] && a.current == 0 && 0 in a.threads && t != 0
    ensures var b := DoStart(a);
            b.queue == [] && b.current == t && b.idle == a.idle && b.procs == a.procs && b.enabled
  {
  }

  /** A run of ordinary calls after which 64 threads want to run, and one thread too many makes a running one vanish. */
  lemma OverfullReachable() returns (ops: seq<Op>)
    ensures Legal(Init(), ops) && 1 in Run(Init(), ops).procs && Demand(Run(Init(), ops)) == SLOTS
    ensures var a := Run(Init(), ops);
            var b := DoYield(DoCreate(a, 1));
            a.current in b.threads && StateOf(b, a.current) == Ready && Places(b, a.current) == 0
  {
    hide Inv, DoYield, Places;
    Boots();
    var rest := Fill(Run(Init(), Boot()), 1);
    ops := Boot() + rest;
    RunAppend(Init(), Boot(), rest);
    TooMany(Run(Init(), ops));
  }

  lemma {:induction false} RunAppend(a: Sys, ops: seq<Op>, rest: seq<Op>)
    requires Legal(a, ops) && Legal(Run(a, ops), rest)
    ensures Legal(a, ops + rest) && Run(a, ops + rest) == Run(Run(a, ops), rest)
    decreases |ops|
  {
    hide Enabled, Apply;
    if ops == [] {
      assert ops + rest == rest;
    } else {
      assert (ops + rest)[1..] == ops[1..] + rest;
      RunAppend(Apply(a, ops[0]), ops[1..], rest);
    }
  }

  lemma TooMany(a: Sys)
    requires Waiting(a, 1, SLOTS - 1)
    ensures Demand(a) == SLOTS
    ensures var b := DoYield(DoCreate(a, 1));
            a.current in b.threads && StateOf(b, a.current) == Ready && Places(b, a.current) == 0
  {
    hide Core, DoYield, Places, Leaving;
    var c := DoCreate(a, 1);
    CreateCore(a, 1);
    RunningOff(c);
    OverfullLoses(c);
  }

  lemma RunningOff(c: Sys)
    requires Core(c) && c.enabled && c.current != 0 && c.current in c.threads && c.threads[c.current].state == Running
    ensures Leaving(c)
  {
  }

  // ---------- bounded waiting ----------

  function YieldsIn(a: Sys, op: Op): nat {
    if AtYield(a, op).Some? then 1 else 0
  }

  /** How many yields a run contains. */
  ghost function Yields(a: Sys, ops: seq<Op>): nat
    requires Legal(a, ops)
    decreases |ops|
  {
    if ops == [] then 0 else YieldsIn(a, ops[0]) + Yields(Apply(a, ops[0]), ops[1..])
  }

  function Ticks(ops: seq<Op>): nat {
    if ops == [] then 0 else (if ops[0].Tick? then 1 else 0) + Ticks(ops[1..])
  }

  ghost predicate GetsCpu(a: Sys, ops: seq<Op>, t: nat)
    requires Legal(a, ops)
    decreases |ops|
  {
    ops != [] && (Apply(a, ops[0]).current == t || GetsCpu(Apply(a, ops[0]), ops[1..], t))
  }

  /** One call moves the queue up by one place if it yields, and not at all otherwise. */
  lemma QueueMoves(a: Sys, op: Op, k: nat)
    requires Inv(a) && Started(a) && a.enabled && Enabled(a, op) && k < |a.queue|
    ensures var b := Apply(a, op);
            && b.enabled
            && (AtYield(a, op).Some? ==> if k == 0 then b.current == a.queue[0]
               else k - 1 < |b.queue| && b.queue[k - 1] == a.queue[k])
            && (AtYield(a, op).None? ==> k < |b.queue| && b.queue[k] == a.queue[k])
  {
    if AtYield(a, op).Some? {
      YieldMoves(a, op, k);
    } else {
      NoYield(a, op);
    }
  }

  lemma YieldMoves(a: Sys, op: Op, k: nat)
    requires Inv(a) && Started(a) && a.enabled && Enabled(a, op) && k < |a.queue| && AtYield(a, op).Some?
    ensures var b := Apply(a, op);
            b.enabled && if k == 0 then b.current == a.queue[0] else k - 1 < |b.queue| && b.queue[k - 1] == a.queue[k]
  {
    hide Inv, Core, DoYield, Leaving;
    AtYieldKeeps(a, op);
    var y := AtYield(a, op).value;
    YieldKeeps(y);
    QueueAtYield(a, op);
    if k > 0 {
      assert DoYield(y).queue[..|y.queue| - 1][k - 1] == y.queue[1..][k - 1];
    }
  }

  lemma QueueAtYield(a: Sys, op: Op)
    requires Inv(a) && Enabled(a, op) && a.enabled && AtYield(a, op).Some?
    ensures AtYield(a, op).value.queue == a.queue
  {
    if op.Exit? {
      DieKeeps(a);
    }
  }

  lemma NoYield(a: Sys, op: Op)
    requires a.enabled && Enabled(a, op) && AtYield(a, op).None?
    ensures Apply(a, op).enabled && |Apply(a, op).queue| >= |a.queue| && Apply(a, op).queue[..|a.queue|] == a.queue
  {
  }

  /** A ready thread at position `k` is on the CPU no later than the `k+1`-th yield, whatever else happens. */
  lemma {:induction false} BoundedWaiting(a: Sys, ops: seq<Op>, t: nat, k: nat)
    requires Inv(a) && Started(a) && a.enabled && Legal(a, ops) && k < |a.queue| && a.queue[k] == t
             && Yields(a, ops) > k
    ensures GetsCpu(a, ops, t)
    decreases |ops|
  {
    hide Inv, Apply, Enabled, AtYield;
    var b := Apply(a, ops[0]);
    StepKeeps(a, ops[0]);
    QueueMoves(a, ops[0], k);
    if b.current != t {
      BoundedWaiting(b, ops[1..], t, if AtYield(a, ops[0]).Some? then k - 1 else k);
    }
  }

  lemma TicksOf(a: Sys, op: Op)
    requires Inv(a) && Started(a) && a.enabled && Enabled(a, op)
    ensures Apply(a, op).enabled && Apply(a, op).ticks == if op.Tick? then NextTick(a.ticks) else a.ticks
    ensures op.Tick? && QuantumEnds(NextTick(a.ticks)) ==> AtYield(a, op).Some?
  {
    hide Inv, Core, DoYield, Leaving;
    if AtYield(a, op).Some? {
      AtYieldKeeps(a, op);
      YieldKeeps(AtYield(a, op).value);
      if op.Exit? {
        DieKeeps(a);
      }
    } else {
      NoYield(a, op);
    }
  }

  /** The count goes up by one within a quantum; where the counter wraps, a quantum ends early. */
  lemma TickPhase(n: Word)
    ensures NextTick(n) % QUANTUM == 0 || NextTick(n) % QUANTUM == n % QUANTUM + 1
  {
  }

  /** Ten ticks always contain a yield. */
  lemma {:induction false} TicksYield(a: Sys, ops: seq<Op>)
    requires Inv(a) && Started(a) && a.enabled && Legal(a, ops)
    ensures Yields(a, ops) >= (a.ticks % QUANTUM + Ticks(ops)) / QUANTUM
    decreases |ops|
  {
    hide Inv, Apply, Enabled, AtYield, NextTick;
    if ops != [] {
      StepKeeps(a, ops[0]);
      TicksOf(a, ops[0]);
      TickPhase(a.ticks);
      TicksYield(Apply(a, ops[0]), ops[1..]);
    }
  }

  /** Hence within 10 * (k + 1) timer ticks. */
  lemma BoundedTicks(a: Sys, ops: seq<Op>, t: nat, k: nat)
    requires Inv(a) && Started(a) && a.enabled && Legal(a, ops) && k < |a.queue| && a.queue[k] == t
    requires Ticks(ops) >= QUANTUM * (k + 1)
    ensures GetsCpu(a, ops, t)
  {
    TicksYield(a, ops);
    BoundedWaiting(a, ops, t, k);
  }
}
