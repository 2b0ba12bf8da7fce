/** Threads, processes and the scheduler on one CPU, each call one atomic step. Thread and process objects are
    named by their ids; thread 0 is the bootstrap context, space 0 the kernel's. */
module Lifecycle {
  import opened Layout
  import opened ReadyQueue

  const QUANTUM: nat := 10

  datatype ThreadState = Ready | Running | Blocked | Dead
  datatype Thread = Thread(state: ThreadState, owner: nat)
  datatype Proc = Proc(zombie: bool, threads: seq<nat>, threadCount: int, aliveCount: int, space: nat)

  /** `freed` and `destroyed` record every `thread_destroy` and `vmm_space_destroy` in order. */
  datatype Sys = Sys(
    queue: seq<nat>, current: nat, idle: Option<nat>, zombies: seq<nat>, enabled: bool, ticks: Word,
    threads: map<nat, Thread>, procs: map<nat, Proc>, procList: seq<nat>, procZombies: seq<nat>,
    spaces: set<nat>, active: nat, nextTid: nat, nextPid: nat, nextSpace: nat,
    freed: seq<nat>, destroyed: seq<nat>)

  // ---------- the calls ----------

  /** `sched_init` with no process yet. */
  function Init(): Sys {
    Sys([], 0, None, [], false, 0, map[0 := Thread(Running, 0)], map[], [], [], {}, 0, 1, 1, 1, [], [])
  }

  function StateOf(a: Sys, t: nat): ThreadState {
    if t in a.threads then a.threads[t].state else Blocked
  }

  function SetState(a: Sys, t: nat, st: ThreadState): Sys {
    if t in a.threads then a.(threads := a.threads[t := a.threads[t].(state := st)]) else a
  }

  /** `proc_alloc`, then `process_create` or `process_create_user`. */
  function DoNewProc(a: Sys, user: bool): Sys {
    var space := if user then a.nextSpace else 0;
    a.(procs := a.procs[a.nextPid := Proc(false, [], 0, 0, space)], procList := [a.nextPid] + a.procList,
       spaces := if user then a.spaces + {space} else a.spaces,
       nextPid := a.nextPid + 1, nextSpace := if user then a.nextSpace + 1 else a.nextSpace)
  }

  /** `thread_create`, `thread_create_user`: the thread joins its process and the ready queue. */
  function DoCreate(a: Sys, p: nat): Sys
    requires p in a.procs
  {
    var t, o := a.nextTid, a.procs[p];
    a.(threads := a.threads[t := Thread(Ready, p)],
       procs := a.procs[p := o.(threads := [t] + o.threads, threadCount := o.threadCount + 1,
           aliveCount := o.aliveCount + 1)],
       queue := Pushed(a.queue, t), nextTid := t + 1)
  }

  /** `process_fork`: a process with a cloned space and one thread. */
  function DoFork(a: Sys): Sys {
    DoCreate(DoNewProc(a, true), a.nextPid)
  }

  /** A process whose space, thread or stack cannot be allocated is taken back: ids are used up, and a space that was
      made is destroyed. A failing `thread_create` changes nothing. */
  function DoFail(a: Sys, spaceMade: bool): Sys {
    a.(nextPid := a.nextPid + 1, nextSpace := if spaceMade then a.nextSpace + 1 else a.nextSpace,
       destroyed := if spaceMade then a.destroyed + [a.nextSpace] else a.destroyed)
  }

  function DoSetIdle(a: Sys, t: nat): Sys {
    SetState(a, t, Ready).(queue := Removed(a.queue, t), idle := Some(t))
  }

  /** `thread_destroy` of `z`. */
  function Destroy(a: Sys, z: nat): Sys
    requires z in a.threads
  {
    var p := a.threads[z].owner;
    var procs := if p in a.procs && z in a.procs[p].threads then
                   a.procs[p := a.procs[p].(threads := Removed(a.procs[p].threads, z),
                       threadCount := a.procs[p].threadCount - 1)]
                 else a.procs;
    a.(queue := Removed(a.queue, z), procs := procs, threads := a.threads - {z}, freed := a.freed + [z])
  }

  /** One turn of `reap_zombies`. */
  function BuryThread(a: Sys): Sys
    requires a.zombies != [] && a.zombies[0] in a.threads
  {
    Destroy(a.(zombies := a.zombies[1..]), a.zombies[0])
  }

  /** `reap_zombies`; stops at a thread that does not exist, which the invariant rules out. */
  function ReapThreads(a: Sys): Sys
    decreases |a.zombies|
  {
    if a.zombies == [] || a.zombies[0] !in a.threads then a else ReapThreads(BuryThread(a))
  }

  /** A zombie process without threads is freed together with its space. */
  function BuryProc(a: Sys, i: nat): Sys
    requires i < |a.procZombies| && a.procZombies[i] in a.procs
  {
    var p := a.procZombies[i];
    var space := a.procs[p].space;
    a.(procs := a.procs - {p}, procZombies := a.procZombies[..i] + a.procZombies[i + 1..],
       spaces := a.spaces - {space}, destroyed := if space != 0 then a.destroyed + [space] else a.destroyed)
  }

  /** `process_reap_zombies` from index `i` on. */
  function ReapProcs(a: Sys, i: nat): Sys
    decreases |a.procZombies| - i
  {
    if i >= |a.procZombies| || a.procZombies[i] !in a.procs then a
    else if a.procs[a.procZombies[i]].threadCount == 0 then ReapProcs(BuryProc(a, i), i)
    else ReapProcs(a, i + 1)
  }

  function SpaceOf(a: Sys, t: nat): nat {
    if t in a.threads && a.threads[t].owner in a.procs then a.procs[a.threads[t].owner].space else a.active
  }

  /** The switch at the end of `sched_yield`. */
  function SwitchTo(a: Sys, next: nat): Sys {
    var b := SetState(a, next, Running);
    if next == a.current then b else b.(current := next, active := SpaceOf(a, next))
  }

  /** The head of the queue, or the idle thread. */
  function PickNext(a: Sys): Sys {
    if a.queue != [] then SwitchTo(a.(queue := a.queue[1..]), a.queue[0])
    else match a.idle
      case None => a
      case Some(i) => if a.current == i && StateOf(a, i) == Running then a else SwitchTo(a, i)
  }

  /** What `sched_yield` does with the running thread before it picks the next one. */
  function PutBack(a: Sys): Sys {
    if StateOf(a, a.current) == Dead then a.(zombies := [a.current] + a.zombies)
    else if StateOf(a, a.current) == Running && a.idle != Some(a.current) then
      SetState(a, a.current, Ready).(queue := Pushed(a.queue, a.current))
    else a
  }

  /** A running thread with nobody waiting goes on. */
  predicate Alone(a: Sys) {
    StateOf(a, a.current) == Running && a.idle != Some(a.current) && a.queue == []
  }

  function DoYield(a: Sys): Sys {
    if !a.enabled then a
    else
      var b := ReapProcs(ReapThreads(a), 0);
      if Alone(b) then b else PickNext(PutBack(b))
  }

  function NextTick(n: Word): Word { (n + 1) % U64 }

  predicate QuantumEnds(n: Word) { n % QUANTUM == 0 }

  function DoTick(a: Sys): Sys {
    if !a.enabled then a
    else
      var b := a.(ticks := NextTick(a.ticks));
      if QuantumEnds(b.ticks) then DoYield(b) else b
  }

  /** `sched_start`: the bootstrap context blocks for good. */
  function DoStart(a: Sys): Sys {
    DoYield(SetState(a, 0, Blocked).(enabled := true))
  }

  /** `process_exit`. */
  function ExitProc(a: Sys, p: nat): Sys
    requires p in a.procs
  {
    if a.procs[p].zombie then a
    else a.(procs := a.procs[p := a.procs[p].(zombie := true)], procList := Removed(a.procList, p),
        procZombies := [p] + a.procZombies)
  }

  /** `thread_exit` up to its yield. */
  function Die(a: Sys): Sys {
    var b := SetState(a, a.current, Dead);
    if a.current !in a.threads || a.threads[a.current].owner !in a.procs then b
    else
      var p := a.threads[a.current].owner;
      var c := b.(procs := b.procs[p := b.procs[p].(aliveCount := b.procs[p].aliveCount - 1)]);
      if c.procs[p].aliveCount <= 0 then ExitProc(c, p) else c
  }

  function DoExit(a: Sys): Sys { DoYield(Die(a)) }

  // ---------- invariants ----------

  /** How many threads other than idle could come to wait in the queue. */
  function Demand(a: Sys): nat {
    |a.queue| + if a.idle == Some(a.current) then 0 else 1
  }

  /** The lists are disjoint and hold existing threads in the right state. */
  ghost predicate ListsOk(a: Sys) {
    && a.current in a.threads && 0 in a.threads
    && NoDup(a.queue) && NoDup(a.zombies)
    && (forall t :: t in a.queue ==>
       t in a.threads && a.threads[t].state == Ready && t != a.current && a.idle != Some(t) && t != 0)
    && (forall t :: t in a.zombies ==>
       t in a.threads && a.threads[t].state == Dead && t != a.current && a.idle != Some(t) && t != 0)
    && (a.idle.Some? ==>
       a.idle.value in a.threads && a.idle.value != 0 && a.threads[a.idle.value].state in {Ready, Running})
  }

  /** Every thread is current, queued, dead and waiting for burial, the idle thread, or the retired bootstrap. */
  ghost predicate Placed(a: Sys, t: nat)
    requires t in a.threads
  {
    t == a.current || t in a.queue || t in a.zombies || a.idle == Some(t) || (t == 0 && a.threads[t].state == Blocked)
  }

  ghost predicate AllPlaced(a: Sys) {
    forall t :: t in a.threads ==> Placed(a, t)
  }

  /** Ids are never reused and nothing is freed twice. */
  ghost predicate Fresh(a: Sys) {
    && (forall t :: t in a.threads ==> t < a.nextTid)
    && (forall t :: t in a.freed ==> t < a.nextTid && t !in a.threads)
    && NoDup(a.freed)
    && (forall p :: p in a.procs ==> 0 < p < a.nextPid)
    && 0 < a.nextTid && 0 < a.nextPid && 0 < a.nextSpace
    && (forall s :: s in a.spaces ==> 0 < s < a.nextSpace)
    && (forall s :: s in a.destroyed ==> s < a.nextSpace && s !in a.spaces)
    && NoDup(a.destroyed)
  }

  function AliveOf(threads: map<nat, Thread>, p: nat): set<nat> {
    set t | t in threads && threads[t].owner == p && threads[t].state != Dead
  }

  ghost predicate ProcOk(threads: map<nat, Thread>, p: nat, o: Proc) {
    && NoDup(o.threads) && o.threadCount == |o.threads|
    && (forall t :: t in o.threads <==> t in threads && threads[t].owner == p)
    && o.aliveCount == |AliveOf(threads, p)|
    && (o.zombie ==> o.aliveCount == 0)
  }

  ghost predicate ProcsOk(a: Sys) {
    && (forall p :: p in a.procs ==> ProcOk(a.threads, p, a.procs[p]))
    && (forall t :: t in a.threads ==> if t == 0 then a.threads[t].owner == 0 else a.threads[t].owner in a.procs)
    && NoDup(a.procList) && NoDup(a.procZombies)
    && (forall p :: p in a.procList <==> p in a.procs && !a.procs[p].zombie)
    && (forall p :: p in a.procZombies <==> p in a.procs && a.procs[p].zombie)
  }

  ghost predicate SpacesOk(a: Sys) {
    && (forall p :: p in a.procs ==> a.procs[p].space == 0 || a.procs[p].space in a.spaces)
    && (forall p, q :: p in a.procs && q in a.procs && p != q && a.procs[p].space == a.procs[q].space ==>
       a.procs[p].space == 0)
    && (forall s :: s in a.spaces ==> exists p :: p in a.procs && a.procs[p].space == s)
  }

  /** The active space belongs to the current thread. */
  ghost predicate ActiveOk(a: Sys) {
    a.current in a.threads && if a.current == 0 then a.active == 0
    else a.threads[a.current].owner in a.procs && a.active == a.procs[a.threads[a.current].owner].space
  }

  ghost predicate Core(a: Sys) {
    && ListsOk(a) && AllPlaced(a) && Fresh(a) && ProcsOk(a) && SpacesOk(a) && ActiveOk(a)
    && (a.enabled ==> a.idle.Some?) && (!a.enabled ==> a.current == 0)
    && (a.current == 0 ==> a.threads[0].state in {Running, Blocked})
  }

  ghost predicate Inv(a: Sys) {
    Core(a) && a.threads[a.current].state == Running && Demand(a) <= SLOTS
  }
}
