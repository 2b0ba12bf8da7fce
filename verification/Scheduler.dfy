/** The scheduler and the thread and process calls, updating their lists in place, proved against the
    functions on the system state. */
module Scheduler {
  import opened Layout
  import opened ReadyQueue
  import opened Lifecycle
  import opened LifecycleInvariant
  import opened SafeBurial
  import opened CallEffects

  /** The walk that takes an object out of a linked list. */
  method Unlink(list: seq<nat>, t: nat) returns (rest: seq<nat>, found: bool)
    ensures rest == Removed(list, t) && (found <==> t in list)
  {
    for i := 0 to |list|
      invariant forall j :: 0 <= j < i ==> list[j] != t
    {
      if list[i] == t {
        RemovedAt(list, i);
        return list[..i] + list[i + 1..], true;
      }
    }
    RemovedAbsent(list, t);
    return list, false;
  }

  class Cpu {
    const ring: Ring
    var current: nat
    var idle: Option<nat>
    var zombies: seq<nat>
    var enabled: bool
    var ticks: Word
    var threads: map<nat, Thread>
    var procs: map<nat, Proc>
    var procList: seq<nat>
    var procZombies: seq<nat>
    var spaces: set<nat>
    var active: nat
    var nextTid: nat
    var nextPid: nat
    var nextSpace: nat
    ghost var freed: seq<nat>
    ghost var destroyed: seq<nat>

    ghost function View(): Sys
      requires ring.Valid()
      reads this, ring, ring.queue
    {
      Sys(ring.Contents(), current, idle, zombies, enabled, ticks, threads, procs, procList, procZombies, spaces,
          active,
          nextTid, nextPid, nextSpace, freed, destroyed)
    }

    /** `sched_init`, `process_init`. */
    constructor ()
      ensures ring.Valid() && View() == Init() && fresh(ring) && fresh(ring.queue)
    {
      ring := new Ring();
      current, idle, zombies, enabled, ticks := 0, None, [], false, 0;
      threads, procs, procList, procZombies := map[0 := Thread(Running, 0)], map[], [], [];
      spaces, active, nextTid, nextPid, nextSpace, freed, destroyed := {}, 0, 1, 1, 1, [], [];
    }

    /** `proc_alloc` and the choice of an address space. */
    method NewProc(user: bool) returns (p: nat)
      requires ring.Valid()
      modifies this`nextPid, this`nextSpace, this`spaces, this`procs, this`procList
      ensures ring.Valid() && View() == DoNewProc(old(View()), user) && p == old(nextPid)
      ensures Core(old(View())) ==> Spawned(old(View()), View(), p, user)
    {
      hide Core, Spawned;
      ghost var a := View();
      if Core(a) {
        NewProcSpawns(a, user);
      }
      p := nextPid;
      nextPid := nextPid + 1;
      var space := 0;
      if user {
        space := nextSpace;
        spaces, nextSpace := spaces + {space}, nextSpace + 1;
      }
      procs := procs[p := Proc(false, [], 0, 0, space)];
      procList := [p] + procList;
    }

    /** `sched_add`. */
    method Add(t: nat)
      requires ring.Valid() && t in threads
      modifies this`threads, ring, ring.queue
      ensures ring.Valid()
      ensures View() == SetState(old(View()), t, Ready).(queue := Pushed(old(ring.Contents()), t))
    {
      threads := threads[t := threads[t].(state := Ready)];
      ring.Push(t);
    }

    /** `thread_create`, `thread_create_user`. */
    method CreateThread(p: nat) returns (t: nat)
      requires ring.Valid() && p in procs
      modifies this, ring, ring.queue
      ensures ring.Valid() && View() == DoCreate(old(View()), p) && t == old(nextTid)
      ensures Core(old(View())) && |old(ring.Contents())| < SLOTS ==> Joins(old(View()), View(), t, p)
    {
      hide Core, Joins;
      ghost var a := View();
      if Core(a) && |a.queue| < SLOTS {
        CreateJoins(a, p);
      }
      t := nextTid;
      nextTid := nextTid + 1;
      threads := threads[t := Thread(Ready, p)];
      var o := procs[p];
      procs := procs[p := o.(threads := [t] + o.threads, threadCount := o.threadCount + 1,
          aliveCount := o.aliveCount + 1)];
      Add(t);
    }

    /** `process_fork`. */
    method Fork() returns (p: nat)
      requires ring.Valid()
      modifies this, ring, ring.queue
      ensures ring.Valid() && View() == DoFork(old(View())) && p == old(nextPid)
      ensures Core(old(View())) && |old(ring.Contents())| < SLOTS ==> Forked(old(View()), View(), p, old(nextTid))
    {
      hide Core, Forked, Spawned, Joins;
      ghost var a := View();
      if Core(a) && |a.queue| < SLOTS {
        ForkMakesChild(a);
      }
      p := NewProc(true);
      var t := CreateThread(p);
    }

    /** The failing paths of `process_create_user` and `process_fork`: the process that was put in the list is unlinked
        again, and a space that was made is destroyed. */
    method Fail(spaceMade: bool)
      requires ring.Valid() && Core(View())
      modifies this`nextPid, this`nextSpace, this`spaces, this`procs, this`procList, this`destroyed
      ensures ring.Valid() && View() == DoFail(old(View()), spaceMade)
    {
      hide ListsOk, AllPlaced, ProcsOk, SpacesOk, ActiveOk, Spawned;
      ghost var a := View();
      FreshIds(a);
      hide Fresh, Core, DoFail;
      var space := nextSpace;
      var p := NewProc(spaceMade);
      if spaceMade {
        destroyed := destroyed + [space];
        spaces := spaces - {space};
      }
      var rest, found := Unlink(procList, p);
      procList, procs := rest, procs - {p};
      TakenBack(a, View(), spaceMade);
    }

    /** `sched_set_idle`. */
    method SetIdle(t: nat)
      requires ring.Valid() && t in threads
      modifies this, ring, ring.queue
      ensures ring.Valid() && View() == DoSetIdle(old(View()), t)
    {
      ring.Remove(t);
      threads := threads[t := threads[t].(state := Ready)];
      idle := Some(t);
    }

    /** `thread_destroy`. */
    method DestroyThread(z: nat)
      requires ring.Valid() && z in threads
      modifies this, ring, ring.queue
      ensures ring.Valid() && View() == Destroy(old(View()), z)
    {
      ring.Remove(z);
      var p := threads[z].owner;
      if p in procs {
        var rest, found := Unlink(procs[p].threads, z);
        if found {
          procs := procs[p := procs[p].(threads := rest, threadCount := procs[p].threadCount - 1)];
        }
      }
      threads := threads - {z};
      freed := freed + [z];
    }

    /** `reap_zombies`. */
    method ReapZombies()
      requires ring.Valid() && Core(View())
      modifies this, ring, ring.queue
      ensures ring.Valid() && View() == ReapThreads(old(View())) && Core(View())
    {
      hide Core;
      while zombies != []
        invariant ring.Valid() && Core(View()) && ReapThreads(View()) == ReapThreads(old(View()))
        decreases |zombies|
      {
        BuryThreadKeeps(View());
        var z := zombies[0];
        zombies := zombies[1..];
        DestroyThread(z);
      }
    }

    /** `process_reap_zombies`. */
    method ReapZombieProcs()
      requires ring.Valid() && Core(View())
      modifies this
      ensures ring.Valid() && View() == ReapProcs(old(View()), 0) && Core(View())
      ensures ThreadlessGone(old(View()), View())
    {
      ReapsThreadless(View());
      hide ListsOk, AllPlaced, Fresh, ProcsOk, SpacesOk, ActiveOk, Buriable, BuryProc, ThreadlessGone;
      var i := 0;
      while i < |procZombies|
        invariant ring.Valid() && Core(View()) && ReapProcs(View(), i) == ReapProcs(old(View()), 0)
        decreases |procZombies| - i
      {
        var p := procZombies[i];
        ZombieProc(View(), i);
        if procs[p].threadCount == 0 {
          Unthreaded(View(), i);
          BuryProcKeeps(View(), i);
          Bury(i);
        } else {
          i := i + 1;
        }
      }
    }

    /** A zombie process without threads goes, with its space. */
    method Bury(i: nat)
      requires ring.Valid() && i < |procZombies| && procZombies[i] in procs
      modifies this`destroyed, this`spaces, this`procs, this`procZombies
      ensures View() == BuryProc(old(View()), i) && |procZombies| == old(|procZombies|) - 1
    {
      var p := procZombies[i];
      if procs[p].space != 0 {
        destroyed := destroyed + [procs[p].space];
      }
      spaces := spaces - {procs[p].space};
      procs := procs - {p};
      procZombies := procZombies[..i] + procZombies[i + 1..];
    }

    /** The switch itself, with the new thread's address space. */
    method Switch(next: nat)
      requires ring.Valid() && next in threads
      modifies this
      ensures ring.Valid() && View() == SwitchTo(old(View()), next)
    {
      threads := threads[next := threads[next].(state := Running)];
      if next == current {
        return;
      }
      current := next;
      if threads[next].owner in procs {
        active := procs[threads[next].owner].space;
      }
    }

    /** `sched_yield`. */
    method Yield()
      requires ring.Valid() && Core(View()) && (enabled ==> Leaving(View()) && Demand(View()) <= SLOTS)
      modifies this, ring, ring.queue
      ensures ring.Valid() && View() == DoYield(old(View()))
      ensures enabled ==> Inv(View())
      ensures old(enabled) ==> Switched(old(View()), View()) && FreedExactly(old(View()), View())
    {
      hide ListsOk, AllPlaced, Fresh, ProcsOk, SpacesOk, ActiveOk, Inv, ReapThreads, ReapProcs, Reaped, Survivors,
          Switched, FreedExactly;
      if !enabled {
        return;
      }
      YieldSwitches(View());
      YieldFrees(View());
      ReapedKeeps(View());
      YieldIs(View());
      YieldKeeps(View());
      ReapZombies();
      ReapZombieProcs();
      ghost var b := View();
      ReapedIs(old(View()), b);
      var prev := current;
      var state := threads[prev].state;
      if state == Dead {
        zombies := [prev] + zombies;
      } else if state == Running && idle != Some(prev) {
        if ring.cnt == 0 {
          return;
        }
        Add(prev);
      }
      assert !Alone(b) && View() == PutBack(b);
      Next(b);
    }

    /** Taking the head of the queue, or the idle thread. */
    method Next(ghost b: Sys)
      requires ring.Valid() && Core(b) && b.enabled && Demand(b) <= SLOTS && b.zombies == [] && Leaving(b)
               && View() == PutBack(b)
      modifies this, ring, ring.queue
      ensures ring.Valid() && View() == PickNext(old(View()))
    {
      Candidates(b);
      hide ListsOk, AllPlaced, Fresh, ProcsOk, SpacesOk, ActiveOk, PutBack, Leaving, SwitchTo;
      ghost var c := View();
      var next := ring.Pop();
      match next
      case Some(t) =>
        assert View() == c.(queue := c.queue[1..]);
        Switch(t);
      case None =>
        assert View() == c;
        if idle == Some(current) && threads[current].state == Running {
          return;
        }
        match idle
        case None =>
        case Some(t) =>
          Switch(t);
    }

    /** `sched_tick`. */
    method Tick()
      requires ring.Valid() && Inv(View()) && Started(View())
      modifies this, ring, ring.queue
      ensures ring.Valid() && View() == DoTick(old(View())) && Inv(View()) && Started(View())
    {
      hide Inv, DoYield, Core, Leaving;
      ghost var a := View();
      TickKeeps(a);
      if !enabled {
        return;
      }
      ticks := (ticks + 1) % U64;
      if ticks % QUANTUM == 0 {
        TicksInv(a, NextTick(a.ticks));
        AtPlainYield(View());
        Yield();
      }
    }

    /** `sched_start`. */
    method Start()
      requires ring.Valid() && Inv(View()) && !enabled && idle.Some? && current == 0
      modifies this, ring, ring.queue
      ensures ring.Valid() && View() == DoStart(old(View())) && Inv(View())
    {
      hide ListsOk, AllPlaced, Fresh, ProcsOk, SpacesOk, ActiveOk, DoYield;
      ghost var a := View();
      BlockedCore(a);
      StartInv(a);
      InThreads(a);
      enabled := true;
      threads := threads[0 := threads[0].(state := Blocked)];
      Yield();
    }

    /** `process_exit`. */
    method ExitProcess(p: nat)
      requires ring.Valid() && p in procs
      modifies this
      ensures ring.Valid() && View() == ExitProc(old(View()), p)
    {
      if procs[p].zombie {
        return;
      }
      procs := procs[p := procs[p].(zombie := true)];
      var rest, found := Unlink(procList, p);
      procList := rest;
      procZombies := [p] + procZombies;
    }

    /** `thread_exit`: the last thread takes the process along, then the CPU goes to someone else for good. */
    method ExitThread()
      requires ring.Valid() && Inv(View()) && enabled && current != 0 && idle != Some(current)
      modifies this, ring, ring.queue
      ensures ring.Valid() && View() == DoExit(old(View())) && Inv(View())
    {
      hide ListsOk, AllPlaced, Fresh, ProcsOk, SpacesOk, ActiveOk, DoYield, Leaving;
      ghost var a := View();
      DieKeeps(a);
      ExitKeeps(a);
      InThreads(a);
      MarkDead();
      Yield();
    }

    /** `thread_exit` up to its yield. */
    method MarkDead()
      requires ring.Valid() && current in threads
      modifies this
      ensures ring.Valid() && View() == Die(old(View()))
    {
      threads := threads[current := threads[current].(state := Dead)];
      var p := threads[current].owner;
      if p in procs {
        procs := procs[p := procs[p].(aliveCount := procs[p].aliveCount - 1)];
        if procs[p].aliveCount <= 0 {
          ExitProcess(p);
        }
      }
    }
  }

  lemma ReapedIs(a: Sys, b: Sys)
    requires b == ReapProcs(ReapThreads(a), 0)
    ensures b == Reaped(a)
  {
  }

  /** Whoever may be picked exists. */
  lemma Candidates(b: Sys)
    requires Core(b) && b.enabled && Demand(b) <= SLOTS && b.zombies == [] && Leaving(b)
    ensures var c := PutBack(b);
            && c.current in c.threads && (c.queue != [] ==> c.queue[0] in c.threads) && c.idle.Some?
               && c.idle.value in c.threads
  {
    hide Core;
    PutBackMeans(b);
  }

  lemma FreshIds(a: Sys)
    requires Core(a)
    ensures a.nextPid !in a.procs && a.nextSpace !in a.spaces && 0 !in a.spaces
  {
    hide ListsOk, AllPlaced, ProcsOk, SpacesOk, ActiveOk;
  }

  /** Adding and removing cancel out. */
  lemma TakenBack(a: Sys, b: Sys, spaceMade: bool)
    requires a.nextPid !in a.procs && a.nextSpace !in a.spaces
    requires var c := DoNewProc(a, spaceMade);
             b == c.(procList := Removed(c.procList, a.nextPid), procs := c.procs - {a.nextPid},
                     spaces := if spaceMade then c.spaces - {a.nextSpace} else c.spaces,
                     destroyed := if spaceMade then c.destroyed + [a.nextSpace] else c.destroyed)
    ensures b == DoFail(a, spaceMade)
  {
    var c := DoNewProc(a, spaceMade);
    assert c.procList[1..] == a.procList;
    assert c.procs - {a.nextPid} == a.procs;
    assert spaceMade ==> c.spaces - {a.nextSpace} == a.spaces;
  }
}
