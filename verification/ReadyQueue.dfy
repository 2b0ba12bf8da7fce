/** The ready queue: a ring buffer of 64 slots that stands for a sequence. */
module ReadyQueue {
  import opened Layout

  const SLOTS: nat := 64

  function Pushed(q: seq<nat>, t: nat): seq<nat> {
    if |q| < SLOTS then q + [t] else q
  }

  /** `q` without the first occurrence of `t`. */
  function Removed(q: seq<nat>, t: nat): seq<nat> {
    if q == [] then [] else if q[0] == t then q[1..] else [q[0]] + Removed(q[1..], t)
  }

  lemma {:induction false} RemovedAt(q: seq<nat>, i: nat)
    requires i < |q| && forall j :: 0 <= j < i ==> q[j] != q[i]
    ensures Removed(q, q[i]) == q[..i] + q[i + 1..]
  {
    if i > 0 {
      assert q[1..][i - 1] == q[i];
      RemovedAt(q[1..], i - 1);
      assert q[0] != q[i];
      Front(q, i);
    }
  }

  lemma Front(q: seq<nat>, i: nat)
    requires 0 < i < |q|
    ensures [q[0]] + (q[1..][..i - 1] + q[1..][i..]) == q[..i] + q[i + 1..]
  {
    assert q[1..][..i - 1] == q[1..i] && q[1..][i..] == q[i + 1..];
    assert q[..i] == [q[0]] + q[1..i];
  }

  lemma {:induction false} RemovedAbsent(q: seq<nat>, t: nat)
    requires t !in q
    ensures Removed(q, t) == q
  {
    if q != [] {
      assert q[0] in q;
      RemovedAbsent(q[1..], t);
    }
  }

  /** In a queue without duplicates exactly `t` leaves. */
  lemma {:induction false} RemovedMeans(q: seq<nat>, t: nat)
    requires NoDup(q)
    ensures NoDup(Removed(q, t)) && |Removed(q, t)| == |q| - (if t in q then 1 else 0)
    ensures forall x :: x in Removed(q, t) <==> x in q && x != t
  {
    if t in q {
      var i: nat :| i < |q| && q[i] == t;
      RemovedAt(q, i);
      var r := q[..i] + q[i + 1..];
      forall x
        ensures x in r <==> x in q && x != t
      {
        if x in q && x != t {
          var j: nat :| j < |q| && q[j] == x;
          assert r[if j < i then j else j - 1] == x;
        }
      }
    } else {
      RemovedAbsent(q, t);
    }
  }

  /** One step of closing the gap at `i`. */
  lemma MoveDown(q: seq<nat>, i: nat, j: nat)
    requires i <= j < |q| - 1
    ensures var c := q[..i] + q[i + 1..j + 1] + q[j..];
            |c| == |q| && c[j + 1] == q[j + 1] && c[j := q[j + 1]] == q[..i] + q[i + 1..j + 2] + q[j + 1..]
  {
  }

  /** The slot of the `i`-th entry. */
  function Slot(head: nat, i: int): (s: nat)
    ensures s < SLOTS
  {
    (head + i) % SLOTS
  }

  lemma SlotsDiffer(head: nat, i: nat, j: nat)
    requires i < j < i + SLOTS
    ensures Slot(head, i) != Slot(head, j)
  {
  }

  class Ring {
    const queue: array<nat>
    var head: nat
    var tail: nat
    var cnt: nat

    ghost predicate Valid()
      reads this
    {
      queue.Length == SLOTS && head < SLOTS && cnt <= SLOTS && tail == Slot(head, cnt)
    }

    ghost function Contents(): (q: seq<nat>)
      requires Valid()
      reads this, queue
    {
      seq(cnt, i requires 0 <= i < cnt reads this, queue => queue[Slot(head, i)])
    }

    /** `q_init`. */
    constructor ()
      ensures Valid() && Contents() == [] && fresh(queue)
    {
      queue := new nat[SLOTS](_ => 0);
      head, tail, cnt := 0, 0, 0;
    }

    /** `q_push`: a full queue drops the thread. */
    method Push(t: nat)
      requires Valid()
      modifies this, queue
      ensures Valid() && Contents() == Pushed(old(Contents()), t)
    {
      if cnt >= SLOTS {
        return;
      }
      forall i: nat | i < cnt
        ensures Slot(head, i) != tail
      {
        SlotsDiffer(head, i, cnt);
      }
      queue[tail] := t;
      tail := (tail + 1) % SLOTS;
      cnt := cnt + 1;
    }

    /** `q_pop`. */
    method Pop() returns (t: Option<nat>)
      requires Valid()
      modifies this
      ensures Valid()
      ensures old(Contents()) == [] ==> t == None && Contents() == []
      ensures old(Contents()) != [] ==> t == Some(old(Contents())[0]) && Contents() == old(Contents())[1..]
    {
      if cnt == 0 {
        return None;
      }
      t := Some(queue[head]);
      ghost var q := Contents();
      head := (head + 1) % SLOTS;
      cnt := cnt - 1;
      assert forall i: nat :: i < cnt ==> Slot(head, i) == Slot(old(head), i + 1);
      assert Contents() == q[1..];
    }

    /** `sched_remove`: the entries behind `t` move up by one. */
    method Remove(t: nat)
      requires Valid()
      modifies this, queue
      ensures Valid() && Contents() == Removed(old(Contents()), t)
    {
      ghost var q := Contents();
      for i := 0 to cnt
        invariant Valid() && Contents() == q && cnt == |q|
        invariant forall j :: 0 <= j < i ==> q[j] != t
      {
        if queue[Slot(head, i)] == t {
          CloseGap(i);
          RemovedAt(q, i);
          return;
        }
      }
      RemovedAbsent(q, t);
    }

    /** The shifting loop of `sched_remove`. */
    method CloseGap(i: nat)
      requires Valid() && i < cnt
      modifies this, queue
      ensures Valid() && Contents() == old(Contents())[..i] + old(Contents())[i + 1..]
    {
      hide Slot;
      ghost var q := Contents();
      for j := i to cnt - 1
        invariant Valid() && head == old(head) && cnt == old(cnt) == |q|
        invariant Contents() == q[..i] + q[i + 1..j + 1] + q[j..]
      {
        MoveDown(q, i, j);
        SetSlot(j, queue[Slot(head, j + 1)]);
      }
      assert Contents()[..cnt - 1] == q[..i] + q[i + 1..];
      Shorten();
    }

    method SetSlot(j: nat, t: nat)
      requires Valid() && j < cnt
      modifies queue
      ensures Contents() == old(Contents())[j := t]
    {
      forall k: nat | k < cnt && k != j
        ensures Slot(head, k) != Slot(head, j)
      {
        SlotsDiffer(head, if k < j then k else j, if k < j then j else k);
      }
      queue[Slot(head, j)] := t;
    }

    /** The last entry goes. */
    method Shorten()
      requires Valid() && cnt > 0
      modifies this`cnt, this`tail
      ensures Valid() && Contents() == old(Contents())[..old(cnt) - 1]
    {
      cnt := cnt - 1;
      tail := (tail + SLOTS - 1) % SLOTS;
    }
  }
}
