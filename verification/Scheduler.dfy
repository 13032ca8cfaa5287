/** The scheduler and the timed sleep queue as the kernel runs them: a walk
    round the list of tasks, and a doubly linked queue edited in place.  Every
    method does what the machine of `SchedSpec` says. */
module Scheduler {
  import opened SchedSpec

  // ----- the linked sleep queue -----

  datatype Node = Node(entry: Sleeper, prev: nat, next: nat)

  predicate LinkedAt(nodes: map<nat, Node>, order: seq<nat>, i: int) {
    0 <= i < |order| ==>
      && order[i] != 0 && order[i] in nodes
      && nodes[order[i]].prev == (if i > 0 then order[i - 1] else 0)
      && nodes[order[i]].next == (if i + 1 < |order| then order[i + 1] else 0)
  }

  predicate Distinct(order: seq<nat>) { forall i, j | 0 <= i < j < |order| :: order[i] != order[j] }

  /** `order` lists the nodes from the head on; next and prev follow it. */
  ghost predicate Linked(nodes: map<nat, Node>, head: nat, order: seq<nat>) {
    && Distinct(order)
    && (forall i :: LinkedAt(nodes, order, i))
    && head == (if order == [] then 0 else order[0])
  }

  function Entries(nodes: map<nat, Node>, order: seq<nat>): (q: seq<Sleeper>)
    requires forall a | a in order :: a in nodes
    ensures |q| == |order|
  {
    if order == [] then [] else [nodes[order[0]].entry] + Entries(nodes, order[1..])
  }

  lemma InNodes(nodes: map<nat, Node>, head: nat, order: seq<nat>)
    requires Linked(nodes, head, order)
    ensures forall a | a in order :: a in nodes && a != 0
  {
    forall a | a in order ensures a in nodes && a != 0 {
      var i :| 0 <= i < |order| && order[i] == a;
      assert LinkedAt(nodes, order, i);
    }
  }

  lemma {:induction false} SameEntries(nodes: map<nat, Node>, nodes': map<nat, Node>, order: seq<nat>)
    requires forall a | a in order :: a in nodes && a in nodes' && nodes[a].entry == nodes'[a].entry
    ensures Entries(nodes, order) == Entries(nodes', order)
    decreases |order|
  {
    if order != [] {
      assert forall a | a in order[1..] :: a in order;
      SameEntries(nodes, nodes', order[1..]);
    }
  }

  lemma {:induction false} EntriesConcat(nodes: map<nat, Node>, a: seq<nat>, b: seq<nat>)
    requires forall x | x in a + b :: x in nodes
    ensures (forall x | x in a :: x in nodes) && (forall x | x in b :: x in nodes)
    ensures Entries(nodes, a + b) == Entries(nodes, a) + Entries(nodes, b)
    decreases |a|
  {
    assert forall x | x in a :: x in a + b;
    assert forall x | x in b :: x in a + b;
    if a == [] {
      assert a + b == b;
    } else {
      assert (a + b)[1..] == a[1..] + b;
      EntriesConcat(nodes, a[1..], b);
    }
  }

  /** Node i is taken out: its neighbours are linked to each other. */
  function Unlinked(nodes: map<nat, Node>, order: seq<nat>, i: nat): map<nat, Node>
    requires i < |order| && (forall a | a in order :: a in nodes)
  {
    var n1 := if i > 0 then nodes[order[i - 1] := nodes[order[i - 1]].(next := nodes[order[i]].next)] else nodes;
    var n2 := if i + 1 < |order| && order[i + 1] in n1
              then n1[order[i + 1] := n1[order[i + 1]].(prev := nodes[order[i]].prev)] else n1;
    n2 - {order[i]}
  }

  lemma UnlinkedIsLinked(nodes: map<nat, Node>, head: nat, order: seq<nat>, i: nat)
    requires Linked(nodes, head, order) && i < |order|
    ensures forall a | a in order :: a in nodes
    ensures var o := order[..i] + order[i + 1..];
            Linked(Unlinked(nodes, order, i), if i > 0 then head else nodes[order[i]].next, o)
  {
    InNodes(nodes, head, order);
    var o, n := order[..i] + order[i + 1..], Unlinked(nodes, order, i);
    assert LinkedAt(nodes, order, i) && LinkedAt(nodes, order, i - 1) && LinkedAt(nodes, order, i + 1);
    forall k ensures LinkedAt(n, o, k) {
      assert LinkedAt(nodes, order, k) && LinkedAt(nodes, order, k + 1);
    }
  }

  lemma UnlinkedEntries(nodes: map<nat, Node>, head: nat, order: seq<nat>, i: nat)
    requires Linked(nodes, head, order) && i < |order|
    ensures (forall a | a in order :: a in nodes)
    ensures forall a | a in order[..i] || a in order[i + 1..] :: a in nodes && a in Unlinked(nodes, order, i)
    ensures Entries(Unlinked(nodes, order, i), order[..i]) == Entries(nodes, order[..i])
    ensures Entries(Unlinked(nodes, order, i), order[i + 1..]) == Entries(nodes, order[i + 1..])
  {
    InNodes(nodes, head, order);
    SameEntries(nodes, Unlinked(nodes, order, i), order[..i]);
    SameEntries(nodes, Unlinked(nodes, order, i), order[i + 1..]);
  }

  // ----- one entry of the handler's walk -----

  lemma Peel(nodes: map<nat, Node>, order: seq<nat>, i: nat)
    requires i < |order| && forall a | a in order :: a in nodes
    ensures var e := nodes[order[i]].entry;
            && Entries(nodes, order[i..]) == [e] + Entries(nodes, order[i + 1..])
            && Entries(nodes, order[..i + 1]) == Entries(nodes, order[..i]) + [e]
  {
    assert order[i..][1..] == order[i + 1..];
    assert order[..i + 1] == order[..i] + [order[i]];
    assert [order[i]][1..] == [];
    EntriesConcat(nodes, order[..i], [order[i]]);
  }

  lemma WalkOne(tasks: seq<Task>, e: Sleeper, rest: seq<Sleeper>, now: nat)
    ensures Kept([e] + rest, now) == (if Expired(e, now) then [] else [e]) + Kept(rest, now)
    ensures Woken(tasks, [e] + rest, now) == Woken(if Expired(e, now) then Wake(tasks, e.task) else tasks, rest, now)
  {
    assert ([e] + rest)[1..] == rest;
  }

  /** The part before place i is done, the rest still has the whole effect ahead. */
  ghost predicate Midway(nodes: map<nat, Node>, order: seq<nat>, i: nat, tasks: seq<Task>, now: nat,
                         kept: seq<Sleeper>, woken: seq<Task>)
    requires i <= |order| && forall a | a in order :: a in nodes
  {
    && Entries(nodes, order[..i]) + Kept(Entries(nodes, order[i..]), now) == kept
    && Woken(tasks, Entries(nodes, order[i..]), now) == woken
  }

  lemma WalkRemoves(nodes: map<nat, Node>, head: nat, order: seq<nat>, i: nat, tasks: seq<Task>, now: nat,
                    kept: seq<Sleeper>, woken: seq<Task>)
    requires Linked(nodes, head, order) && i < |order| && (forall a | a in order :: a in nodes)
    requires Midway(nodes, order, i, tasks, now, kept, woken) && Expired(nodes[order[i]].entry, now)
    ensures var o := order[..i] + order[i + 1..];
            && (forall a | a in o :: a in Unlinked(nodes, order, i))
            && Midway(Unlinked(nodes, order, i), o, i, Wake(tasks, nodes[order[i]].entry.task), now, kept, woken)
  {
    hide Entries, Unlinked, Kept, Woken, Linked;
    var o := order[..i] + order[i + 1..];
    Peel(nodes, order, i);
    WalkOne(tasks, nodes[order[i]].entry, Entries(nodes, order[i + 1..]), now);
    UnlinkedEntries(nodes, head, order, i);
    assert o[..i] == order[..i] && o[i..] == order[i + 1..];
  }

  lemma WalkKeeps(nodes: map<nat, Node>, order: seq<nat>, i: nat, tasks: seq<Task>, now: nat, kept: seq<Sleeper>,
                  woken: seq<Task>)
    requires i < |order| && (forall a | a in order :: a in nodes)
    requires Midway(nodes, order, i, tasks, now, kept, woken) && !Expired(nodes[order[i]].entry, now)
    ensures Midway(nodes, order, i + 1, tasks, now, kept, woken)
  {
    hide Entries, Kept, Woken;
    Peel(nodes, order, i);
    WalkOne(tasks, nodes[order[i]].entry, Entries(nodes, order[i + 1..]), now);
  }

  lemma HeadIsFirst(nodes: map<nat, Node>, head: nat, order: seq<nat>)
    requires Linked(nodes, head, order)
    ensures head == (if order == [] then 0 else order[0]) && (order != [] ==> head != 0)
  {
    assert LinkedAt(nodes, order, 0);
  }

  lemma LinkedHere(nodes: map<nat, Node>, head: nat, order: seq<nat>, i: nat)
    requires Linked(nodes, head, order) && i < |order|
    ensures LinkedAt(nodes, order, i) && LinkedAt(nodes, order, i + 1) && LinkedAt(nodes, order, i - 1)
    ensures forall j | 0 <= j < |order| && j != i :: order[j] != order[i]
  {
  }

  lemma WalkStarts(nodes: map<nat, Node>, order: seq<nat>, tasks: seq<Task>, now: nat)
    requires forall a | a in order :: a in nodes
    ensures Midway(nodes, order, 0, tasks, now, Kept(Entries(nodes, order), now),
                   Woken(tasks, Entries(nodes, order), now))
  {
    assert order[..0] == [] && order[0..] == order;
  }

  lemma WalkEnds(nodes: map<nat, Node>, order: seq<nat>, tasks: seq<Task>, now: nat, kept: seq<Sleeper>,
                 woken: seq<Task>)
    requires forall a | a in order :: a in nodes
    requires Midway(nodes, order, |order|, tasks, now, kept, woken)
    ensures Entries(nodes, order) == kept && tasks == woken
  {
    assert order[|order|..] == [] && order[..|order|] == order;
  }

  class Machine {
    var tasks: seq<Task>
    var current: nat
    var running: bool
    var locks: int
    var ticks: nat
    var preempt: nat
    var nodes: map<nat, Node>
    var head: nat
    ghost var order: seq<nat>

    ghost predicate Valid()
      reads this
    {
      current < |tasks| && Linked(nodes, head, order) && forall a | a in order :: a in nodes
    }

    ghost function View(): Kernel
      requires Valid()
      reads this
    {
      Kernel(tasks, current, running, locks, ticks, preempt, Entries(nodes, order))
    }

    constructor (preemptTicks: nat)
      ensures Valid() && View() == Boot(preemptTicks)
    {
      tasks := [Task(0, Idle, [], [], [])];
      current, running, locks, ticks, preempt := 0, true, 0, 0, preemptTicks;
      nodes, head, order := map[], 0, [];
    }

    /** Walks round the list to the next runnable task; false is a panic. */
    method Schedule() returns (ok: bool)
      requires Valid()
      modifies this`tasks, this`current
      ensures ok == SchedSpec.Schedule(old(View())).Next?
      ensures ok ==> Valid() && SchedSpec.Schedule(old(View())) == Next(View())
    {
      hide Linked, Entries;
      var next := -1;
      var c := current;
      ghost var d := 1;
      while next < 0
        invariant 1 <= d <= |tasks| && c == (if d == 1 then current else Around(|tasks|, current, d - 1))
        invariant next == -1 && Pick(tasks, current, d) == Pick(tasks, current, 1)
        decreases |tasks| - d
      {
        if c + 1 == |tasks| { c := 0; } else { c := c + 1; }
        if Runnable(tasks[c].state) {
          next := c;
          break;
        }
        if c == current { break; }
        d := d + 1;
      }
      assert next == Pick(tasks, current, 1);
      if next < 0 {
        next := 0;
        if tasks[0].state != Idle { return false; }
      }
      if tasks[current].state == Executing {
        tasks := tasks[current := tasks[current].(state := Ready)];
      }
      current := next;
      if tasks[current].state == Ready {
        tasks := tasks[current := tasks[current].(state := Executing)];
      }
      ok := true;
    }

    /** Takes at most one signal, the oldest, from the queue of the current task to
        its handler: none is lost, doubled or overtaken. */
    method DeliverSignal()
      requires Valid()
      modifies this`tasks
      ensures Valid() && View() == ProcessSignals(old(View()))
      ensures var t, t0 := tasks[current], old(tasks[current]);
              && t.delivered + t.signals == t0.delivered + t0.signals
              && |t.signals| == (if |t0.signals| > 0 then |t0.signals| - 1 else 0)
              && tasks == old(tasks)[current := t0.(signals := t.signals, delivered := t.delivered)]
    {
      hide Linked, Entries;
      var t := tasks[current];
      if t.signals != [] {
        tasks := tasks[current := t.(signals := t.signals[1..], delivered := t.delivered + [t.signals[0]])];
      }
    }

    method Yield() returns (ok: bool)
      requires Valid()
      modifies this`tasks, this`current
      ensures ok == SchedSpec.Yield(old(View())).Next?
      ensures ok ==> Valid() && SchedSpec.Yield(old(View())) == Next(View())
    {
      hide Linked, Entries, SchedSpec.Schedule;
      if locks != 0 || !running { return true; }
      ok := Schedule();
      if ok { DeliverSignal(); }
    }

    method GetTask(pid: int) returns (i: nat)
      ensures i == Find(tasks, pid, 0)
    {
      i := 0;
      while i < |tasks|
        invariant 0 <= i <= |tasks| && Find(tasks, pid, i) == Find(tasks, pid, 0)
      {
        if tasks[i].pid == pid { return; }
        i := i + 1;
      }
    }

    method KillTask(pid: int)
      requires Valid()
      modifies this`tasks
      ensures Valid() && View() == Kill(old(View()), pid)
    {
      hide Linked, Entries;
      var i := GetTask(pid);
      if i == |tasks| { return; }
      tasks := tasks[i := tasks[i].(state := Zombie)];
    }

    method AddSignal(pid: int, sig: Signal)
      requires Valid()
      modifies this`tasks
      ensures Valid() && View() == PostSignal(old(View()), pid, sig)
    {
      hide Linked, Entries;
      var i := GetTask(pid);
      if i == |tasks| { return; }
      var t := tasks[i];
      tasks := tasks[i := t.(signals := t.signals + [sig], posted := t.posted + [sig])];
    }

    method AddTask(pid: int)
      requires Valid()
      modifies this`tasks
      ensures Valid() && Next(View()) == Do(old(View()), DoAdd(pid))
    {
      hide Linked, Entries;
      tasks := tasks + [Task(pid, Ready, [], [], [])];
    }

    /** Puts the current task at the head of the queue; `a` is the memory the
        sleep heap returned for the new node. */
    method TSleep(delay: nat, a: nat)
      requires Valid() && a != 0 && a !in nodes
      modifies this`tasks, this`nodes, this`head, this`order
      ensures Valid() && View() == TimedSleep(old(View()), delay)
      ensures View().sleepers == [Sleeper(current, ticks, delay)] + old(View()).sleepers
    {
      ghost var n0, o0 := nodes, order;
      nodes := nodes[a := Node(Sleeper(current, ticks, delay), 0, head)];
      if head != 0 {
        nodes := nodes[head := nodes[head].(prev := a)];
      }
      head := a;
      order := [a] + order;
      tasks := tasks[current := tasks[current].(state := Uninterruptible)];
      forall i ensures LinkedAt(nodes, order, i) {
        assert LinkedAt(n0, o0, i - 1);
      }
      SameEntries(n0, nodes, o0);
      assert order[1..] == o0;
    }

    /** Takes the node out of the queue and gives its memory back. */
    method Unlink(sq: nat, ghost i: nat)
      requires Valid() && i < |order| && sq == order[i]
      modifies this`nodes, this`head, this`order
      ensures nodes == Unlinked(old(nodes), old(order), i) && order == old(order)[..i] + old(order)[i + 1..]
      ensures Valid()
    {
      hide Entries;
      UnlinkedIsLinked(nodes, head, order, i);
      LinkedHere(nodes, head, order, i);
      var n := nodes[sq];
      if n.prev != 0 {
        nodes := nodes[n.prev := nodes[n.prev].(next := n.next)];
      } else {
        head := n.next;
      }
      if n.next != 0 {
        nodes := nodes[n.next := nodes[n.next].(prev := n.prev)];
      }
      nodes := nodes - {sq};
      order := order[..i] + order[i + 1..];
      InNodes(nodes, head, order);
    }

    /** Removes the expired entries while walking the queue, waking their tasks. */
    method WakeupHandler()
      requires Valid()
      modifies this`tasks, this`nodes, this`head, this`order
      ensures Valid() && View() == SchedSpec.WakeupHandler(old(View()))
    {
      hide Linked, Entries, Kept, Woken, Unlinked, Midway;
      ghost var kept, woken := Kept(Entries(nodes, order), ticks), Woken(tasks, Entries(nodes, order), ticks);
      WalkStarts(nodes, order, tasks, ticks);
      HeadIsFirst(nodes, head, order);
      var sq := head;
      ghost var i := 0;
      while sq != 0
        invariant Valid() && |tasks| == |old(tasks)| && 0 <= i <= |order|
        invariant sq == (if i < |order| then order[i] else 0) && (i < |order| ==> sq != 0)
        invariant Midway(nodes, order, i, tasks, ticks, kept, woken)
        decreases |order| - i
      {
        LinkedHere(nodes, head, order, i);
        var e, next := nodes[sq].entry, nodes[sq].next;
        ghost var before := tasks;
        if e.expires != 0 && ticks - e.started >= e.expires {
          if e.task < |tasks| && tasks[e.task].state == Uninterruptible {
            tasks := tasks[e.task := tasks[e.task].(state := Ready)];
          }
          WalkRemoves(nodes, head, order, i, before, ticks, kept, woken);
          UnlinkedIsLinked(nodes, head, order, i);
          Unlink(sq, i);
          sq := next;
        } else {
          WalkKeeps(nodes, order, i, tasks, ticks, kept, woken);
          sq := next;
          i := i + 1;
        }
      }
      WalkEnds(nodes, order, tasks, ticks, kept, woken);
    }

    /** The timer interrupt: count the tick, then wake sleepers or preempt. */
    method TimerInterrupt() returns (ok: bool)
      requires Valid()
      modifies this`tasks, this`current, this`ticks, this`nodes, this`head, this`order
      ensures ok == Tick(old(View())).Next?
      ensures ok ==> Valid() && Tick(old(View())) == Next(View())
    {
      hide Linked, Entries, SchedSpec.Yield, SchedSpec.WakeupHandler;
      ticks := ticks + 1;
      if ticks % WAKEUP_TICKS == 0 {
        WakeupHandler();
        return true;
      } else if preempt != 0 && ticks % preempt == 0 {
        ok := Yield();
      } else {
        ok := true;
      }
    }
  }
}
