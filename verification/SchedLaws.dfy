/** What every run of the scheduling machine keeps, how long a ready task can
    wait, and when a sleeper wakes. */
module SchedLaws {
  import opened SchedSpec

  // ----- the choice of schedule -----

  /** `Pick` finds the runnable task at the smallest distance, if there is any. */
  lemma {:induction false} PickIsNearest(tasks: seq<Task>, cur: nat, d: nat)
    requires cur < |tasks| && 1 <= d <= |tasks| + 1
    ensures var p := Pick(tasks, cur, d);
            && (p >= 0 ==> Runnable(tasks[p].state) && Distance(|tasks|, cur, p) >= d)
            && forall i | 0 <= i < |tasks| && Runnable(tasks[i].state) && Distance(|tasks|, cur, i) >= d ::
                 0 <= p && Distance(|tasks|, cur, p) <= Distance(|tasks|, cur, i)
    decreases |tasks| + 1 - d
  {
    if d <= |tasks| {
      PickIsNearest(tasks, cur, d + 1);
      assert Distance(|tasks|, cur, Around(|tasks|, cur, d)) == d;
    }
  }

  /** Task i lies behind `from` and in front of `to`, going down the list and on from
      its head. */
  predicate Skipped(from: nat, to: nat, i: int) { if from < to then from < i < to else i > from || i < to }

  /** schedule picks the next runnable task in list order; the idle task at the
      head is picked exactly when nothing is runnable, and the kernel panics
      exactly when it is not idle then. */
  lemma ScheduleChoice(k: Kernel)
    requires k.current < |k.tasks|
    ensures var busy := exists i :: 0 <= i < |k.tasks| && Runnable(k.tasks[i].state);
            && (Schedule(k).Panic? <==> !busy && k.tasks[0].state != Idle)
            && (!busy && Schedule(k).Next? ==> Schedule(k).k.current == 0)
            && (busy ==>
                 var c := Schedule(k).k.current;
                 && c < |k.tasks| && Runnable(k.tasks[c].state)
                 && (forall i | 0 <= i < |k.tasks| && Runnable(k.tasks[i].state) ::
                       Distance(|k.tasks|, k.current, c) <= Distance(|k.tasks|, k.current, i))
                 && forall i | 0 <= i < |k.tasks| && Skipped(k.current, c, i) :: !Runnable(k.tasks[i].state))
  {
    PickIsNearest(k.tasks, k.current, 1);
    var p := Pick(k.tasks, k.current, 1);
    if i :| 0 <= i < |k.tasks| && Runnable(k.tasks[i].state) {
      assert Distance(|k.tasks|, k.current, i) >= 1;
    }
  }

  /** What becomes of the states: the task that gets the processor is executing, the one
      that loses it is ready again, and nothing else changes. */
  lemma SwitchStates(k: Kernel)
    requires k.current < |k.tasks| && Schedule(k).Next?
    ensures var k' := Schedule(k).k;
            var c := k'.current;
            && c < |k.tasks| == |k'.tasks| && k' == k.(tasks := k'.tasks, current := c)
            && k'.tasks[c] == (if Runnable(k.tasks[c].state) then k.tasks[c].(state := Executing) else k.tasks[c])
            && forall i | 0 <= i < |k.tasks| && i != c ::
                 k'.tasks[i] == if i == k.current && k.tasks[i].state == Executing then k.tasks[i].(state := Ready)
                                else k.tasks[i]
  {
    hide Pick;
    PickIsNearest(k.tasks, k.current, 1);
  }

  /** yield calls schedule exactly when the scheduler runs and nobody holds its lock;
      then the new current task gets its oldest signal. */
  lemma YieldEffect(k: Kernel)
    requires k.current < |k.tasks|
    ensures !k.running || k.locks != 0 ==> Yield(k) == Next(k)
    ensures k.running && k.locks == 0 ==> (Yield(k).Panic? <==> Schedule(k).Panic?)
    ensures k.running && k.locks == 0 && Schedule(k).Next? ==>
              var k1, k2 := Schedule(k).k, Yield(k).k;
              && k1.current < |k1.tasks| == |k2.tasks| && k2 == k1.(tasks := k2.tasks)
              && (forall i | 0 <= i < |k1.tasks| && i != k1.current :: k2.tasks[i] == k1.tasks[i])
              && var t1, t2 := k1.tasks[k1.current], k2.tasks[k1.current];
                 && t2 == t1.(signals := t2.signals, delivered := t2.delivered)
                 && t2.delivered + t2.signals == t1.delivered + t1.signals
                 && |t2.signals| == if |t1.signals| > 0 then |t1.signals| - 1 else 0
  {
    hide Schedule;
    if Schedule(k).Next? {
      SwitchStates(k);
      var t := Schedule(k).k.tasks[Schedule(k).k.current];
      assert t.signals != [] ==> t.delivered + t.signals == t.delivered + [t.signals[0]] + t.signals[1..];
    }
  }

  /** The timer counts; at a multiple of 100 it runs the wakeup handler and nothing else,
      at any other multiple of the preemption period it yields, and otherwise it is done. */
  lemma TickEffect(k: Kernel)
    requires k.current < |k.tasks|
    ensures var k1 := k.(ticks := k.ticks + 1);
            if k1.ticks % 100 == 0 then
              Tick(k).Next? && Tick(k).k == k1.(tasks := Tick(k).k.tasks, sleepers := Tick(k).k.sleepers)
            else Tick(k) == if k.preempt > 0 && k1.ticks % k.preempt == 0 then Yield(k1) else Next(k1)
  {
    hide Yield, Woken, Kept;
  }

  // ----- invariants -----

  predicate ExecOk(k: Kernel, i: int) {
    0 <= i < |k.tasks| && k.tasks[i].state == Executing ==> i == k.current
  }

  predicate SignalsOk(t: Task) { t.posted == t.delivered + t.signals }

  /** The latest timer tick at which the wakeup handler ran. */
  function LastWakeup(ticks: nat): nat { ticks - ticks % WAKEUP_TICKS }

  predicate SleeperOk(s: Sleeper, k: Kernel) {
    && s.task < |k.tasks| && s.started <= k.ticks
    && (s.expires > 0 ==> LastWakeup(k.ticks) < s.started + s.expires)
  }

  ghost predicate OneEntry(q: seq<Sleeper>) {
    forall a, b | 0 <= a < b < |q| :: q[a].task != q[b].task
  }

  ghost predicate Inv(k: Kernel) {
    && k.current < |k.tasks|
    && (forall i :: ExecOk(k, i))
    && (forall i | 0 <= i < |k.tasks| :: SignalsOk(k.tasks[i]))
    && (forall i | 0 <= i < |k.sleepers| :: SleeperOk(k.sleepers[i], k))
    && OneEntry(k.sleepers)
  }

  ghost predicate NoEntry(q: seq<Sleeper>, t: nat) { forall i | 0 <= i < |q| :: q[i].task != t }

  /** A task goes to sleep only when it is not in the queue already. */
  ghost predicate Enabled(k: Kernel, s: Step) { s.DoSleep? ==> NoEntry(k.sleepers, k.current) }

  lemma BootInv(preempt: nat)
    ensures Inv(Boot(preempt))
  {
  }

  lemma ScheduleInv(k: Kernel)
    requires Inv(k) && Schedule(k).Next?
    ensures Inv(Schedule(k).k)
  {
    var k' := Schedule(k).k;
    forall i ensures ExecOk(k', i) {
      assert ExecOk(k, i);
    }
    forall i | 0 <= i < |k'.sleepers| ensures SleeperOk(k'.sleepers[i], k') {
      assert SleeperOk(k.sleepers[i], k);
    }
  }

  lemma YieldInv(k: Kernel)
    requires Inv(k) && Yield(k).Next?
    ensures Inv(Yield(k).k)
  {
    if CanSwitch(k) {
      ScheduleInv(k);
      var k1, k' := Schedule(k).k, Yield(k).k;
      forall i ensures ExecOk(k', i) {
        assert ExecOk(k1, i);
      }
      forall i | 0 <= i < |k'.sleepers| ensures SleeperOk(k'.sleepers[i], k') {
        assert SleeperOk(k1.sleepers[i], k1);
      }
      var t := k1.tasks[k1.current];
      assert t.signals != [] ==> t.delivered + t.signals == t.delivered + [t.signals[0]] + t.signals[1..];
      forall i | 0 <= i < |k'.tasks| ensures SignalsOk(k'.tasks[i]) {
        assert SignalsOk(k1.tasks[i]);
      }
    }
  }

  // ----- the wakeup handler -----

  /** The handler keeps exactly the entries that have not expired, in order. */
  lemma {:induction false} KeptIsFilter(q: seq<Sleeper>, now: nat)
    ensures forall s :: s in Kept(q, now) <==> s in q && !Expired(s, now)
    ensures |Kept(q, now)| <= |q|
    decreases |q|
  {
    if q != [] { KeptIsFilter(q[1..], now); }
  }

  lemma {:induction false} KeptOneEntry(q: seq<Sleeper>, now: nat)
    requires OneEntry(q)
    ensures OneEntry(Kept(q, now))
    decreases |q|
  {
    if q != [] {
      assert OneEntry(q[1..]);
      KeptOneEntry(q[1..], now);
      KeptIsFilter(q[1..], now);
      var r := Kept(q[1..], now);
      forall a | 0 <= a < |r| ensures r[a].task != q[0].task {
        assert r[a] in q[1..];
        var b :| 0 <= b < |q[1..]| && q[1..][b] == r[a];
        assert q[b + 1] == r[a];
      }
    }
  }

  /** A pass of the handler wakes a task exactly when it is uninterruptible and
      an expired entry names it; it changes nothing else. */
  lemma {:induction false} WokenTask(tasks: seq<Task>, q: seq<Sleeper>, now: nat, t: nat)
    requires t < |tasks|
    ensures var r := Woken(tasks, q, now)[t];
            if tasks[t].state == Uninterruptible && exists a :: 0 <= a < |q| && Expired(q[a], now) && q[a].task == t
            then r == tasks[t].(state := Ready) else r == tasks[t]
    decreases |q|
  {
    if q != [] {
      var tasks' := if Expired(q[0], now) then Wake(tasks, q[0].task) else tasks;
      WokenTask(tasks', q[1..], now, t);
      if a :| 0 <= a < |q| && Expired(q[a], now) && q[a].task == t {
        assert a > 0 ==> q[1..][a - 1] == q[a];
      }
      if b :| 0 <= b < |q[1..]| && Expired(q[1..][b], now) && q[1..][b].task == t {
        assert q[b + 1] == q[1..][b];
      }
    }
  }

  lemma WakeupInv(k: Kernel)
    requires k.ticks > 0 && Inv(k.(ticks := k.ticks - 1)) && k.ticks % WAKEUP_TICKS == 0
    ensures Inv(WakeupHandler(k))
  {
    var k0, k' := k.(ticks := k.ticks - 1), WakeupHandler(k);
    forall i ensures ExecOk(k', i) {
      assert ExecOk(k0, i);
      if 0 <= i < |k.tasks| { WokenTask(k.tasks, k.sleepers, k.ticks, i); }
    }
    forall i | 0 <= i < |k'.tasks| ensures SignalsOk(k'.tasks[i]) {
      WokenTask(k.tasks, k.sleepers, k.ticks, i);
      assert SignalsOk(k0.tasks[i]);
    }
    KeptIsFilter(k.sleepers, k.ticks);
    KeptOneEntry(k.sleepers, k.ticks);
    forall i | 0 <= i < |k'.sleepers| ensures SleeperOk(k'.sleepers[i], k') {
      assert k'.sleepers[i] in k.sleepers;
      var j :| 0 <= j < |k.sleepers| && k.sleepers[j] == k'.sleepers[i];
      assert SleeperOk(k0.sleepers[j], k0);
    }
  }

  lemma TickInv(k: Kernel)
    requires Inv(k) && Tick(k).Next?
    ensures Inv(Tick(k).k)
  {
    var k1 := k.(ticks := k.ticks + 1);
    if k1.ticks % WAKEUP_TICKS == 0 {
      WakeupInv(k1);
    } else {
      assert LastWakeup(k1.ticks) == LastWakeup(k.ticks);
      forall i ensures ExecOk(k1, i) {
        assert ExecOk(k, i);
      }
      forall i | 0 <= i < |k1.sleepers| ensures SleeperOk(k1.sleepers[i], k1) {
        assert SleeperOk(k.sleepers[i], k);
      }
      if k1.preempt != 0 && k1.ticks % k1.preempt == 0 { YieldInv(k1); }
    }
  }

  /** Changing one task's state to anything but Executing, adding a task that is
      not executing, or touching the lock keeps the invariant. */
  lemma QuietStepInv(k: Kernel, k': Kernel)
    requires Inv(k) && k'.current == k.current && k'.ticks == k.ticks && k'.sleepers == k.sleepers
    requires |k.tasks| <= |k'.tasks|
    requires forall i | 0 <= i < |k'.tasks| ::
               && SignalsOk(k'.tasks[i])
               && (k'.tasks[i].state == Executing ==> i < |k.tasks| && k.tasks[i].state == Executing)
    ensures Inv(k')
  {
    forall i ensures ExecOk(k', i) {
      assert ExecOk(k, i);
    }
    forall i | 0 <= i < |k'.sleepers| ensures SleeperOk(k'.sleepers[i], k') {
      assert SleeperOk(k.sleepers[i], k);
    }
  }

  lemma SleepInv(k: Kernel, delay: nat)
    requires Inv(k) && NoEntry(k.sleepers, k.current)
    ensures Inv(TimedSleep(k, delay))
  {
    var k' := TimedSleep(k, delay);
    forall i ensures ExecOk(k', i) {
      assert ExecOk(k, i);
    }
    forall i | 0 <= i < |k'.sleepers| ensures SleeperOk(k'.sleepers[i], k') {
      if i > 0 {
        assert SleeperOk(k.sleepers[i - 1], k) && k'.sleepers[i] == k.sleepers[i - 1];
      }
    }
    forall a, b | 0 <= a < b < |k'.sleepers| ensures k'.sleepers[a].task != k'.sleepers[b].task {
      assert k'.sleepers[b] == k.sleepers[b - 1];
      assert a > 0 ==> k'.sleepers[a] == k.sleepers[a - 1];
    }
  }

  lemma StepInv(k: Kernel, s: Step)
    requires Inv(k) && Enabled(k, s) && Do(k, s).Next?
    ensures Inv(Do(k, s).k)
  {
    match s
    case DoYield => YieldInv(k);
    case DoTick => TickInv(k);
    case DoSleep(d) => SleepInv(k, d);
    case DoSignal(pid, sig) =>
      var i := Find(k.tasks, pid, 0);
      if i < |k.tasks| {
        var t := k.tasks[i];
        assert t.delivered + t.signals + [sig] == t.delivered + (t.signals + [sig]);
      }
      QuietStepInv(k, Do(k, s).k);
    case _ => QuietStepInv(k, Do(k, s).k);
  }

  // ----- runs -----

  /** The states k, ... , k' of a run; every step was enabled and none panicked. */
  ghost predicate IsRun(k: Kernel, steps: seq<Step>, k': Kernel)
    decreases |steps|
  {
    && k.current < |k.tasks|
    && if steps == [] then k' == k
       else Enabled(k, steps[0]) && Do(k, steps[0]).Next? && IsRun(Do(k, steps[0]).k, steps[1..], k')
  }

  lemma {:induction false} RunInv(k: Kernel, steps: seq<Step>, k': Kernel)
    requires Inv(k) && IsRun(k, steps, k')
    ensures Inv(k')
    decreases |steps|
  {
    if steps != [] {
      StepInv(k, steps[0]);
      RunInv(Do(k, steps[0]).k, steps[1..], k');
    }
  }

  lemma NoneOverdue(k: Kernel)
    requires Inv(k)
    ensures forall s | s in k.sleepers && s.expires > 0 :: k.ticks < s.started + s.expires + WAKEUP_TICKS - 1
  {
    forall s | s in k.sleepers && s.expires > 0 ensures k.ticks < s.started + s.expires + WAKEUP_TICKS - 1 {
      var i :| 0 <= i < |k.sleepers| && k.sleepers[i] == s;
      assert SleeperOk(k.sleepers[i], k);
    }
  }

  /** From boot, after any run: an executing task is the current one, every
      signal posted to a task was delivered in order or is still queued in
      order, and no sleeper has overslept by a full wakeup period. */
  lemma {:induction false} EveryRunFromBoot(preempt: nat, steps: seq<Step>, k: Kernel)
    requires IsRun(Boot(preempt), steps, k)
    ensures forall i | 0 <= i < |k.tasks| && k.tasks[i].state == Executing :: i == k.current
    ensures forall t | t in k.tasks :: t.posted == t.delivered + t.signals
    ensures forall s | s in k.sleepers && s.expires > 0 :: k.ticks < s.started + s.expires + 99
  {
    BootInv(preempt);
    RunInv(Boot(preempt), steps, k);
    forall i | 0 <= i < |k.tasks| && k.tasks[i].state == Executing ensures i == k.current {
      assert ExecOk(k, i);
    }
    NoneOverdue(k);
  }

  // ----- who can run -----

  /** The step takes task i away from those that can run. */
  predicate PutsAway(k: Kernel, s: Step, i: nat) {
    match s
    case DoSleep(_) => i == k.current
    case DoExit => i == k.current
    case DoKill(pid) => Find(k.tasks, pid, 0) == i
    case DoPause(j) => j == i
    case _ => false
  }

  /** The step brings task i back: somebody resumes it, or the timer comes to a multiple
      of 100 and an entry of its has expired. */
  ghost predicate BringsBack(k: Kernel, s: Step, i: nat)
    requires i < |k.tasks|
  {
    match s
    case DoResume(j) => j == i
    case DoTick =>
      && (k.ticks + 1) % 100 == 0 && k.tasks[i].state == Uninterruptible
      && exists e :: e in k.sleepers && e.task == i && e.expires != 0 && k.ticks + 1 >= e.started + e.expires
    case _ => false
  }

  lemma YieldRunnable(k: Kernel, i: nat)
    requires k.current < |k.tasks| && i < |k.tasks| && Yield(k).Next?
    ensures |Yield(k).k.tasks| == |k.tasks|
    ensures Runnable(Yield(k).k.tasks[i].state) <==> Runnable(k.tasks[i].state)
    ensures k.tasks[i].state == Idle ==> Yield(k).k.tasks[i].state == Idle
  {
    hide Yield, Schedule;
    YieldEffect(k);
    if k.running && k.locks == 0 { SwitchStates(k); }
  }

  lemma HandlerRunnable(k: Kernel, i: nat)
    requires k.current < |k.tasks| && i < |k.tasks| && (k.ticks + 1) % 100 == 0
    ensures Tick(k).Next? && |Tick(k).k.tasks| == |k.tasks|
    ensures Runnable(Tick(k).k.tasks[i].state) <==> Runnable(k.tasks[i].state) || BringsBack(k, DoTick, i)
    ensures k.tasks[i].state == Idle ==> Tick(k).k.tasks[i].state == Idle
  {
    hide Woken, Kept;
    WokenTask(k.tasks, k.sleepers, k.ticks + 1, i);
    if e :| e in k.sleepers && e.task == i && e.expires != 0 && k.ticks + 1 >= e.started + e.expires {
      var a :| 0 <= a < |k.sleepers| && k.sleepers[a] == e;
    }
  }

  /** A task that can run goes on being one exactly until it sleeps, ends, or is killed
      or paused; one that cannot becomes one exactly when it is brought back. */
  lemma RunnableIff(k: Kernel, s: Step, i: nat)
    requires k.current < |k.tasks| && i < |k.tasks| && Do(k, s).Next?
    ensures |Do(k, s).k.tasks| >= |k.tasks|
    ensures Runnable(Do(k, s).k.tasks[i].state) <==>
            if Runnable(k.tasks[i].state) then !PutsAway(k, s, i) else BringsBack(k, s, i)
  {
    hide Yield, Woken, Kept;
    match s
    case DoYield => YieldRunnable(k, i);
    case DoTick =>
      if (k.ticks + 1) % 100 == 0 {
        HandlerRunnable(k, i);
      } else if Yield(k.(ticks := k.ticks + 1)).Next? {
        YieldRunnable(k.(ticks := k.ticks + 1), i);
      }
    case _ =>
  }

  /** No step of the run puts task i away. */
  ghost predicate Spared(k: Kernel, steps: seq<Step>, i: nat)
    decreases |steps|
  {
    steps != [] && k.current < |k.tasks| ==>
      && !PutsAway(k, steps[0], i)
      && (Do(k, steps[0]).Next? ==> Spared(Do(k, steps[0]).k, steps[1..], i))
  }

  lemma {:induction false} StaysRunnable(k: Kernel, steps: seq<Step>, k': Kernel, i: nat)
    requires IsRun(k, steps, k') && i < |k.tasks| && Runnable(k.tasks[i].state) && Spared(k, steps, i)
    ensures i < |k'.tasks| && Runnable(k'.tasks[i].state)
    decreases |steps|
  {
    hide Do, PutsAway, BringsBack;
    if steps != [] {
      RunnableIff(k, steps[0], i);
      StaysRunnable(Do(k, steps[0]).k, steps[1..], k', i);
    }
  }

  /** The step touches the idle task at the head of the list. */
  predicate TouchesIdle(k: Kernel, s: Step) { PutsAway(k, s, 0) || s == DoResume(0) }

  lemma IdleStep(k: Kernel, s: Step)
    requires k.current < |k.tasks| && k.tasks[0].state == Idle && !TouchesIdle(k, s)
    ensures Do(k, s).Next?
    ensures var k' := Do(k, s).k; k'.current < |k'.tasks| && k'.tasks[0].state == Idle
  {
    hide Yield, Woken, Kept, Schedule;
    ScheduleChoice(k);
    YieldEffect(k);
    match s
    case DoYield =>
      YieldRunnable(k, 0);
      if k.running && k.locks == 0 { SwitchStates(k); }
    case DoTick =>
      var k1 := k.(ticks := k.ticks + 1);
      ScheduleChoice(k1);
      YieldEffect(k1);
      if (k.ticks + 1) % 100 == 0 { HandlerRunnable(k, 0); } else { YieldRunnable(k1, 0); }
      if k1.running && k1.locks == 0 { SwitchStates(k1); }
    case _ =>
  }

  /** The steps leave the idle task alone, and no task goes to sleep twice. */
  ghost predicate IdleSpared(k: Kernel, steps: seq<Step>)
    decreases |steps|
  {
    steps != [] && k.current < |k.tasks| ==>
      && !TouchesIdle(k, steps[0]) && Enabled(k, steps[0])
      && (Do(k, steps[0]).Next? ==> IdleSpared(Do(k, steps[0]).k, steps[1..]))
  }

  /** As long as nobody touches the idle task there is always a task to run: no sequence
      of steps makes the scheduler panic. */
  lemma {:induction false} NeverPanics(k: Kernel, steps: seq<Step>)
    requires k.current < |k.tasks| && k.tasks[0].state == Idle && IdleSpared(k, steps)
    ensures exists k' :: IsRun(k, steps, k')
    decreases |steps|
  {
    hide Do, TouchesIdle;
    if steps == [] {
      assert IsRun(k, steps, k);
    } else {
      IdleStep(k, steps[0]);
      NeverPanics(Do(k, steps[0]).k, steps[1..]);
      var k' :| IsRun(Do(k, steps[0]).k, steps[1..], k');
      assert IsRun(k, steps, k');
    }
  }

  /** From boot on, whatever the tasks do to each other. */
  lemma BootNeverPanics(preempt: nat, steps: seq<Step>)
    requires IdleSpared(Boot(preempt), steps)
    ensures exists k' :: IsRun(Boot(preempt), steps, k')
  {
    NeverPanics(Boot(preempt), steps);
  }

  /** The first task that is added runs at the next yield. */
  lemma FirstTaskRuns(preempt: nat, pid: int)
    ensures var k := Do(Boot(preempt), DoAdd(pid)).k;
            && k.current == 0 && |k.tasks| == 2 && k.sleepers == [] && k.ticks == 0
            && Do(k, DoYield).Next? && Do(k, DoYield).k.current == 1 && |Do(k, DoYield).k.tasks| == 2
            && Do(k, DoYield).k.tasks[1] == Task(pid, Executing, [], [], [])
  {
    var k := Do(Boot(preempt), DoAdd(pid)).k;
    assert Pick(k.tasks, 0, 1) == 1;
  }

  // ----- signals -----

  /** The signals that the steps of a run send to task i, in order. */
  ghost function SentTo(k: Kernel, steps: seq<Step>, i: nat): seq<Signal>
    decreases |steps|
  {
    if steps == [] || k.current >= |k.tasks| then []
    else
      (if steps[0].DoSignal? && Find(k.tasks, steps[0].pid, 0) == i then [steps[0].sig] else [])
      + if Do(k, steps[0]).Next? then SentTo(Do(k, steps[0]).k, steps[1..], i) else []
  }

  lemma YieldPosts(k: Kernel, i: nat)
    requires k.current < |k.tasks| && i < |k.tasks| && Yield(k).Next?
    ensures |Yield(k).k.tasks| == |k.tasks| && Yield(k).k.tasks[i].posted == k.tasks[i].posted
  {
    hide Yield, Schedule;
    YieldEffect(k);
    if k.running && k.locks == 0 { SwitchStates(k); }
  }

  lemma StepPosts(k: Kernel, s: Step, i: nat)
    requires k.current < |k.tasks| && i < |k.tasks| && Do(k, s).Next?
    ensures |Do(k, s).k.tasks| >= |k.tasks|
    ensures Do(k, s).k.tasks[i].posted ==
            k.tasks[i].posted + if s.DoSignal? && Find(k.tasks, s.pid, 0) == i then [s.sig] else []
  {
    hide Yield, Woken, Kept;
    match s
    case DoYield => YieldPosts(k, i);
    case DoTick =>
      WokenTask(k.tasks, k.sleepers, k.ticks + 1, i);
      if Yield(k.(ticks := k.ticks + 1)).Next? { YieldPosts(k.(ticks := k.ticks + 1), i); }
    case _ =>
  }

  /** Over every run a task gets exactly the signals sent to it: delivered in the order
      of sending, or still queued in that order behind those. */
  lemma {:induction false} SignalsArrive(k: Kernel, steps: seq<Step>, k': Kernel, i: nat)
    requires Inv(k) && IsRun(k, steps, k') && i < |k.tasks|
    ensures i < |k'.tasks| && k'.tasks[i].posted == k.tasks[i].posted + SentTo(k, steps, i)
    ensures k'.tasks[i].delivered + k'.tasks[i].signals ==
            k.tasks[i].delivered + k.tasks[i].signals + SentTo(k, steps, i)
    decreases |steps|
  {
    RunInv(k, steps, k');
    assert SignalsOk(k.tasks[i]);
    PostsAddUp(k, steps, k', i);
    assert SignalsOk(k'.tasks[i]);
  }

  lemma {:induction false} PostsAddUp(k: Kernel, steps: seq<Step>, k': Kernel, i: nat)
    requires IsRun(k, steps, k') && i < |k.tasks|
    ensures i < |k'.tasks| && k'.tasks[i].posted == k.tasks[i].posted + SentTo(k, steps, i)
    decreases |steps|
  {
    hide Do;
    if steps != [] {
      StepPosts(k, steps[0], i);
      PostsAddUp(Do(k, steps[0]).k, steps[1..], k', i);
    }
  }

  // ----- ending -----

  /** A task that is killed, or ends itself, never runs again once it has left the
      processor; the step makes it a zombie and does nothing else. */
  lemma EndedIsZombie(k: Kernel, s: Step, i: nat)
    requires k.current < |k.tasks| && i < |k.tasks|
    requires (s.DoKill? && Find(k.tasks, s.pid, 0) == i) || (s.DoExit? && i == k.current)
    ensures Do(k, s) == Next(k.(tasks := k.tasks[i := k.tasks[i].(state := Zombie)]))
  {
  }

  /** A new task comes last and is ready. */
  lemma AddedIsReady(k: Kernel, pid: int)
    requires k.current < |k.tasks|
    ensures Do(k, DoAdd(pid)) == Next(k.(tasks := k.tasks + [Task(pid, Ready, [], [], [])]))
  {
  }

  // ----- zombies -----

  ghost predicate Buried(k: Kernel, i: nat) { i < |k.tasks| && k.tasks[i].state == Zombie && k.current != i }

  /** A task that cannot run keeps its state across a yield, and does not become
      the current one unless it is the idle task. */
  lemma YieldSkips(k: Kernel, i: nat)
    requires k.current < |k.tasks| && i < |k.tasks| && !Runnable(k.tasks[i].state) && Yield(k).Next?
    ensures var k' := Yield(k).k;
            && |k'.tasks| == |k.tasks| && k'.tasks[i].state == k.tasks[i].state && k'.sleepers == k.sleepers
            && k'.current < |k'.tasks| && (k'.current == i ==> k.current == i || k.tasks[i].state == Idle)
  {
    hide Pick;
    PickIsNearest(k.tasks, k.current, 1);
  }

  /** The one way out: a step unburies a zombie exactly when it pauses or resumes
      that very task. */
  lemma StepKeepsBuried(k: Kernel, s: Step, i: nat)
    requires k.current < |k.tasks| && Buried(k, i) && Do(k, s).Next?
    ensures Buried(Do(k, s).k, i) <==> s != DoPause(i) && s != DoResume(i)
    ensures Do(k, s).k.current < |Do(k, s).k.tasks|
  {
    hide Yield, Woken, Kept;
    if s.DoYield? && Yield(k).Next? { YieldSkips(k, i); }
    if s.DoTick? {
      var k1 := k.(ticks := k.ticks + 1);
      WokenTask(k.tasks, k.sleepers, k.ticks + 1, i);
      if Yield(k1).Next? { YieldSkips(k1, i); }
    }
  }

  /** Once a zombie has left the processor it never runs again, whatever
      happens, unless someone pauses or resumes that very task. */
  lemma {:induction false} ZombiesStayBuried(k: Kernel, steps: seq<Step>, k': Kernel, i: nat)
    requires IsRun(k, steps, k') && Buried(k, i)
    requires forall j | 0 <= j < |steps| :: steps[j] != DoPause(i) && steps[j] != DoResume(i)
    ensures Buried(k', i)
    decreases |steps|
  {
    if steps != [] {
      StepKeepsBuried(k, steps[0], i);
      ZombiesStayBuried(Do(k, steps[0]).k, steps[1..], k', i);
    }
  }

  /** Task 0 idles and task 1, in the given state, is not the current one. */
  function IdleAndOther(state: TaskState, sleepers: seq<Sleeper>, ticks: nat): Kernel {
    Kernel([Task(0, Idle, [], [], []), Task(1, state, [], [], [])], 0, true, 0, ticks, 0, sleepers)
  }

  ghost predicate Revived(k: Kernel, steps: seq<Step>) {
    exists k' :: IsRun(k, steps, k') && k'.current == 1 < |k'.tasks| && k'.tasks[1].state == Executing
  }

  lemma ReadyRunsNext(ticks: nat)
    ensures var k := IdleAndOther(Ready, [], ticks);
            Do(k, DoYield) == Next(IdleAndOther(Executing, [], ticks).(current := 1))
  {
    var k := IdleAndOther(Ready, [], ticks);
    assert Pick(k.tasks, 0, 1) == 1;
    assert Switch(k, 1).tasks == IdleAndOther(Executing, [], ticks).tasks;
  }

  /** Resuming a buried zombie lets it run again. */
  lemma ResumedZombieRuns()
    ensures var k := IdleAndOther(Zombie, [], 0);
            Buried(k, 1) && Inv(k) && Revived(k, [DoResume(1), DoYield])
  {
    hide Yield;
    var k, k1 := IdleAndOther(Zombie, [], 0), IdleAndOther(Ready, [], 0);
    assert SetState(k.tasks, 1, Ready) == k1.tasks;
    ReadyRunsNext(0);
    RunOfTwo(k, DoResume(1), DoYield, k1, IdleAndOther(Executing, [], 0).(current := 1));
  }

  lemma HandlerWakesPaused()
    ensures Do(IdleAndOther(Uninterruptible, [Sleeper(1, 0, 1)], 99), DoTick) == Next(IdleAndOther(Ready, [], 100))
  {
    hide Yield;
    var k := IdleAndOther(Uninterruptible, [Sleeper(1, 0, 1)], 99);
    assert Expired(k.sleepers[0], 100) && k.sleepers[1..] == [];
    assert Wake(k.tasks, 1) == IdleAndOther(Ready, [], 100).tasks;
  }

  /** Pausing one that still has an entry in the queue lets the timer wake it, and
      then it runs again. */
  lemma PausedZombieComesBack()
    ensures var k := IdleAndOther(Zombie, [Sleeper(1, 0, 1)], 99);
            Buried(k, 1) && Inv(k) && Revived(k, [DoPause(1), DoTick, DoYield])
  {
    hide Yield, Tick;
    var q := [Sleeper(1, 0, 1)];
    var k, k1 := IdleAndOther(Zombie, q, 99), IdleAndOther(Uninterruptible, q, 99);
    var k2, k3 := IdleAndOther(Ready, [], 100), IdleAndOther(Executing, [], 100).(current := 1);
    assert SetState(k.tasks, 1, Uninterruptible) == k1.tasks;
    HandlerWakesPaused();
    ReadyRunsNext(100);
    RunOfTwo(k1, DoTick, DoYield, k2, k3);
    assert [DoPause(1), DoTick, DoYield][1..] == [DoTick, DoYield];
  }

  lemma RunOfTwo(k: Kernel, a: Step, b: Step, k1: Kernel, k2: Kernel)
    requires k.current < |k.tasks| && k1.current < |k1.tasks| && k2.current < |k2.tasks|
    requires Enabled(k, a) && Do(k, a) == Next(k1) && Enabled(k1, b) && Do(k1, b) == Next(k2)
    ensures IsRun(k, [a, b], k2)
  {
    assert [a, b][1..] == [b] && [b][1..] == [];
    assert IsRun(k2, [], k2);
  }

  // ----- the scheduler lock -----

  function Locked(steps: seq<Step>): nat {
    if steps == [] then 0 else (if steps[0].DoLock? then 1 else 0) + Locked(steps[1..])
  }

  function Unlocked(steps: seq<Step>): nat {
    if steps == [] then 0 else (if steps[0].DoUnlock? then 1 else 0) + Unlocked(steps[1..])
  }

  lemma LockedStep(k: Kernel, s: Step)
    requires k.current < |k.tasks|
    ensures Do(k, s).Next? ==> Do(k, s).k.locks == k.locks + Locked([s]) - Unlocked([s])
    ensures k.locks != 0 ==> Do(k, s).Next? && Do(k, s).k.current == k.current
  {
    hide Pick, Woken, Kept;
    assert [s][1..] == [];
  }

  /** A task that holds the scheduler lock stays on the processor, through any
      steps and any nesting, until as many unlocks have come as it holds locks. */
  lemma {:induction false} LockedRun(k: Kernel, steps: seq<Step>, k': Kernel)
    requires IsRun(k, steps, k')
    ensures k'.locks == k.locks + Locked(steps) - Unlocked(steps)
    ensures Unlocked(steps) < k.locks ==> k'.current == k.current
    decreases |steps|
  {
    hide Do;
    if steps != [] {
      LockedStep(k, steps[0]);
      assert [steps[0]][1..] == [];
      LockedRun(Do(k, steps[0]).k, steps[1..], k');
    }
  }

  // ----- bounded waiting -----

  /** Number of times a step calls schedule. */
  function Switches(k: Kernel, s: Step): nat {
    var called :=
      match s
      case DoYield => k.locks == 0 && k.running
      case DoTick =>
        var t := k.ticks + 1;
        t % 100 != 0 && k.preempt != 0 && t % k.preempt == 0 && k.locks == 0 && k.running
      case _ => false;
    if called then 1 else 0
  }

  function Adds(s: Step): nat { if s.DoAdd? then 1 else 0 }

  /** Calls of schedule and additions of tasks along a run. */
  function TotalSwitches(k: Kernel, steps: seq<Step>): nat
    decreases |steps|
  {
    if steps == [] || k.current >= |k.tasks| then 0
    else Switches(k, steps[0]) + if Do(k, steps[0]).Next? then TotalSwitches(Do(k, steps[0]).k, steps[1..]) else 0
  }

  function TotalAdds(steps: seq<Step>): nat {
    if steps == [] then 0 else Adds(steps[0]) + TotalAdds(steps[1..])
  }

  /** Task i is ready, and not yet current, in every state of the run. */
  ghost predicate Waits(k: Kernel, steps: seq<Step>, i: nat)
    decreases |steps|
  {
    && i < |k.tasks| && k.tasks[i].state == Ready && i != k.current && k.current < |k.tasks|
    && (steps != [] && Do(k, steps[0]).Next? ==> Waits(Do(k, steps[0]).k, steps[1..], i))
  }

  /** A call of schedule that does not pick task i gets closer to it. */
  lemma SwitchGetsCloser(k: Kernel, i: nat)
    requires k.current < |k.tasks| && i < |k.tasks| && k.tasks[i].state == Ready && i != k.current
    ensures Schedule(k).Next?
    ensures var c := Schedule(k).k.current;
            && c < |k.tasks| == |Schedule(k).k.tasks|
            && (c != i ==> Distance(|k.tasks|, c, i) < Distance(|k.tasks|, k.current, i))
  {
    PickIsNearest(k.tasks, k.current, 1);
  }

  lemma YieldGetsCloser(k: Kernel, i: nat)
    requires k.current < |k.tasks| && i < |k.tasks| && k.tasks[i].state == Ready && i != k.current
    ensures Yield(k).Next?
    ensures var k' := Yield(k).k;
            && |k'.tasks| == |k.tasks| && k'.current < |k'.tasks| && (!CanSwitch(k) ==> k' == k)
            && (CanSwitch(k) && k'.current != i ==>
                  Distance(|k.tasks|, k'.current, i) < Distance(|k.tasks|, k.current, i))
  {
    hide Pick, Schedule;
    SwitchGetsCloser(k, i);
  }

  lemma StepGetsCloser(k: Kernel, s: Step, i: nat)
    requires k.current < |k.tasks| && i < |k.tasks| && k.tasks[i].state == Ready && i != k.current && Do(k, s).Next?
    requires var k' := Do(k, s).k; i != k'.current
    ensures var k' := Do(k, s).k;
            && k'.current < |k'.tasks| && i < |k'.tasks|
            && Switches(k, s) + Distance(|k'.tasks|, k'.current, i) <= Distance(|k.tasks|, k.current, i) + Adds(s)
  {
    hide Yield, Woken, Kept;
    if s.DoYield? { YieldGetsCloser(k, i); }
    if s.DoTick? { YieldGetsCloser(k.(ticks := k.ticks + 1), i); }
  }

  /** A task that stays ready is picked at the latest after as many calls of
      schedule as it is list steps away, plus one for every task added
      meanwhile: as long as it has not been, fewer calls were made. */
  lemma {:induction false} BoundedWaiting(k: Kernel, steps: seq<Step>, k': Kernel, i: nat)
    requires IsRun(k, steps, k') && Waits(k, steps, i)
    ensures i < |k'.tasks| && i != k'.current && k'.current < |k'.tasks|
    ensures TotalSwitches(k, steps) + Distance(|k'.tasks|, k'.current, i) <=
            Distance(|k.tasks|, k.current, i) + TotalAdds(steps)
    ensures TotalSwitches(k, steps) < |k.tasks| - 1 + TotalAdds(steps)
    decreases |steps|
  {
    if steps != [] {
      StepGetsCloser(k, steps[0], i);
      BoundedWaiting(Do(k, steps[0]).k, steps[1..], k', i);
    }
  }

  // ----- sleeping -----

  /** The timer removes a positive entry at the first multiple of the period
      that lies at or after its end: never early, less than a period late. */
  lemma TickRemovesOnTime(k: Kernel, s: Sleeper)
    requires Inv(k) && Tick(k).Next? && s in k.sleepers
    ensures var now := k.ticks + 1;
            && (s !in Tick(k).k.sleepers <==> now % 100 == 0 && s.expires > 0 && s.started + s.expires <= now)
            && (s !in Tick(k).k.sleepers ==> s.started + s.expires <= now < s.started + s.expires + 100)
  {
    hide Yield, Woken, Kept;
    var k1 := k.(ticks := k.ticks + 1);
    KeptIsFilter(k.sleepers, k1.ticks);
    if Yield(k1).Next? { YieldKeepsSleepers(k1); }
    var i :| 0 <= i < |k.sleepers| && k.sleepers[i] == s;
    assert SleeperOk(k.sleepers[i], k);
  }

  lemma YieldKeepsSleepers(k: Kernel)
    requires k.current < |k.tasks| && Yield(k).Next?
    ensures Yield(k).k.sleepers == k.sleepers && |Yield(k).k.tasks| == |k.tasks|
  {
    hide Pick;
  }

  /** An entry with a zero delay is never removed. */
  lemma ZeroDelayStays(k: Kernel, s: Step, e: Sleeper)
    requires k.current < |k.tasks| && e in k.sleepers && e.expires == 0 && Do(k, s).Next?
    ensures e in Do(k, s).k.sleepers
  {
    hide Yield, Tick, Woken, Kept;
    if s.DoYield? { YieldKeepsSleepers(k); }
    if s.DoTick? {
      TickCases(k);
      if Yield(k.(ticks := k.ticks + 1)).Next? { YieldKeepsSleepers(k.(ticks := k.ticks + 1)); }
    }
    if s.DoTick? { KeptIsFilter(k.sleepers, k.ticks + 1); }
    if s.DoSleep? { assert [Sleeper(k.current, k.ticks, s.delay)] + k.sleepers == Do(k, s).k.sleepers; }
  }

  /** Task t sleeps with entry e: queued and not runnable, or its time is over. */
  ghost predicate Asleep(k: Kernel, t: nat, e: Sleeper) {
    || (t < |k.tasks| && !Runnable(k.tasks[t].state) && e in k.sleepers && e.task == t)
    || (e.expires > 0 && k.ticks >= e.started + e.expires)
  }

  lemma TickCases(k: Kernel)
    requires k.current < |k.tasks|
    ensures var k1 := k.(ticks := k.ticks + 1);
            || Tick(k) == Next(WakeupHandler(k1))
            || Tick(k) == Yield(k1)
            || Tick(k) == Next(k1)
  {
    hide Yield, WakeupHandler;
  }

  lemma TickKeepsAsleep(k: Kernel, t: nat, e: Sleeper)
    requires Inv(k) && Tick(k).Next? && Asleep(k, t, e)
    requires t < |k.tasks| && !Runnable(k.tasks[t].state) && e in k.sleepers && e.task == t
    ensures Asleep(Tick(k).k, t, e)
  {
    hide Tick, Yield, Woken, Kept;
    TickCases(k);
    var k1 := k.(ticks := k.ticks + 1);
    if Tick(k) == Next(WakeupHandler(k1)) {
      KeptIsFilter(k.sleepers, k.ticks + 1);
      OnlyEntry(k, t, e);
      WokenTask(k.tasks, k.sleepers, k.ticks + 1, t);
    }
    if Tick(k) == Yield(k1) { YieldSkips(k1, t); }
  }

  lemma StepKeepsAsleep(k: Kernel, s: Step, t: nat, e: Sleeper)
    requires Inv(k) && Enabled(k, s) && Do(k, s).Next? && Asleep(k, t, e) && s != DoResume(t)
    ensures Asleep(Do(k, s).k, t, e)
  {
    hide Tick, Yield;
    if t < |k.tasks| && !Runnable(k.tasks[t].state) && e in k.sleepers && e.task == t {
      match s
      case DoYield => YieldSkips(k, t);
      case DoTick => TickKeepsAsleep(k, t, e);
      case DoSleep(d) =>
        assert e in [Sleeper(k.current, k.ticks, d)] + k.sleepers;
      case _ =>
    } else {
      TicksGrow(k, s);
    }
  }

  lemma TicksGrow(k: Kernel, s: Step)
    requires k.current < |k.tasks| && Do(k, s).Next?
    ensures Do(k, s).k.ticks >= k.ticks
  {
  }

  lemma OnlyEntry(k: Kernel, t: nat, e: Sleeper)
    requires Inv(k) && e in k.sleepers && e.task == t
    ensures forall a | 0 <= a < |k.sleepers| && k.sleepers[a].task == t :: k.sleepers[a] == e
  {
    var b :| 0 <= b < |k.sleepers| && k.sleepers[b] == e;
  }

  /** A task that went to sleep for a positive delay does not become runnable
      before the delay is over, whatever the other tasks do, unless someone
      resumes it. */
  lemma {:induction false} NeverWokenEarly(k: Kernel, delay: nat, steps: seq<Step>, k': Kernel)
    requires Inv(k) && NoEntry(k.sleepers, k.current) && IsRun(TimedSleep(k, delay), steps, k')
    requires forall j | 0 <= j < |steps| :: steps[j] != DoResume(k.current)
    ensures k.current < |k'.tasks|
    ensures Runnable(k'.tasks[k.current].state) ==> delay > 0 && k'.ticks >= k.ticks + delay
  {
    var k1, e := TimedSleep(k, delay), Sleeper(k.current, k.ticks, delay);
    SleepInv(k, delay);
    assert e in k1.sleepers;
    RunKeepsAsleep(k1, steps, k', k.current, e);
  }

  lemma {:induction false} RunKeepsAsleep(k: Kernel, steps: seq<Step>, k': Kernel, t: nat, e: Sleeper)
    requires Inv(k) && IsRun(k, steps, k') && Asleep(k, t, e) && t < |k.tasks|
    requires forall j | 0 <= j < |steps| :: steps[j] != DoResume(t)
    ensures Asleep(k', t, e) && t < |k'.tasks|
    decreases |steps|
  {
    if steps != [] {
      StepInv(k, steps[0]);
      StepKeepsAsleep(k, steps[0], t, e);
      TasksStay(k, steps[0]);
      RunKeepsAsleep(Do(k, steps[0]).k, steps[1..], k', t, e);
    }
  }

  lemma TasksStay(k: Kernel, s: Step)
    requires k.current < |k.tasks| && Do(k, s).Next?
    ensures |Do(k, s).k.tasks| >= |k.tasks|
  {
  }

  // ----- waking up -----

  /** The step does not take the task's state out of the sleep: nobody resumes or
      kills it, and it does not end itself. */
  predicate LeavesAlone(k: Kernel, s: Step, t: nat) {
    match s
    case DoResume(i) => i != t
    case DoKill(pid) => Find(k.tasks, pid, 0) != t
    case DoExit => k.current != t
    case _ => true
  }

  /** Every step made while the entry is queued leaves the task alone. */
  ghost predicate Undisturbed(k: Kernel, steps: seq<Step>, t: nat, e: Sleeper)
    decreases |steps|
  {
    steps != [] && e in k.sleepers && k.current < |k.tasks| ==>
      && LeavesAlone(k, steps[0], t)
      && (Do(k, steps[0]).Next? ==> Undisturbed(Do(k, steps[0]).k, steps[1..], t, e))
  }

  ghost predicate Sleeps(k: Kernel, t: nat, e: Sleeper) {
    t < |k.tasks| && k.tasks[t].state == Uninterruptible && e in k.sleepers && e.task == t
  }

  /** The task is ready, at or after the end of its delay, less than a period late. */
  predicate ReadyOnTime(k: Kernel, t: nat, e: Sleeper) {
    && t < |k.tasks| && k.tasks[t].state == Ready
    && e.started + e.expires <= k.ticks < e.started + e.expires + 100
  }

  lemma TickWakes(k: Kernel, t: nat, e: Sleeper)
    requires Inv(k) && Tick(k).Next? && Sleeps(k, t, e)
    ensures Sleeps(Tick(k).k, t, e) || ReadyOnTime(Tick(k).k, t, e)
  {
    hide Tick, Yield, Woken, Kept;
    TickCases(k);
    var k1 := k.(ticks := k.ticks + 1);
    if Tick(k) == Next(WakeupHandler(k1)) {
      KeptIsFilter(k.sleepers, k1.ticks);
      OnlyEntry(k, t, e);
      WokenTask(k.tasks, k.sleepers, k1.ticks, t);
      TickRemovesOnTime(k, e);
    }
    if Tick(k) == Yield(k1) { YieldSkips(k1, t); }
  }

  lemma StepWakes(k: Kernel, s: Step, t: nat, e: Sleeper)
    requires Inv(k) && Enabled(k, s) && Do(k, s).Next? && Sleeps(k, t, e) && LeavesAlone(k, s, t)
    ensures Sleeps(Do(k, s).k, t, e) || ReadyOnTime(Do(k, s).k, t, e)
  {
    hide Tick, Yield;
    match s
    case DoYield => YieldSkips(k, t);
    case DoTick => TickWakes(k, t, e);
    case DoSleep(d) =>
      assert e in [Sleeper(k.current, k.ticks, d)] + k.sleepers;
    case _ =>
  }

  /** Either the task sleeps to the end of the run, or it is ready on time after
      some number of its steps. */
  lemma {:induction false} RunWakes(k: Kernel, steps: seq<Step>, k': Kernel, t: nat, e: Sleeper)
    requires Inv(k) && IsRun(k, steps, k') && Sleeps(k, t, e) && Undisturbed(k, steps, t, e)
    ensures Sleeps(k', t, e)
         || exists j, m :: 0 <= j <= |steps| && IsRun(k, steps[..j], m) && ReadyOnTime(m, t, e)
    decreases |steps|
  {
    hide Do, Inv, ReadyOnTime;
    if steps != [] {
      var k1 := Do(k, steps[0]).k;
      StepInv(k, steps[0]);
      StepWakes(k, steps[0], t, e);
      if Sleeps(k1, t, e) {
        RunWakes(k1, steps[1..], k', t, e);
        if !Sleeps(k', t, e) {
          var j, m :| 0 <= j <= |steps[1..]| && IsRun(k1, steps[1..][..j], m) && ReadyOnTime(m, t, e);
          assert steps[..j + 1][1..] == steps[1..][..j] && IsRun(k, steps[..j + 1], m);
        }
      } else {
        assert steps[..1][1..] == [] && IsRun(k, steps[..1], k1);
      }
    }
  }

  /** A task that goes to sleep for a positive delay and is left alone becomes
      ready: once a period has passed after the delay, there was a state in which
      it was, and the delay was over and not yet a whole period ago. */
  lemma WokenOnTime(k: Kernel, delay: nat, steps: seq<Step>, k': Kernel)
    requires Inv(k) && NoEntry(k.sleepers, k.current) && delay > 0 && IsRun(TimedSleep(k, delay), steps, k')
    requires Undisturbed(TimedSleep(k, delay), steps, k.current, Sleeper(k.current, k.ticks, delay))
    requires k'.ticks >= k.ticks + delay + 99
    ensures exists j, m :: 0 <= j <= |steps| && IsRun(TimedSleep(k, delay), steps[..j], m)
                        && ReadyOnTime(m, k.current, Sleeper(k.current, k.ticks, delay))
  {
    hide IsRun, Undisturbed, ReadyOnTime;
    var k1, e := TimedSleep(k, delay), Sleeper(k.current, k.ticks, delay);
    SleepInv(k, delay);
    assert e in k1.sleepers;
    RunWakes(k1, steps, k', k.current, e);
    RunInv(k1, steps, k');
    NoneOverdue(k');
  }
}
