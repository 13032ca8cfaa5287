/** The scheduling state of the kernel as one machine: the list of tasks, the sleep
    queue, the timer, the scheduler lock and the signal queues, and the steps
    that change them. */
module SchedSpec {

  datatype TaskState = Executing | Ready | Stopped | Uninterruptible | Interruptible
                     | Zombie | Created | Unused | Idle

  predicate Runnable(s: TaskState) { s == Ready || s == Executing }

  datatype Signal = Signal(number: int, payload: int)

  /** `posted` and `delivered` record the history of the signal queue. */
  datatype Task = Task(pid: int, state: TaskState, signals: seq<Signal>,
                       posted: seq<Signal>, delivered: seq<Signal>)

  /** An entry of the queue of timed sleepers; `task` is an index in the list. */
  datatype Sleeper = Sleeper(task: nat, started: nat, expires: nat)

  /** `locks` is the nesting of lock_scheduler; `preempt` is 0 when preemption is off. */
  datatype Kernel = Kernel(tasks: seq<Task>, current: nat, running: bool, locks: int,
                           ticks: nat, preempt: nat, sleepers: seq<Sleeper>)

  const WAKEUP_TICKS: nat := 100

  function SetState(tasks: seq<Task>, i: nat, s: TaskState): seq<Task>
    requires i < |tasks|
  {
    tasks[i := tasks[i].(state := s)]
  }

  // ----- schedule -----

  /** How many list steps lead from task a to task b, going round; 1 to n. */
  function Distance(n: nat, a: nat, b: nat): nat
    requires a < n && b < n
  {
    if a < b then b - a else b + n - a
  }

  function Around(n: nat, a: nat, d: nat): nat
    requires a < n && 1 <= d <= n
  {
    if a + d < n then a + d else a + d - n
  }

  /** The first runnable task met when walking from task `cur` round the list
      and back to it, starting `d` steps away; -1 when there is none. */
  function Pick(tasks: seq<Task>, cur: nat, d: nat): (p: int)
    requires cur < |tasks| && 1 <= d <= |tasks| + 1
    ensures p < |tasks|
    decreases |tasks| + 1 - d
  {
    if d > |tasks| then -1
    else
      var i := Around(|tasks|, cur, d);
      if Runnable(tasks[i].state) then i else Pick(tasks, cur, d + 1)
  }

  datatype Outcome = Next(k: Kernel) | Panic

  /** Makes task `next` the current one. */
  function Switch(k: Kernel, next: nat): Kernel
    requires k.current < |k.tasks| && next < |k.tasks|
  {
    var t1 := if k.tasks[k.current].state == Executing then SetState(k.tasks, k.current, Ready) else k.tasks;
    var t2 := if t1[next].state == Ready then SetState(t1, next, Executing) else t1;
    k.(tasks := t2, current := next)
  }

  function Schedule(k: Kernel): Outcome
    requires k.current < |k.tasks|
  {
    var p := Pick(k.tasks, k.current, 1);
    if p >= 0 then Next(Switch(k, p))
    else if k.tasks[0].state == Idle then Next(Switch(k, 0))
    else Panic
  }

  /** One signal of the current task is taken off its queue and handled. */
  function ProcessSignals(k: Kernel): Kernel
    requires k.current < |k.tasks|
  {
    var t := k.tasks[k.current];
    if t.signals == [] then k
    else k.(tasks := k.tasks[k.current := t.(signals := t.signals[1..], delivered := t.delivered + [t.signals[0]])])
  }

  predicate CanSwitch(k: Kernel) { k.locks == 0 && k.running }

  function Yield(k: Kernel): Outcome
    requires k.current < |k.tasks|
  {
    if !CanSwitch(k) then Next(k)
    else
      match Schedule(k)
      case Panic => Panic
      case Next(k') => if k'.current < |k'.tasks| then Next(ProcessSignals(k')) else Panic
  }

  // ----- timed sleep -----

  predicate Expired(s: Sleeper, now: nat) { s.expires != 0 && now >= s.started + s.expires }

  function Kept(q: seq<Sleeper>, now: nat): seq<Sleeper> {
    if q == [] then []
    else (if Expired(q[0], now) then [] else [q[0]]) + Kept(q[1..], now)
  }

  function Wake(tasks: seq<Task>, i: nat): (r: seq<Task>)
    ensures |r| == |tasks|
  {
    if i < |tasks| && tasks[i].state == Uninterruptible then SetState(tasks, i, Ready) else tasks
  }

  function Woken(tasks: seq<Task>, q: seq<Sleeper>, now: nat): (r: seq<Task>)
    ensures |r| == |tasks|
    decreases |q|
  {
    if q == [] then tasks
    else Woken(if Expired(q[0], now) then Wake(tasks, q[0].task) else tasks, q[1..], now)
  }

  function WakeupHandler(k: Kernel): Kernel {
    k.(tasks := Woken(k.tasks, k.sleepers, k.ticks), sleepers := Kept(k.sleepers, k.ticks))
  }

  function TimedSleep(k: Kernel, delay: nat): Kernel
    requires k.current < |k.tasks|
  {
    k.(sleepers := [Sleeper(k.current, k.ticks, delay)] + k.sleepers,
       tasks := SetState(k.tasks, k.current, Uninterruptible))
  }

  /** The timer interrupt. */
  function Tick(k: Kernel): Outcome
    requires k.current < |k.tasks|
  {
    var k1 := k.(ticks := k.ticks + 1);
    if k1.ticks % WAKEUP_TICKS == 0 then Next(WakeupHandler(k1))
    else if k1.preempt != 0 && k1.ticks % k1.preempt == 0 then Yield(k1)
    else Next(k1)
  }

  // ----- steps -----

  function Find(tasks: seq<Task>, pid: int, from: nat): (i: nat)
    requires from <= |tasks|
    ensures from <= i <= |tasks|
    ensures i < |tasks| ==> tasks[i].pid == pid
    ensures forall j | from <= j < i :: tasks[j].pid != pid
    decreases |tasks| - from
  {
    if from == |tasks| || tasks[from].pid == pid then from else Find(tasks, pid, from + 1)
  }

  function Kill(k: Kernel, pid: int): Kernel {
    var i := Find(k.tasks, pid, 0);
    if i == |k.tasks| then k else k.(tasks := SetState(k.tasks, i, Zombie))
  }

  function PostSignal(k: Kernel, pid: int, sig: Signal): Kernel {
    var i := Find(k.tasks, pid, 0);
    if i == |k.tasks| then k
    else
      var t := k.tasks[i];
      k.(tasks := k.tasks[i := t.(signals := t.signals + [sig], posted := t.posted + [sig])])
  }

  datatype Step = DoYield | DoTick | DoSleep(delay: nat) | DoKill(pid: int) | DoExit
                | DoAdd(pid: int) | DoSignal(pid: int, sig: Signal) | DoLock | DoUnlock
                | DoPause(task: nat) | DoResume(task: nat)

  function Do(k: Kernel, s: Step): Outcome
    requires k.current < |k.tasks|
  {
    match s
    case DoYield => Yield(k)
    case DoTick => Tick(k)
    case DoSleep(d) => Next(TimedSleep(k, d))
    case DoKill(pid) => Next(Kill(k, pid))
    case DoExit => Next(k.(tasks := SetState(k.tasks, k.current, Zombie)))
    case DoAdd(pid) => Next(k.(tasks := k.tasks + [Task(pid, Ready, [], [], [])]))
    case DoSignal(pid, sig) => Next(PostSignal(k, pid, sig))
    case DoLock => Next(k.(locks := k.locks + 1))
    case DoUnlock => Next(k.(locks := k.locks - 1))
    case DoPause(i) => Next(if i < |k.tasks| then k.(tasks := SetState(k.tasks, i, Uninterruptible)) else k)
    case DoResume(i) => Next(if i < |k.tasks| then k.(tasks := SetState(k.tasks, i, Ready)) else k)
  }

  /** The machine right after init_scheduler: the idle task alone, current. */
  function Boot(preempt: nat): Kernel {
    Kernel([Task(0, Idle, [], [], [])], 0, true, 0, 0, preempt, [])
  }
}
