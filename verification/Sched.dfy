/** The scheduler, alarms, events and wait queues as a state machine
    (kernel/sched.c, kernel/timers.c, kernel/syscall.c). */
module Sched {
  import opened Machine

  type Pid = nat

  /** enum proc_state. */
  datatype State = Active | Run | Sleep | Killed

  /** The wakeup time of a task that no clock should wake. */
  const NEVER := 0xFFFF_FFFF

  /** regs[17]: spsr, return address, r0-r12, sp, lr. */
  type Regs = r: seq<nat> | |r| == 17 witness seq(17, i => 0)

  datatype Timer = Timer(handler: nat, next: nat, period: nat, oneshot: bool, done: bool, active: bool,
                         lastState: State, wakeup: nat, lastWakeup: nat)

  /** struct proc; an event mask is the set of its bits. */
  datatype Task = Task(state: State, regs: Regs, backup: Regs, mask: set<nat>, timer: Timer)

  /** A completion's bounded wait queue. */
  datatype Queue = Queue(size: nat, waiting: seq<Pid>)

  /** ring is procs and its successors in the order of their next pointers. */
  datatype Kernel = Kernel(ring: seq<Pid>, tasks: map<Pid, Task>, idle: Pid, cur: Pid, lastPid: Pid,
                           clk: nat, resched: bool, enabled: bool, queues: map<nat, Queue>)

  // ---------------------------------------------------------------- timers

  /** The address of user_timer_trampoline. */
  const TRAMPOLINE: nat := 0x8000

  /** handle_task_timer. */
  function Fire(t: Task, clk: nat): Task {
    t.(state := Run,
       backup := t.regs,
       regs := t.regs[1 := TRAMPOLINE][2 := t.timer.handler][16 := TRAMPOLINE],
       timer := t.timer.(done := false, active := true,
                         next := if t.timer.oneshot then 0 else Wrap(clk + t.timer.period),
                         lastState := t.state, lastWakeup := t.timer.wakeup))
  }

  /** handle_task_timer_done. */
  function Restore(t: Task): Task {
    t.(state := t.timer.lastState,
       regs := t.backup,
       timer := t.timer.(active := false, wakeup := t.timer.lastWakeup))
  }

  predicate Due(t: Task, clk: nat) { t.timer.next > 0 && !t.timer.active && clk >= t.timer.next }

  predicate Finished(t: Task) { t.timer.active && t.timer.done }

  function Rouse(t: Task, clk: nat): Task {
    if t.state == Sleep && clk >= t.timer.wakeup then t.(state := Run, timer := t.timer.(wakeup := NEVER)) else t
  }

  /** check_timers. */
  function CheckTimers(t: Task, clk: nat): Task {
    if t.timer.next > 0 && !t.timer.active then
      if clk >= t.timer.next then Fire(t, clk) else Rouse(t, clk)
    else if t.timer.active && t.timer.done then Rouse(Restore(t), clk)
    else Rouse(t, clk)
  }

  /** check_timers would leave the task on the run queue. */
  predicate Eligible(t: Task, clk: nat) { CheckTimers(t, clk).state == Run }

  // ---------------------------------------------------------------- schedule

  function Index(s: seq<Pid>, p: Pid): (i: nat)
    requires p in s
    ensures i < |s| && s[i] == p && p !in s[..i]
  {
    if s[0] == p then 0 else 1 + Index(s[1..], p)
  }

  /** s started just after p. */
  function After(s: seq<Pid>, p: Pid): (r: seq<Pid>)
    requires p in s
    ensures |r| == |s|
  {
    var i := Index(s, p);
    s[i + 1..] + s[..i + 1]
  }

  /** The order in which schedule looks at the ring: from the top for the idle task, else from cur's
      successor round to cur. */
  function ScanOrder(k: Kernel): seq<Pid>
    requires k.cur == k.idle || k.cur in k.ring
  {
    if k.cur == k.idle then k.ring else After(k.ring, k.cur)
  }

  /** The do-while loop: timers are checked up to the first task that is on the run queue. */
  function Scan(tasks: map<Pid, Task>, order: seq<Pid>, clk: nat): (r: (map<Pid, Task>, Option<Pid>))
    requires forall p :: p in order ==> p in tasks
    ensures r.0.Keys == tasks.Keys
    ensures r.1.Some? ==> r.1.value in order
    decreases |order|
  {
    if order == [] then (tasks, None)
    else
      var p := order[0];
      var t := CheckTimers(tasks[p], clk);
      var now := tasks[p := t];
      if t.state == Run then (now, Some(p)) else Scan(now, order[1..], clk)
  }

  /** cur gives up the processor: a ring task still active goes to the run queue, the idle task to sleep. */
  function Demote(k: Kernel): (k': Kernel)
    requires k.cur in k.tasks
    ensures k'.tasks.Keys == k.tasks.Keys
  {
    var t := k.tasks[k.cur];
    if k.cur == k.idle then k.(tasks := k.tasks[k.cur := t.(state := Sleep)])
    else if t.state == Active then k.(tasks := k.tasks[k.cur := t.(state := Run)])
    else k
  }

  /** swtch, and the end of schedule. */
  function Switch(k: Kernel, next: Pid): Kernel
    requires next in k.tasks
  {
    k.(cur := next, tasks := k.tasks[next := k.tasks[next].(state := Active)], resched := false)
  }

  /** The tasks after the search, and the task it settles on: the idle task if it finds nothing. */
  function Settled(k: Kernel): (r: (map<Pid, Task>, Pid))
    requires k.cur in k.tasks && k.idle in k.tasks
    requires k.cur == k.idle || k.cur in k.ring
    requires forall p :: p in k.ring ==> p in k.tasks
    ensures r.0.Keys == k.tasks.Keys && r.1 in r.0
  {
    if k.ring == [] then (k.tasks, k.idle)
    else
      AfterMembers(k);
      var (tasks, choice) := Scan(Demote(k).tasks, ScanOrder(k), k.clk);
      (tasks, if choice.Some? then choice.value else k.idle)
  }

  lemma AfterMembers(k: Kernel)
    requires k.cur == k.idle || k.cur in k.ring
    ensures forall p :: p in ScanOrder(k) ==> p in k.ring
  {
  }

  ghost function Schedule(k: Kernel): (k': Kernel)
    requires Valid(k)
    ensures k'.tasks.Keys == k.tasks.Keys && k'.cur in k'.tasks
  {
    Switch(k.(tasks := Settled(k).0), Settled(k).1)
  }

  // ---------------------------------------------------------------- steps

  datatype Event =
    | Tick
    | Dispatch(saved: Regs)
    | Enable
    | Spawn(entry: Regs)
    | SpawnFails(bumped: bool)
    | Wake(c: nat)
    | Wait(completion: Option<nat>)
    | SleepFor(period: nat)
    | Yield
    | EventSet(bits: set<nat>)
    | EventWait(bits: set<nat>)
    | Alarm(handler: nat, msec: nat, oneshot: bool)
    | AlarmDone
    | Fault

  /** The steps that cur itself takes: system calls and the fault that kills it. */
  predicate ByCur(e: Event) {
    e.Wait? || e.SleepFor? || e.Yield? || e.EventSet? || e.EventWait? || e.Alarm? || e.AlarmDone? || e.Fault?
  }

  function RequestSchedule(k: Kernel): Kernel { if k.enabled then k.(resched := true) else k }

  function WithCur(k: Kernel, t: Task): Kernel { k.(tasks := k.tasks[k.cur := t]) }

  function NewTask(entry: Regs): Task {
    Task(Run, entry, seq(17, i => 0), {}, Timer(0, 0, 0, false, false, false, Active, NEVER, 0))
  }

  /** spawn: the first task becomes procs, later ones are linked in behind procs. */
  function AddTask(k: Kernel, entry: Regs): Kernel {
    var p := k.lastPid + 1;
    k.(lastPid := p, tasks := k.tasks[p := NewTask(entry)],
       ring := if k.ring == [] then [p] else [k.ring[0], p] + k.ring[1..])
  }

  /** The loop of sys_wake. */
  function WakeAll(tasks: map<Pid, Task>, waiting: seq<Pid>): (r: map<Pid, Task>)
    requires forall p :: p in waiting ==> p in tasks
    ensures r.Keys == tasks.Keys
    ensures forall p :: p in tasks ==> r[p] == if p in waiting then tasks[p].(state := Run) else tasks[p]
    decreases |waiting|
  {
    if waiting == [] then tasks
    else WakeAll(tasks[waiting[0] := tasks[waiting[0]].(state := Run)], waiting[1..])
  }

  /** The loop of sys_event_set, over the tasks from cur's successor up to but not including cur. */
  function SetEvents(tasks: map<Pid, Task>, others: seq<Pid>, bits: set<nat>): (r: map<Pid, Task>)
    requires forall p :: p in others ==> p in tasks
    ensures r.Keys == tasks.Keys
    decreases |others|
  {
    if others == [] then tasks
    else
      var t := tasks[others[0]];
      SetEvents(tasks[others[0] := if t.mask * bits != {} then t.(state := Run, mask := t.mask - bits) else t],
                others[1..], bits)
  }

  ghost predicate Hit(tasks: map<Pid, Task>, others: seq<Pid>, bits: set<nat>) {
    exists p :: p in others && p in tasks && tasks[p].mask * bits != {}
  }

  /** The ring without cur, from cur's successor on; nothing for the idle task, which is its own successor. */
  function Others(k: Kernel): seq<Pid>
    requires k.cur == k.idle || k.cur in k.ring
  {
    if k.cur == k.idle then [] else After(k.ring, k.cur)[..|k.ring| - 1]
  }

  ghost predicate Enabled(k: Kernel, e: Event) {
    && (ByCur(e) ==> k.cur != k.idle)
    && (e.Dispatch? ==> k.resched)
    && (e.Wake? ==> e.c in k.queues)
    && (e.Wait? && e.completion.Some? ==> e.completion.value in k.queues)
  }

  function TimerInt(k: Kernel): Kernel { RequestSchedule(k.(clk := Wrap(k.clk + 1))) }

  /** The interrupt path saves cur's registers, then schedules. */
  ghost function DispatchStep(k: Kernel, saved: Regs): Kernel
    requires Valid(k)
  {
    Schedule(WithCur(k, k.tasks[k.cur].(regs := saved)))
  }

  function SysWake(k: Kernel, c: nat): Kernel
    requires c in k.queues && forall p :: p in k.queues[c].waiting ==> p in k.tasks
  {
    k.(tasks := WakeAll(k.tasks, k.queues[c].waiting), queues := k.queues[c := k.queues[c].(waiting := [])])
  }

  /** Whether sys_wait returns 0. */
  predicate CanWait(k: Kernel, completion: Option<nat>)
    requires completion.Some? ==> completion.value in k.queues
  {
    completion.Some? && |k.queues[completion.value].waiting| < k.queues[completion.value].size
  }

  function SysWait(k: Kernel, completion: Option<nat>): Kernel
    requires k.cur in k.tasks && (completion.Some? ==> completion.value in k.queues)
  {
    if !CanWait(k, completion) then k
    else
      var q := k.queues[completion.value];
      RequestSchedule(WithCur(k, k.tasks[k.cur].(state := Sleep))
        .(queues := k.queues[completion.value := q.(waiting := q.waiting + [k.cur])]))
  }

  function SysSleep(k: Kernel, period: nat): Kernel
    requires k.cur in k.tasks
  {
    var t := k.tasks[k.cur];
    RequestSchedule(WithCur(k, t.(state := Sleep, timer := t.timer.(wakeup := Wrap(k.clk + period)))))
  }

  ghost function SysEventSet(k: Kernel, bits: set<nat>): Kernel
    requires k.cur == k.idle || k.cur in k.ring
    requires forall p :: p in Others(k) ==> p in k.tasks
  {
    var k' := k.(tasks := SetEvents(k.tasks, Others(k), bits));
    if Hit(k.tasks, Others(k), bits) then RequestSchedule(k') else k'
  }

  function SysEventWait(k: Kernel, bits: set<nat>): Kernel
    requires k.cur in k.tasks
  {
    var t := k.tasks[k.cur];
    RequestSchedule(WithCur(k, t.(mask := t.mask + bits, state := Sleep)))
  }

  function SysAlarm(k: Kernel, handler: nat, msec: nat, oneshot: bool): Kernel
    requires k.cur in k.tasks
  {
    var t := k.tasks[k.cur];
    var period := Wrap(msec) / 10;
    WithCur(k, t.(timer := t.timer.(handler := handler, period := period, next := Wrap(k.clk + period),
        oneshot := oneshot)))
  }

  function SysUttDone(k: Kernel): Kernel
    requires k.cur in k.tasks
  {
    var t := k.tasks[k.cur];
    RequestSchedule(WithCur(k, t.(timer := t.timer.(done := true))))
  }

  function UserPageFault(k: Kernel): Kernel
    requires k.cur in k.tasks
  {
    var t := k.tasks[k.cur];
    RequestSchedule(WithCur(k, t.(state := Killed, mask := {}, timer := t.timer.(wakeup := NEVER))))
  }

  lemma OthersInRing(k: Kernel)
    requires k.cur == k.idle || k.cur in k.ring
    ensures forall p :: p in Others(k) ==> p in k.ring
  {
  }

  ghost function Next(k: Kernel, e: Event): Kernel
    requires Valid(k) && Enabled(k, e)
  {
    match e
    case Tick => TimerInt(k)
    case Dispatch(saved) => DispatchStep(k, saved)
    case Enable => k.(enabled := true)
    case Spawn(entry) => AddTask(k, entry)
    case SpawnFails(bumped) => if bumped then k.(lastPid := k.lastPid + 1) else k
    case Wake(c) => SysWake(k, c)
    case Wait(completion) => SysWait(k, completion)
    case SleepFor(period) => SysSleep(k, period)
    case Yield => RequestSchedule(k)
    case EventSet(bits) => OthersInRing(k); SysEventSet(k, bits)
    case EventWait(bits) => SysEventWait(k, bits)
    case Alarm(handler, msec, oneshot) => SysAlarm(k, handler, msec, oneshot)
    case AlarmDone => SysUttDone(k)
    case Fault => UserPageFault(k)
  }

  // ---------------------------------------------------------------- invariants

  /** The ring holds every spawned task exactly once and not the idle task; cur is one of them. */
  ghost predicate Valid(k: Kernel) {
    && Distinct(k.ring)
    && k.idle !in k.ring
    && (forall p :: p in k.tasks <==> p in k.ring || p == k.idle)
    && (k.cur == k.idle || k.cur in k.ring)
    && (forall p :: p in k.tasks ==> p <= k.lastPid)
    && (forall c, i :: c in k.queues && 0 <= i < |k.queues[c].waiting| ==> k.queues[c].waiting[i] in k.ring)
    && (forall c :: c in k.queues ==> |k.queues[c].waiting| <= k.queues[c].size)
  }

  /** Not active, and not about to be given the active state back. */
  predicate Quiet(t: Task) { t.state != Active && (t.timer.active ==> t.timer.lastState != Active) }

  /** Only cur is active, and no alarm excursion will give the active state back. */
  ghost predicate Safe(k: Kernel) {
    && (forall p :: p in k.tasks && k.tasks[p].state == Active ==> p == k.cur)
    && (forall p :: p in k.tasks && k.tasks[p].timer.active ==> k.tasks[p].timer.lastState != Active)
  }
}
