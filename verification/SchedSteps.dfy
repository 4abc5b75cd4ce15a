/** What one step of the scheduler does to one task, exactly. */
module SchedSteps {
  import opened Machine
  import opened Sched
  import opened SchedTheorems

  // ---------------------------------------------------------------- a dispatch

  /** Task p as check_timers would find it in a dispatch: cur's registers saved, cur no longer active. */
  function Seen(k: Kernel, e: Event, p: Pid): Task
    requires p in k.tasks
  {
    if e.Dispatch? && p == k.cur then GivenUp(k.tasks[p].(regs := e.saved)) else k.tasks[p]
  }

  /** What a dispatch makes of a task it sees as v. The task it chooses is eligible, is checked, and becomes active;
      any other is left alone, or is checked and is not eligible. */
  predicate Dispatched(v: Task, t: Task, clk: nat, chosen: bool) {
    if chosen then Eligible(v, clk) && t == CheckTimers(v, clk).(state := Active)
    else t == v || (t == CheckTimers(v, clk) && !Eligible(v, clk))
  }

  lemma SearchEffect(k: Kernel, p: Pid)
    requires Valid(k) && Safe(k) && p in k.ring
    ensures var v, t := GivenUp(k.tasks[p]), Settled(k).0[p];
            if Settled(k).1 == p then Eligible(v, k.clk) && t == CheckTimers(v, k.clk)
            else t == v || (t == CheckTimers(v, k.clk) && !Eligible(v, k.clk))
  {
    OrderMembers(k);
    DemoteIsGivenUp(k, p);
    var order := ScanOrder(k);
    ScanSpec(Demote(k).tasks, order, k.clk);
    var n := Passed(Demote(k).tasks, order, k.clk);
    if p in order[..n] {
      var i :| 0 <= i < n && order[i] == p;
    }
  }

  lemma GivenUpSaved(k: Kernel, saved: Regs, p: Pid)
    requires Valid(k) && Safe(k) && p in k.ring
    ensures GivenUp(WithCur(k, k.tasks[k.cur].(regs := saved)).tasks[p]) == Seen(k, Dispatch(saved), p)
  {
  }

  lemma DispatchEffect(k: Kernel, saved: Regs, p: Pid)
    requires Valid(k) && Safe(k) && Enabled(k, Dispatch(saved)) && p in k.ring
    ensures p in Next(k, Dispatch(saved)).tasks
    ensures var k' := Next(k, Dispatch(saved));
            Dispatched(Seen(k, Dispatch(saved), p), k'.tasks[p], k.clk, k'.cur == p)
  {
    var t := k.tasks[k.cur].(regs := saved);
    TaskSafe(k, t);
    SearchEffect(WithCur(k, t), p);
    GivenUpSaved(k, saved, p);
  }

  // ---------------------------------------------------------------- any other step

  predicate Joins(k: Kernel, completion: Option<nat>) {
    completion.Some? && completion.value in k.queues && CanWait(k, completion)
  }

  /** Task t of cur after a call of its own. */
  function OwnCall(k: Kernel, e: Event, t: Task): Task {
    if e.Wait? && Joins(k, e.completion) then t.(state := Sleep)
    else if e.SleepFor? then t.(state := Sleep, timer := t.timer.(wakeup := Wrap(k.clk + e.period)))
    else if e.EventWait? then t.(state := Sleep, mask := t.mask + e.bits)
    else if e.Alarm? then
      var period := Wrap(e.msec) / 10;
      t.(timer := t.timer.(handler := e.handler, period := period, next := Wrap(k.clk + period), oneshot := e.oneshot))
    else if e.AlarmDone? then t.(timer := t.timer.(done := true))
    else if e.Fault? then t.(state := Killed, mask := {}, timer := t.timer.(wakeup := NEVER))
    else t
  }

  /** The step makes p runnable from outside: by a wake of its queue, or by an event it waits for. */
  predicate Rouses(k: Kernel, e: Event, p: Pid)
    requires p in k.tasks
  {
    || (e.Wake? && e.c in k.queues && p in k.queues[e.c].waiting)
    || (e.EventSet? && p != k.cur && k.tasks[p].mask * e.bits != {})
  }

  /** Task p of the ring after a step that is not a dispatch. */
  function Changed(k: Kernel, e: Event, p: Pid): Task
    requires p in k.tasks
  {
    var t := k.tasks[p];
    if Rouses(k, e, p) then t.(state := Run, mask := if e.EventSet? then t.mask - e.bits else t.mask)
    else if p == k.cur then OwnCall(k, e, t)
    else t
  }

  lemma QueuesChange(k: Kernel, e: Event, p: Pid)
    requires Valid(k) && Enabled(k, e) && p in k.ring && (e.Wait? || e.Wake?)
    ensures p in Next(k, e).tasks && Next(k, e).tasks[p] == Changed(k, e, p)
  {
  }

  lemma EventSetChanges(k: Kernel, e: Event, p: Pid)
    requires Valid(k) && Enabled(k, e) && p in k.ring && e.EventSet?
    ensures p in Next(k, e).tasks && Next(k, e).tasks[p] == Changed(k, e, p)
  {
    OthersInRing(k);
    OthersMembers(k);
    EventSetTask(k, e.bits, p);
  }

  lemma OwnCallsChange(k: Kernel, e: Event, p: Pid)
    requires Valid(k) && Enabled(k, e) && p in k.ring
    requires e.SleepFor? || e.EventWait? || e.Alarm? || e.AlarmDone? || e.Fault?
    ensures p in Next(k, e).tasks && Next(k, e).tasks[p] == Changed(k, e, p)
  {
  }

  lemma OthersChange(k: Kernel, e: Event, p: Pid)
    requires Valid(k) && Enabled(k, e) && p in k.ring
    requires e.Tick? || e.Enable? || e.Spawn? || e.SpawnFails? || e.Yield?
    ensures p in Next(k, e).tasks && Next(k, e).tasks[p] == Changed(k, e, p)
  {
  }

  // ---------------------------------------------------------------- any step

  /** What step e makes of task p, if next is the task that is cur afterwards. */
  predicate Effect(k: Kernel, e: Event, p: Pid, t: Task, next: Pid)
    requires p in k.tasks
  {
    if e.Dispatch? then Dispatched(Seen(k, e, p), t, k.clk, next == p) else t == Changed(k, e, p) && next == k.cur
  }

  lemma CurStays(k: Kernel, e: Event)
    requires Valid(k) && Enabled(k, e) && !e.Dispatch?
    ensures Next(k, e).cur == k.cur
    ensures forall p :: p in k.ring ==> p in Next(k, e).ring
  {
    if e.EventSet? {
      OthersInRing(k);
    }
  }

  lemma StepEffect(k: Kernel, e: Event, p: Pid)
    requires Valid(k) && Safe(k) && Enabled(k, e) && p in k.ring
    ensures p in Next(k, e).ring && p in Next(k, e).tasks && Effect(k, e, p, Next(k, e).tasks[p], Next(k, e).cur)
  {
    if e.Dispatch? {
      DispatchEffect(k, e.saved, p);
    } else {
      CurStays(k, e);
      if e.EventSet? {
        EventSetChanges(k, e, p);
      } else if e.Wait? || e.Wake? {
        QueuesChange(k, e, p);
      } else if ByCur(e) && !e.Yield? {
        OwnCallsChange(k, e, p);
      } else {
        OthersChange(k, e, p);
      }
    }
  }

  // ---------------------------------------------------------------- the idle task and the shared state

  /** The idle task after a step, if next is the task that is cur afterwards. Its registers are saved like anyone's. */
  function IdleAfter(k: Kernel, e: Event, next: Pid): Task
    requires k.idle in k.tasks
  {
    var t := k.tasks[k.idle];
    if e.Dispatch? then
      t.(regs := if k.cur == k.idle then e.saved else t.regs,
         state := if next == k.idle then Active else if k.cur == k.idle then Sleep else t.state)
    else t
  }

  lemma IdleDemoted(k: Kernel)
    requires Valid(k) && k.ring != []
    ensures var t := k.tasks[k.idle];
            Demote(k).tasks[k.idle] == t.(state := if k.cur == k.idle then Sleep else t.state)
  {
  }

  lemma IdleSearched(k: Kernel)
    requires Valid(k) && k.ring != []
    ensures Settled(k).0[k.idle] == Demote(k).tasks[k.idle]
  {
    OrderMembers(k);
    ScanSpec(Demote(k).tasks, ScanOrder(k), k.clk);
    var order, n := ScanOrder(k), Passed(Demote(k).tasks, ScanOrder(k), k.clk);
    assert k.idle !in order[..n];
  }

  lemma IdleScheduled(k: Kernel)
    requires Valid(k)
    ensures var t, next := k.tasks[k.idle], Schedule(k).cur;
            && Schedule(k).idle == k.idle && k.idle in Schedule(k).tasks
            && Schedule(k).tasks[k.idle]
                 == t.(state := if next == k.idle then Active else if k.cur == k.idle then Sleep else t.state)
  {
    if k.ring != [] {
      IdleDemoted(k);
      IdleSearched(k);
    }
  }

  lemma IdleSaved(k: Kernel, saved: Regs)
    requires Valid(k)
    ensures var k1 := WithCur(k, k.tasks[k.cur].(regs := saved));
            && Valid(k1) && k1.idle == k.idle && k1.cur == k.cur
            && k1.tasks[k.idle] == k.tasks[k.idle].(regs := if k.cur == k.idle then saved else k.tasks[k.idle].regs)
  {
    SameRing(k, WithCur(k, k.tasks[k.cur].(regs := saved)));
  }

  lemma IdleEventSet(k: Kernel, bits: set<nat>)
    requires Valid(k) && k.cur != k.idle
    ensures (forall q :: q in Others(k) ==> q in k.tasks)
    ensures k.idle in SysEventSet(k, bits).tasks && SysEventSet(k, bits).tasks[k.idle] == k.tasks[k.idle]
  {
    OthersInRing(k);
    EventSetTask(k, bits, k.idle);
  }

  /** What every step does to the idle task, exactly. */
  lemma IdleEffect(k: Kernel, e: Event)
    requires Valid(k) && Safe(k) && Enabled(k, e)
    ensures Next(k, e).idle == k.idle && k.idle in Next(k, e).tasks
    ensures Next(k, e).tasks[k.idle] == IdleAfter(k, e, Next(k, e).cur)
  {
    if e.Dispatch? {
      IdleSaved(k, e.saved);
      IdleScheduled(WithCur(k, k.tasks[k.cur].(regs := e.saved)));
    } else if e.EventSet? {
      IdleEventSet(k, e.bits);
    }
  }

  /** The wait queues after a step. */
  function QueuesAfter(k: Kernel, e: Event): map<nat, Queue> {
    if e.Wait? && Joins(k, e.completion) then
      var q := k.queues[e.completion.value];
      k.queues[e.completion.value := q.(waiting := q.waiting + [k.cur])]
    else if e.Wake? && e.c in k.queues then k.queues[e.c := k.queues[e.c].(waiting := [])]
    else k.queues
  }

  /** The ring after a step: a new process joins behind the head. */
  function RingAfter(k: Kernel, e: Event): seq<Pid> {
    if !e.Spawn? then k.ring
    else if k.ring == [] then [k.lastPid + 1]
    else k.ring[..1] + [k.lastPid + 1] + k.ring[1..]
  }

  /** Somebody else waits for one of the events that the step sets. */
  ghost predicate SetsOff(k: Kernel, e: Event) {
    e.EventSet? && exists p :: p in k.ring && p in k.tasks && p != k.cur && k.tasks[p].mask * e.bits != {}
  }

  /** The step asks for a dispatch, which is granted once the scheduler is enabled. */
  ghost predicate Requests(k: Kernel, e: Event) {
    || e.Tick? || e.SleepFor? || e.Yield? || e.EventWait? || e.AlarmDone? || e.Fault?
    || (e.Wait? && Joins(k, e.completion)) || SetsOff(k, e)
  }

  lemma HitExactly(k: Kernel, e: Event)
    requires Valid(k) && k.cur != k.idle && e.EventSet?
    ensures Hit(k.tasks, Others(k), e.bits) <==> SetsOff(k, e)
  {
    OthersMembers(k);
  }

  lemma ScheduleShared(k: Kernel)
    requires Valid(k)
    ensures var k' := Schedule(k);
            && k'.ring == k.ring && k'.idle == k.idle && k'.lastPid == k.lastPid && k'.clk == k.clk
            && k'.enabled == k.enabled && k'.queues == k.queues && !k'.resched
  {
  }

  /** The state that tasks share, after step e from k to k'. */
  ghost predicate SharedAfter(k: Kernel, e: Event, k': Kernel) {
    && k'.ring == RingAfter(k, e) && k'.idle == k.idle
    && k'.lastPid == (if e.Spawn? || (e.SpawnFails? && e.bumped) then k.lastPid + 1 else k.lastPid)
    && k'.clk == (if e.Tick? then (k.clk + 1) % 0x1_0000_0000 else k.clk)
    && k'.enabled == (k.enabled || e.Enable?) && k'.queues == QueuesAfter(k, e)
    && (k'.resched <==> !e.Dispatch? && (k.resched || (k.enabled && Requests(k, e))))
  }

  lemma DispatchShared(k: Kernel, saved: Regs)
    requires Valid(k) && Enabled(k, Dispatch(saved))
    ensures SharedAfter(k, Dispatch(saved), Next(k, Dispatch(saved)))
  {
    SameRing(k, WithCur(k, k.tasks[k.cur].(regs := saved)));
    ScheduleShared(WithCur(k, k.tasks[k.cur].(regs := saved)));
  }

  lemma EventSetShared(k: Kernel, e: Event)
    requires Valid(k) && Enabled(k, e) && e.EventSet?
    ensures SharedAfter(k, e, Next(k, e))
  {
    OthersInRing(k);
    HitExactly(k, e);
  }

  lemma QueuesShared(k: Kernel, e: Event)
    requires Valid(k) && Enabled(k, e) && (e.Wait? || e.Wake?)
    ensures SharedAfter(k, e, Next(k, e))
  {
  }

  lemma OwnCallsShared(k: Kernel, e: Event)
    requires Valid(k) && Enabled(k, e) && ByCur(e) && !e.Wait? && !e.EventSet?
    ensures SharedAfter(k, e, Next(k, e))
  {
  }

  lemma OthersShared(k: Kernel, e: Event)
    requires Valid(k) && Enabled(k, e) && !ByCur(e) && !e.Wake? && !e.Dispatch?
    ensures SharedAfter(k, e, Next(k, e))
  {
  }

  /** What every step does to the state that tasks share, exactly. */
  lemma SharedEffect(k: Kernel, e: Event)
    requires Valid(k) && Enabled(k, e)
    ensures SharedAfter(k, e, Next(k, e))
  {
    if e.Dispatch? {
      DispatchShared(k, e.saved);
    } else if e.EventSet? {
      EventSetShared(k, e);
    } else if e.Wait? || e.Wake? {
      QueuesShared(k, e);
    } else if ByCur(e) {
      OwnCallsShared(k, e);
    } else {
      OthersShared(k, e);
    }
  }

  /** A new process: on the run queue with its entry registers, waiting for nothing, with no alarm and no wakeup. */
  lemma SpawnEffect(k: Kernel, entry: Regs)
    requires Valid(k)
    ensures var p, k' := k.lastPid + 1, AddTask(k, entry);
            && p !in k.tasks && k'.tasks.Keys == k.tasks.Keys + {p}
            && k'.tasks[p].state == Run && k'.tasks[p].regs == entry && k'.tasks[p].mask == {}
            && k'.tasks[p].timer.next == 0 && !k'.tasks[p].timer.active && !k'.tasks[p].timer.done
            && k'.tasks[p].timer.wakeup == 0xFFFF_FFFF
  {
    SpawnRing(k, entry);
  }

  /** A state of a run, safe, with the step taken from it. */
  lemma At(ks: seq<Kernel>, es: seq<Event>, i: nat)
    requires IsRun(ks, es) && i < |es|
    ensures Valid(ks[i]) && Safe(ks[i]) && Enabled(ks[i], es[i]) && ks[i + 1] == Next(ks[i], es[i])
  {
    RunSafe(ks, es, i);
    assert StepAt(ks, es, i);
  }

  lemma EffectAt(ks: seq<Kernel>, es: seq<Event>, i: nat, p: Pid)
    requires IsRun(ks, es) && i < |es| && p in ks[i].ring
    ensures p in ks[i].tasks && p in ks[i + 1].ring && p in ks[i + 1].tasks
    ensures Effect(ks[i], es[i], p, ks[i + 1].tasks[p], ks[i + 1].cur)
  {
    At(ks, es, i);
    StepEffect(ks[i], es[i], p);
  }

  lemma SharedAt(ks: seq<Kernel>, es: seq<Event>, i: nat)
    requires IsRun(ks, es) && i < |es|
    ensures SharedAfter(ks[i], es[i], ks[i + 1])
  {
    At(ks, es, i);
    SharedEffect(ks[i], es[i]);
  }

  /** Before the scheduler is enabled nothing is dispatched. */
  lemma {:induction false} NothingBeforeEnable(ks: seq<Kernel>, es: seq<Event>, n: nat)
    requires IsRun(ks, es) && n <= |es| && !ks[0].enabled && !ks[0].resched
    requires forall i :: 0 <= i < n ==> !es[i].Enable?
    ensures !ks[n].enabled && !ks[n].resched && forall i :: 0 <= i < n ==> !es[i].Dispatch?
    decreases n
  {
    if n > 0 {
      NothingBeforeEnable(ks, es, n - 1);
      At(ks, es, n - 1);
      SharedAt(ks, es, n - 1);
    }
  }

  lemma IdleEffectAt(ks: seq<Kernel>, es: seq<Event>, i: nat)
    requires IsRun(ks, es) && i < |es|
    ensures ks[i].idle in ks[i].tasks && ks[i + 1].idle == ks[i].idle && ks[i].idle in ks[i + 1].tasks
    ensures ks[i + 1].tasks[ks[i].idle] == IdleAfter(ks[i], es[i], ks[i + 1].cur)
  {
    At(ks, es, i);
    IdleEffect(ks[i], es[i]);
  }
}
