/** When a killed process runs again, and when it never does (kernel/mem.c, kernel/sched.c, kernel/timers.c). */
module SchedRevival {
  import opened Machine
  import opened Sched
  import opened SchedTheorems
  import opened SchedSteps

  // ---------------------------------------------------------------- never again

  ghost predicate InNoQueue(k: Kernel, p: Pid) {
    forall c :: c in k.queues ==> p !in k.queues[c].waiting
  }

  /** No alarm will make the task eligible: outside an excursion none is armed; inside one the handler is not done,
      or it is done but gives back a killed task with no alarm armed. */
  predicate NoAlarm(t: Task) {
    if t.timer.active then !t.timer.done || (t.timer.lastState == Killed && t.timer.next == 0) else t.timer.next == 0
  }

  /** Killed, and nothing is left that could bring it back. */
  ghost predicate Hopeless(k: Kernel, p: Pid) {
    && p in k.ring && p in k.tasks && p != k.cur
    && k.tasks[p].state == Killed && k.tasks[p].mask == {} && InNoQueue(k, p) && NoAlarm(k.tasks[p])
  }

  lemma HopelessEffect(k: Kernel, e: Event, p: Pid, t: Task, next: Pid)
    requires Hopeless(k, p) && Effect(k, e, p, t, next)
    ensures next != p && t.state == Killed && t.mask == {} && NoAlarm(t)
  {
  }

  lemma StaysOut(k: Kernel, e: Event, p: Pid)
    requires Valid(k) && Safe(k) && Enabled(k, e) && InNoQueue(k, p) && p != k.cur
    ensures InNoQueue(Next(k, e), p)
  {
    if e.EventSet? {
      OthersInRing(k);
    } else if e.Dispatch? {
      TaskSafe(k, k.tasks[k.cur].(regs := e.saved));
    }
  }

  lemma StepHopeless(k: Kernel, e: Event, p: Pid)
    requires Valid(k) && Safe(k) && Enabled(k, e) && Hopeless(k, p)
    ensures Hopeless(Next(k, e), p)
  {
    StepEffect(k, e, p);
    HopelessEffect(k, e, p, Next(k, e).tasks[p], Next(k, e).cur);
    StaysOut(k, e, p);
  }

  lemma {:induction false} HopelessForever(ks: seq<Kernel>, es: seq<Event>, i: nat, j: nat, p: Pid)
    requires IsRun(ks, es) && i <= j < |ks| && Hopeless(ks[i], p)
    ensures Hopeless(ks[j], p)
    decreases j
  {
    if i < j {
      HopelessForever(ks, es, i, j - 1, p);
      At(ks, es, j - 1);
      StepHopeless(ks[j - 1], es[j - 1], p);
    }
  }

  // ---------------------------------------------------------------- runs that switch to a process

  ghost predicate Leads(ks: seq<Kernel>, es: seq<Event>, k: Kernel, p: Pid) {
    IsRun(ks, es) && ks[0] == k && ks[|es|].cur == p
  }

  /** Some run from k makes p the current process. */
  ghost predicate CanRun(k: Kernel, p: Pid) { exists ks, es :: Leads(ks, es, k, p) }

  lemma RunsNow(k: Kernel, p: Pid)
    requires Valid(k) && Safe(k) && k.cur == p
    ensures CanRun(k, p)
  {
    assert Leads([k], [], k, p);
  }

  /** One step more in front. */
  lemma StepTo(k: Kernel, e: Event, p: Pid)
    requires Valid(k) && Safe(k) && Enabled(k, e) && CanRun(Next(k, e), p)
    ensures CanRun(k, p)
  {
    var k' := Next(k, e);
    var ks, es :| Leads(ks, es, k', p);
    Prepended(k, e, k', ks, es, p);
  }

  lemma Prepended(k: Kernel, e: Event, k': Kernel, ks: seq<Kernel>, es: seq<Event>, p: Pid)
    requires Valid(k) && Safe(k) && Enabled(k, e) && k' == Next(k, e) && Leads(ks, es, k', p)
    ensures CanRun(k, p)
  {
    StepsInFront(k, e, ks, es, [k] + ks, [e] + es);
    assert Leads([k] + ks, [e] + es, k, p);
  }

  lemma StepsInFront(k: Kernel, e: Event, ks: seq<Kernel>, es: seq<Event>, ks': seq<Kernel>, es': seq<Event>)
    requires Valid(k) && Safe(k) && Enabled(k, e) && IsRun(ks, es) && ks[0] == Next(k, e)
    requires ks' == [k] + ks && es' == [e] + es
    ensures IsRun(ks', es')
  {
    forall i | 0 <= i < |es| + 1
      ensures StepAt(ks', es', i)
    {
      if i > 0 {
        assert StepAt(ks, es, i - 1);
      }
    }
  }

  /** A hopeless process never runs again. */
  lemma NeverRuns(k: Kernel, p: Pid)
    requires Hopeless(k, p)
    ensures !CanRun(k, p)
  {
    if ks, es :| Leads(ks, es, k, p) {
      HopelessForever(ks, es, 0, |es|, p);
    }
  }

  // ---------------------------------------------------------------- a ready process can run

  /** A register set of zeros. */
  function NoRegs(): Regs { seq(17, i => 0) }

  /** From a state with a dispatch requested, a ready process is switched to by dispatches, the processes before it
      giving way one after the other. */
  lemma {:induction false} ReadyRuns(k: Kernel, p: Pid)
    requires Valid(k) && Safe(k) && Ready(k, p) && k.resched && k.enabled
    ensures CanRun(k, p)
    decreases Distance(k, p)
  {
    var d := Dispatch(NoRegs());
    DispatchSafe(k, NoRegs());
    DispatchStepApproaches(k, NoRegs(), p);
    var k' := Next(k, d);
    if k'.cur == p {
      RunsNow(k', p);
    } else {
      NotIdleWhileReady(k, NoRegs(), p);
      YieldKeeps(k', p);
      ReadyRuns(Next(k', Yield), p);
      StepTo(k', Yield, p);
    }
    StepTo(k, d, p);
  }

  /** While a process is ready the idle task is not dispatched. */
  lemma NotIdleWhileReady(k: Kernel, saved: Regs, p: Pid)
    requires Valid(k) && Safe(k) && Ready(k, p) && k.resched
    ensures Next(k, Dispatch(saved)).cur != k.idle && Next(k, Dispatch(saved)).idle == k.idle
    ensures Next(k, Dispatch(saved)).enabled == k.enabled
  {
    SaveKeepsReady(k, saved, p);
    var k1 := WithCur(k, k.tasks[k.cur].(regs := saved));
    DemoteIsGivenUp(k1, p);
    DispatchesFirstEligible(k1);
  }

  lemma YieldKeeps(k: Kernel, p: Pid)
    requires Valid(k) && Safe(k) && Ready(k, p) && k.cur != k.idle && k.cur != p && k.enabled
    ensures Enabled(k, Yield)
    ensures var k' := Next(k, Yield);
            Valid(k') && Safe(k') && Ready(k', p) && Distance(k', p) == Distance(k, p) && k'.resched && k'.enabled
  {
    StepSafe(k, Yield);
    UntouchedReady(k, Next(k, Yield), p);
  }

  // ---------------------------------------------------------------- waiting for the clock

  const LATEST: nat := MODULUS - 1

  /** The state after n ticks that do not wrap the clock. */
  lemma {:induction false} TicksTo(k: Kernel, p: Pid, n: nat)
    requires Valid(k) && Safe(k) && k.enabled && k.clk + n < MODULUS && n > 0
    requires var k' := k.(clk := k.clk + n, resched := true); Valid(k') && Safe(k') && CanRun(k', p)
    ensures CanRun(k, p)
    decreases n
  {
    var k1 := Next(k, Tick);
    StepSafe(k, Tick);
    assert k1 == k.(clk := k.clk + 1, resched := true);
    if n > 1 {
      assert k1.(clk := k1.clk + (n - 1), resched := true) == k.(clk := k.clk + n, resched := true);
      TicksTo(k1, p, n - 1);
    } else {
      assert k1 == k.(clk := k.clk + n, resched := true);
    }
    StepTo(k, Tick, p);
  }

  /** A process that would be eligible at the latest clock can run. */
  lemma EligibleInTime(k: Kernel, p: Pid)
    requires Valid(k) && Safe(k) && k.clk < MODULUS && p in k.ring && Eligible(GivenUp(k.tasks[p]), LATEST)
    ensures CanRun(k, p)
  {
    var k1 := Next(k, Enable);
    StepSafe(k, Enable);
    var k2 := Next(k1, Tick);
    StepSafe(k1, Tick);
    var k3 := k2.(clk := LATEST, resched := true);
    SameRing(k2, k3);
    assert Ready(k3, p);
    ReadyRuns(k3, p);
    if k2.clk < LATEST {
      TicksTo(k2, p, LATEST - k2.clk);
    } else {
      assert k2 == k3;
    }
    StepTo(k1, Tick, p);
    StepTo(k, Enable, p);
  }

  // ---------------------------------------------------------------- ways back

  /** The clock and the times a task remembers are 32-bit values. */
  predicate InWords(k: Kernel, p: Pid) {
    && k.clk < MODULUS && p in k.tasks
    && k.tasks[p].timer.next < MODULUS && k.tasks[p].timer.wakeup < MODULUS && k.tasks[p].timer.lastWakeup < MODULUS
  }

  /** Nothing that the clock or a finished handler would bring about: no alarm armed, or a handler not done. */
  predicate NoPending(t: Task) { if t.timer.active then !t.timer.done else t.timer.next == 0 }

  /** A finished handler that will give back a killed task. */
  predicate Stuck(t: Task) { t.timer.active && t.timer.done && t.timer.lastState == Killed }

  lemma KilledCases(t: Task)
    requires t.state == Killed && t.timer.next < MODULUS && t.timer.lastWakeup < MODULUS
    requires t.timer.active ==> t.timer.lastState != Active
    ensures Eligible(t, LATEST) || NoPending(t) || Stuck(t)
    ensures NoPending(t) ==> forall clk: nat :: CheckTimers(t, clk) == t
    ensures Stuck(t) ==> forall clk: nat :: CheckTimers(t, clk) == Restore(t) && !Eligible(t, clk)
  {
  }

  lemma StuckChecked(t: Task, clk: nat)
    requires t.state == Killed && Stuck(t)
    ensures CheckTimers(t, clk) == Restore(t) && Restore(t) != t && GivenUp(t) == t && !Eligible(t, clk)
  {
  }

  /** Made runnable, a task with nothing pending can run. */
  lemma RunnableRuns(k: Kernel, p: Pid)
    requires Valid(k) && Safe(k) && k.clk < MODULUS && p in k.ring
    requires k.tasks[p].state == Run && NoPending(k.tasks[p])
    ensures CanRun(k, p)
  {
    EligibleInTime(k, p);
  }

  /** A wake of a queue brings it back. */
  lemma QueueRuns(k: Kernel, p: Pid, c: nat)
    requires Valid(k) && Safe(k) && k.clk < MODULUS && p in k.ring && NoPending(k.tasks[p])
    requires c in k.queues && p in k.queues[c].waiting
    ensures CanRun(k, p)
  {
    StepSafe(k, Wake(c));
    StepEffect(k, Wake(c), p);
    RunnableRuns(Next(k, Wake(c)), p);
    StepTo(k, Wake(c), p);
  }

  /** So does an event it waits for, set by another process. */
  lemma EventRuns(k: Kernel, p: Pid, x: nat)
    requires Valid(k) && Safe(k) && k.clk < MODULUS && p in k.ring && NoPending(k.tasks[p])
    requires x in k.tasks[p].mask && k.cur != p && k.cur != k.idle
    ensures CanRun(k, p)
  {
    var e := EventSet({x});
    StepSafe(k, e);
    StepEffect(k, e, p);
    assert x in k.tasks[p].mask * {x};
    SetKeepsClock(k, e);
    RunnableRuns(Next(k, e), p);
    StepTo(k, e, p);
  }

  lemma SetKeepsClock(k: Kernel, e: Event)
    requires Valid(k) && Enabled(k, e) && e.EventSet?
    ensures Next(k, e).clk == k.clk
  {
    OthersInRing(k);
  }

  /** Enabling the scheduler and a tick request a dispatch, and change nothing else but the clock. */
  function Requested(k: Kernel): Kernel { k.(enabled := true, clk := Wrap(k.clk + 1), resched := true) }

  lemma RequestRuns(k: Kernel, p: Pid)
    requires Valid(k) && Safe(k)
    ensures Valid(Requested(k)) && Safe(Requested(k))
    ensures CanRun(Requested(k), p) ==> CanRun(k, p)
  {
    SameRing(k, Requested(k));
    var k1 := Next(k, Enable);
    StepSafe(k, Enable);
    assert Next(k1, Tick) == Requested(k);
    if CanRun(Requested(k), p) {
      StepTo(k1, Tick, p);
      StepTo(k, Enable, p);
    }
  }

  /** A dispatch keeps clock, queues and ring. */
  lemma DispatchKeeps(k: Kernel, saved: Regs)
    requires Valid(k) && Safe(k) && k.resched
    ensures var k' := Next(k, Dispatch(saved));
            Valid(k') && Safe(k') && k'.clk == k.clk && k'.queues == k.queues && k'.ring == k.ring && k'.idle == k.idle
  {
    DispatchSafe(k, saved);
    TaskSafe(k, k.tasks[k.cur].(regs := saved));
  }

  /** With the idle task current, a new process can be brought in to set the event. */
  lemma EventRunsFromIdle(k: Kernel, p: Pid, x: nat)
    requires Valid(k) && Safe(k) && p in k.ring && NoPending(k.tasks[p])
    requires x in k.tasks[p].mask && k.tasks[p].state == Killed && k.cur == k.idle && InWords(k, p)
    ensures CanRun(k, p)
  {
    var spawn := Event.Spawn(NoRegs());
    var k1 := Next(k, spawn);
    StepSafe(k, spawn);
    StepEffect(k, spawn, p);
    SpawnedReady(k, NoRegs());
    RequestRuns(k1, p);
    NewStaysReady(k1, Requested(k1), k1.lastPid);
    EventRunsOnDispatch(Requested(k1), p, x, k1.lastPid);
    StepTo(k, spawn, p);
  }

  /** A dispatch that finds some process ready makes a process current that can set the event. */
  lemma EventRunsOnDispatch(k: Kernel, p: Pid, x: nat, q: Pid)
    requires Valid(k) && Safe(k) && p in k.ring && p != k.cur && NoPending(k.tasks[p]) && k.resched && Ready(k, q)
    requires x in k.tasks[p].mask && k.tasks[p].state == Killed && InWords(k, p)
    ensures CanRun(k, p)
  {
    var d := Dispatch(NoRegs());
    NotIdleWhileReady(k, NoRegs(), q);
    DispatchKeeps(k, NoRegs());
    PassedOver(k, NoRegs(), p);
    RunsOrSet(Next(k, d), p, x);
    StepTo(k, d, p);
  }

  lemma RunsOrSet(k: Kernel, p: Pid, x: nat)
    requires Valid(k) && Safe(k) && k.clk < MODULUS && p in k.ring && k.cur != k.idle
    requires k.cur != p ==> NoPending(k.tasks[p]) && x in k.tasks[p].mask
    ensures CanRun(k, p)
  {
    if k.cur == p {
      RunsNow(k, p);
    } else {
      EventRuns(k, p, x);
    }
  }

  /** A dispatch leaves a killed task with nothing pending as it is, unless it switches to it. */
  lemma PassedOver(k: Kernel, saved: Regs, p: Pid)
    requires Valid(k) && Safe(k) && p in k.ring && p != k.cur && NoPending(k.tasks[p]) && k.resched
    requires k.tasks[p].state == Killed && InWords(k, p)
    ensures var k' := Next(k, Dispatch(saved)); p in k'.tasks && (k'.cur == p || k'.tasks[p] == k.tasks[p])
  {
    StepEffect(k, Dispatch(saved), p);
    KilledCases(k.tasks[p]);
  }

  lemma NewStaysReady(k: Kernel, k': Kernel, q: Pid)
    requires Valid(k) && Valid(k') && q in k.ring && k.tasks[q].state == Run
    requires k.tasks[q].timer.next == 0 && !k.tasks[q].timer.active
    requires k'.ring == k.ring && k'.tasks == k.tasks
    ensures Ready(k', q)
  {
  }

  /** A queue holds p, or p waits for an event. */
  ghost predicate Waited(k: Kernel, p: Pid)
    requires p in k.tasks
  {
    k.tasks[p].mask != {} || !InNoQueue(k, p)
  }

  lemma WaitedRuns(k: Kernel, p: Pid)
    requires Valid(k) && Safe(k) && InWords(k, p) && p in k.ring && p != k.cur
    requires k.tasks[p].state == Killed && NoPending(k.tasks[p]) && Waited(k, p)
    ensures CanRun(k, p)
  {
    if !InNoQueue(k, p) {
      var c :| c in k.queues && p in k.queues[c].waiting;
      QueueRuns(k, p, c);
    } else {
      var x :| x in k.tasks[p].mask;
      if k.cur == k.idle {
        EventRunsFromIdle(k, p, x);
      } else {
        EventRuns(k, p, x);
      }
    }
  }

  /** If the loop of schedule does not check p, it stops before p. */
  lemma ScanUnchecked(tasks: map<Pid, Task>, order: seq<Pid>, clk: nat, p: Pid)
    requires Distinct(order) && p in order && (forall q :: q in order ==> q in tasks)
    requires !Eligible(tasks[p], clk) && Scan(tasks, order, clk).0[p] != CheckTimers(tasks[p], clk)
    ensures var choice := Scan(tasks, order, clk).1; choice.Some? && Index(order, choice.value) < Index(order, p)
  {
    ScanSpec(tasks, order, clk);
    var n := Passed(tasks, order, clk);
    assert order[Index(order, p)] == p;
    assert Index(order, p) >= n;
  }

  lemma UncheckedCloser(k: Kernel, p: Pid)
    requires Valid(k) && Safe(k) && p in k.ring && Settled(k).0[p] != CheckTimers(GivenUp(k.tasks[p]), k.clk)
    requires !Eligible(GivenUp(k.tasks[p]), k.clk)
    ensures p in ScanOrder(k) && Settled(k).1 in ScanOrder(k) && Settled(k).1 in k.ring
    ensures Index(ScanOrder(k), Settled(k).1) < Index(ScanOrder(k), p)
  {
    OrderMembers(k);
    DemoteIsGivenUp(k, p);
    ScanUnchecked(Demote(k).tasks, ScanOrder(k), k.clk, p);
  }

  /** A dispatch that does not check a stuck task brings it closer. */
  lemma ScheduleCloser(k: Kernel, p: Pid)
    requires Valid(k) && Safe(k) && p in k.ring && k.tasks[p].state == Killed && Stuck(k.tasks[p])
    requires Valid(Schedule(k)) && Schedule(k).tasks[p] == k.tasks[p]
    ensures Distance(Schedule(k), p) < Distance(k, p)
  {
    StuckChecked(k.tasks[p], k.clk);
    UncheckedCloser(k, p);
    CloserAfter(k, Settled(k).1, p);
  }

  lemma DispatchCloser(k: Kernel, saved: Regs, p: Pid)
    requires Valid(k) && Safe(k) && k.resched && p in k.ring && p != k.cur
    requires Stuck(k.tasks[p]) && k.tasks[p].state == Killed
    requires var k' := Next(k, Dispatch(saved)); Valid(k') && p in k'.tasks && k'.tasks[p] == k.tasks[p]
    ensures var k' := Next(k, Dispatch(saved)); p in k'.ring && Distance(k', p) < Distance(k, p)
  {
    var k1 := WithCur(k, k.tasks[k.cur].(regs := saved));
    TaskSafe(k, k.tasks[k.cur].(regs := saved));
    SameDistance(k, k1, p);
    ScheduleCloser(k1, p);
  }

  /** A stuck task is checked sooner or later, and then is an ordinary killed one. */
  lemma {:induction false} StuckRuns(k: Kernel, p: Pid)
    requires Valid(k) && Safe(k) && InWords(k, p) && p in k.ring && p != k.cur
    requires k.tasks[p].state == Killed && Stuck(k.tasks[p]) && (Waited(k, p) || k.tasks[p].timer.next > 0)
    ensures CanRun(k, p)
    decreases Distance(k, p)
  {
    var k1 := Requested(k);
    RequestRuns(k, p);
    SameDistance(k, k1, p);
    var d := Dispatch(NoRegs());
    var k2 := Next(k1, d);
    DispatchKeeps(k1, NoRegs());
    StepEffect(k1, d, p);
    KilledCases(k1.tasks[p]);
    if k2.tasks[p] == k1.tasks[p] {
      DispatchCloser(k1, NoRegs(), p);
      StuckRuns(k2, p);
    } else {
      FreedRuns(k2, p);
    }
    StepTo(k1, d, p);
  }

  /** A killed task outside any excursion runs again if an alarm is armed or it is waited for. */
  lemma FreedRuns(k: Kernel, p: Pid)
    requires Valid(k) && Safe(k) && InWords(k, p) && p in k.ring && p != k.cur
    requires k.tasks[p].state == Killed && !k.tasks[p].timer.active && (Waited(k, p) || k.tasks[p].timer.next > 0)
    ensures CanRun(k, p)
  {
    if k.tasks[p].timer.next > 0 {
      EligibleInTime(k, p);
    } else {
      WaitedRuns(k, p);
    }
  }

  /** A killed process that is not current runs again in some run if and only if it is not hopeless: if an alarm is
      armed or a finished handler gives it back alive, or it waits for an event, or a queue still holds it. */
  lemma KilledExactly(k: Kernel, p: Pid)
    requires Valid(k) && Safe(k) && InWords(k, p) && p in k.ring && p != k.cur && k.tasks[p].state == Killed
    ensures CanRun(k, p) <==> !Hopeless(k, p)
  {
    if Hopeless(k, p) {
      NeverRuns(k, p);
    } else {
      KilledCases(k.tasks[p]);
      if Eligible(k.tasks[p], LATEST) {
        EligibleInTime(k, p);
      } else if NoPending(k.tasks[p]) {
        WaitedRuns(k, p);
      } else {
        StuckRuns(k, p);
      }
    }
  }

  // ---------------------------------------------------------------- times stay 32-bit values

  ghost predicate AllInWords(k: Kernel) { k.clk < MODULUS && forall p :: p in k.ring ==> InWords(k, p) }

  lemma WordsEffect(k: Kernel, e: Event, p: Pid, t: Task, next: Pid)
    requires InWords(k, p) && Effect(k, e, p, t, next)
    ensures t.timer.next < MODULUS && t.timer.wakeup < MODULUS && t.timer.lastWakeup < MODULUS
  {
  }

  lemma ClockInWords(k: Kernel, e: Event)
    requires Valid(k) && Safe(k) && Enabled(k, e) && k.clk < MODULUS
    ensures Next(k, e).clk < MODULUS
    ensures forall p :: p in Next(k, e).ring ==> p in k.ring || (e.Spawn? && p == k.lastPid + 1)
  {
    if e.EventSet? {
      OthersInRing(k);
    } else if e.Dispatch? {
      DispatchKeeps(k, e.saved);
    }
  }

  lemma StepInWords(k: Kernel, e: Event)
    requires Valid(k) && Safe(k) && Enabled(k, e) && AllInWords(k)
    ensures AllInWords(Next(k, e))
  {
    ClockInWords(k, e);
    forall p | p in Next(k, e).ring
      ensures InWords(Next(k, e), p)
    {
      if p in k.ring {
        StepEffect(k, e, p);
        WordsEffect(k, e, p, Next(k, e).tasks[p], Next(k, e).cur);
      }
    }
  }

  /** In every state of a run from a start with a 32-bit clock, all times are 32-bit values. */
  lemma {:induction false} RunInWords(ks: seq<Kernel>, es: seq<Event>, i: nat)
    requires IsRun(ks, es) && AllInWords(ks[0]) && i < |ks|
    ensures AllInWords(ks[i])
    decreases i
  {
    if i > 0 {
      RunInWords(ks, es, i - 1);
      At(ks, es, i - 1);
      StepInWords(ks[i - 1], es[i - 1]);
    }
  }

  // ---------------------------------------------------------------- faults

  /** A fault kills for good exactly when no alarm is armed, or the handler it happens in is not done, and no queue
      holds the process: then no run from the dispatch that follows switches to it, and otherwise one does. */
  lemma FaultIsFinalExactly(k: Kernel, saved: Regs)
    requires Valid(k) && Safe(k) && k.cur != k.idle && k.enabled && InWords(k, k.cur)
    ensures Valid(UserPageFault(k)) && Enabled(UserPageFault(k), Dispatch(saved))
    ensures !CanRun(Next(UserPageFault(k), Dispatch(saved)), k.cur)
       <==> NoAlarm(k.tasks[k.cur]) && InNoQueue(k, k.cur)
  {
    var p := k.cur;
    var killed := UserPageFault(k);
    StepSafe(k, Fault);
    StepEffect(k, Fault, p);
    AfterFault(killed, saved, p);
  }

  /** The dispatch after the fault. */
  lemma AfterFault(k: Kernel, saved: Regs, p: Pid)
    requires Valid(k) && Safe(k) && k.resched && p == k.cur && p in k.ring && InWords(k, p)
    requires k.tasks[p].state == Killed && k.tasks[p].mask == {}
    ensures !CanRun(Next(k, Dispatch(saved)), p) <==> NoAlarm(k.tasks[p]) && InNoQueue(k, p)
  {
    var d := Dispatch(saved);
    DispatchKeeps(k, saved);
    StepEffect(k, d, p);
    var k' := Next(k, d);
    var v, t := Seen(k, d, p), k'.tasks[p];
    assert v == k.tasks[p].(regs := saved);
    FaultCases(v, t, k.clk, k'.cur == p);
    if k'.cur == p {
      RunsNow(k', p);
    } else if t.state == Killed {
      KilledExactly(k', p);
    } else {
      EligibleInTime(k', p);
    }
  }

  /** A killed task that a dispatch does not choose stays killed, with the same prospects, or falls back asleep. */
  lemma FaultCases(v: Task, t: Task, clk: nat, chosen: bool)
    requires v.state == Killed && Dispatched(v, t, clk, chosen) && (v.timer.active ==> v.timer.lastState != Active)
    requires v.timer.next < MODULUS && v.timer.wakeup < MODULUS && v.timer.lastWakeup < MODULUS
    ensures chosen ==> !NoAlarm(v)
    ensures !chosen && t.state == Killed ==> (NoAlarm(t) <==> NoAlarm(v)) && t.mask == v.mask
    ensures !chosen && t.state != Killed ==> !NoAlarm(v) && Eligible(GivenUp(t), LATEST)
    ensures t.timer.next < MODULUS && t.timer.wakeup < MODULUS && t.timer.lastWakeup < MODULUS
  {
  }
}
