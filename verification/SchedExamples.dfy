/** Concrete runs of the scheduler that show where it falls short of its purpose. */
module SchedExamples {
  import opened Machine
  import opened Sched
  import opened SchedTheorems
  import opened SchedSteps
  import opened SchedAlarms
  import opened SchedRevival

  // ---------------------------------------------------------------- building runs

  /** A run with these events that leads from k0 to k. */
  ghost predicate Path(ks: seq<Kernel>, es: seq<Event>, k0: Kernel, k: Kernel) {
    IsRun(ks, es) && ks[0] == k0 && ks[|es|] == k
  }

  lemma Further(ks: seq<Kernel>, es: seq<Event>, k0: Kernel, k: Kernel, e: Event, k': Kernel)
    requires Path(ks, es, k0, k) && Valid(k) && Enabled(k, e) && k' == Next(k, e)
    ensures Path(ks + [k'], es + [e], k0, k')
  {
    var ks', es' := ks + [k'], es + [e];
    forall i | 0 <= i < |es'|
      ensures StepAt(ks', es', i)
    {
      if i < |es| {
        assert StepAt(ks, es, i);
      }
    }
  }

  // ---------------------------------------------------------------- one process alone

  /** p is the only process, in a running system, and its record is t. */
  ghost predicate Solo(k: Kernel, p: Pid, t: Task) {
    Valid(k) && Safe(k) && k.ring == [p] && k.enabled && p in k.tasks && k.tasks[p] == t
  }

  /** The steps besides dispatches that the runs below take. */
  predicate Plain(e: Event) {
    e.Tick? || e.Alarm? || e.AlarmDone? || e.Fault? || e.Wait? || e.Wake? || e.SleepFor?
  }

  lemma SoloStep(k: Kernel, e: Event, p: Pid, t: Task)
    requires Solo(k, p, t) && Enabled(k, e)
    requires Plain(e)
    ensures Solo(Next(k, e), p, Changed(k, e, p))
  {
    StepSafe(k, e);
    StepEffect(k, e, p);
  }

  lemma SoloFrame(k: Kernel, e: Event, p: Pid, t: Task)
    requires Solo(k, p, t) && Enabled(k, e)
    requires Plain(e)
    ensures Next(k, e).cur == k.cur && Next(k, e).idle == k.idle
    ensures Next(k, e).clk == if e.Tick? then Wrap(k.clk + 1) else k.clk
    ensures Next(k, e).queues == QueuesAfter(k, e)
    ensures Requests(k, e) ==> Next(k, e).resched
  {
    SharedEffect(k, e);
    StepEffect(k, e, p);
  }

  lemma SeenReady(k: Kernel, saved: Regs, p: Pid)
    requires Valid(k) && Safe(k) && p in k.ring && Eligible(Seen(k, Dispatch(saved), p), k.clk)
    ensures Ready(k, p)
  {
    EligibleWoken(Seen(k, Dispatch(saved), p), k.clk, GivenUp(k.tasks[p]));
  }

  /** A dispatch that does not choose the only process has checked it. */
  lemma OnlyChecked(k: Kernel, saved: Regs, p: Pid)
    requires Valid(k) && Safe(k) && k.resched && k.ring == [p] && !Eligible(Seen(k, Dispatch(saved), p), k.clk)
    ensures p in Next(k, Dispatch(saved)).tasks
    ensures Next(k, Dispatch(saved)).tasks[p] == CheckTimers(Seen(k, Dispatch(saved), p), k.clk)
  {
    var t := k.tasks[k.cur].(regs := saved);
    var k1 := WithCur(k, t);
    TaskSafe(k, t);
    GivenUpSaved(k, saved, p);
    SearchEffect(k1, p);
    if Settled(k1).0[p] != CheckTimers(GivenUp(k1.tasks[p]), k1.clk) {
      UncheckedCloser(k1, p);
      assert false;
    }
  }

  /** What a dispatch makes of the only process: it is checked, and switched to if that makes it eligible. */
  function Checked(v: Task, clk: nat): Task {
    if Eligible(v, clk) then CheckTimers(v, clk).(state := Active) else CheckTimers(v, clk)
  }

  lemma OnlyProcess(k: Kernel, saved: Regs, p: Pid)
    requires Valid(k) && Safe(k) && k.resched && k.ring == [p]
    ensures var d := Dispatch(saved);
            var k' := Next(k, d);
            && p in k'.tasks && k'.cur == (if Eligible(Seen(k, d, p), k.clk) then p else k.idle)
            && k'.tasks[p] == Checked(Seen(k, d, p), k.clk)
  {
    DispatchKeeps(k, saved);
    StepEffect(k, Dispatch(saved), p);
    if Eligible(Seen(k, Dispatch(saved), p), k.clk) {
      SeenReady(k, saved, p);
      NotIdleWhileReady(k, saved, p);
    } else {
      OnlyChecked(k, saved, p);
    }
  }

  lemma SoloDispatch(k: Kernel, p: Pid, t: Task)
    requires Solo(k, p, t) && k.resched
    ensures var d := Dispatch(NoRegs());
            var v, k' := Seen(k, d, p), Next(k, d);
            && Solo(k', p, Checked(v, k.clk)) && k'.cur == (if Eligible(v, k.clk) then p else k.idle)
            && k'.clk == k.clk && k'.idle == k.idle && k'.queues == k.queues
  {
    DispatchKeeps(k, NoRegs());
    OnlyProcess(k, NoRegs(), p);
    DispatchEnabled(k, NoRegs());
  }

  lemma DispatchEnabled(k: Kernel, saved: Regs)
    requires Valid(k) && k.resched
    ensures Next(k, Dispatch(saved)).enabled == k.enabled
  {
  }

  // ---------------------------------------------------------------- the first process

  /** A new process that has been switched to. */
  function Started(): Task { NewTask(NoRegs()).(state := Active) }

  lemma Spawns(k: Kernel)
    requires Init(k)
    ensures Valid(k) && Safe(k)
    ensures var k' := Next(k, Event.Spawn(NoRegs())).(enabled := true);
            && Solo(k', k.lastPid + 1, NewTask(NoRegs())) && k'.cur == k.idle == k'.idle
            && k'.clk == k.clk && k'.queues == k.queues
  {
    InitSafe(k);
    var k1 := Next(k, Event.Spawn(NoRegs()));
    StepSafe(k, Event.Spawn(NoRegs()));
    SameRing(k1, k1.(enabled := true));
  }

  lemma SpawnPath(k: Kernel) returns (ks: seq<Kernel>)
    requires Init(k)
    ensures |ks| == 3 && Path(ks, [Event.Spawn(NoRegs())] + [Enable], k, AddTask(k, NoRegs()).(enabled := true))
  {
    InitSafe(k);
    var spawn := Event.Spawn(NoRegs());
    var k1 := Next(k, spawn);
    StepSafe(k, spawn);
    assert [] + [spawn] == [spawn];
    Further([k], [], k, k, spawn, k1);
    Further([k] + [k1], [spawn], k, k1, Enable, k1.(enabled := true));
    ks := [k] + [k1] + [k1.(enabled := true)];
  }

  /** One more step of the only process. */
  lemma Steps(ks: seq<Kernel>, es: seq<Event>, k0: Kernel, k: Kernel, e: Event, p: Pid, t: Task) returns (k': Kernel)
    requires Path(ks, es, k0, k) && Solo(k, p, t) && Enabled(k, e)
    requires Plain(e)
    ensures Path(ks + [k'], es + [e], k0, k') && Solo(k', p, Changed(k, e, p))
    ensures k'.cur == k.cur && k'.idle == k.idle && k'.clk == if e.Tick? then Wrap(k.clk + 1) else k.clk
    ensures k'.queues == QueuesAfter(k, e)
    ensures Requests(k, e) ==> k'.resched
  {
    SoloStep(k, e, p, t);
    SoloFrame(k, e, p, t);
    k' := Next(k, e);
    Further(ks, es, k0, k, e, k');
  }

  /** What a dispatch sees of the only process. */
  function Found(k: Kernel, p: Pid, t: Task): Task {
    if k.cur == p then GivenUp(t.(regs := NoRegs())) else t
  }

  /** One more dispatch. */
  lemma Switches(ks: seq<Kernel>, es: seq<Event>, k0: Kernel, k: Kernel, p: Pid, t: Task) returns (k': Kernel)
    requires Path(ks, es, k0, k) && Solo(k, p, t) && k.resched
    ensures Path(ks + [k'], es + [Dispatch(NoRegs())], k0, k')
    ensures var v := Found(k, p, t);
            && Solo(k', p, Checked(v, k.clk)) && k'.cur == (if Eligible(v, k.clk) then p else k.idle)
            && k'.clk == k.clk && k'.idle == k.idle && k'.queues == k.queues
  {
    SoloDispatch(k, p, t);
    k' := Next(k, Dispatch(NoRegs()));
    Further(ks, es, k0, k, Dispatch(NoRegs()), k');
  }

  /** The first process is spawned and switched to. */
  function Opening(): (es: seq<Event>)
    ensures |es| == 4
  {
    [Event.Spawn(NoRegs())] + [Enable] + [Tick] + [Dispatch(NoRegs())]
  }

  lemma Opened(k: Kernel) returns (ks: seq<Kernel>, k': Kernel)
    requires Init(k) && k.clk + 1 < MODULUS
    ensures Path(ks, Opening(), k, k') && Solo(k', k.lastPid + 1, Started())
    ensures k'.cur == k.lastPid + 1 && k'.idle == k.idle && k'.clk == k.clk + 1 && k'.queues == k.queues
  {
    var p, es := k.lastPid + 1, [Event.Spawn(NoRegs())] + [Enable];
    Spawns(k);
    ks := SpawnPath(k);
    var k3 := Steps(ks, es, k, AddTask(k, NoRegs()).(enabled := true), Tick, p, NewTask(NoRegs()));
    k' := Switches(ks + [k3], es + [Tick], k, k3, p, NewTask(NoRegs()));
    ks := ks + [k3] + [k'];
  }

  // ---------------------------------------------------------------- a killed process that runs again

  /** A started process with an alarm armed for the next tick. */
  function Armed(handler: nat, due: nat): Task {
    var t := Started();
    t.(timer := t.timer.(handler := handler, period := 1, next := due, oneshot := true))
  }

  lemma Arms(ks: seq<Kernel>, es: seq<Event>, k0: Kernel, k: Kernel, handler: nat, p: Pid) returns (k': Kernel)
    requires Path(ks, es, k0, k) && Solo(k, p, Started()) && k.cur == p && k.clk + 1 < MODULUS
    ensures Path(ks + [k'], es + [Alarm(handler, 10, true)], k0, k') && Solo(k', p, Armed(handler, k.clk + 1))
    ensures k'.cur == p && k'.idle == k.idle && k'.clk == k.clk && k'.queues == k.queues
  {
    k' := Steps(ks, es, k0, k, Alarm(handler, 10, true), p, Started());
  }

  function Dead(handler: nat, due: nat): Task {
    var t := Armed(handler, due);
    t.(state := Killed)
  }

  lemma Dies(ks: seq<Kernel>, es: seq<Event>, k0: Kernel, k: Kernel, handler: nat, p: Pid)
    returns (k1: Kernel, k': Kernel)
    requires Path(ks, es, k0, k) && Solo(k, p, Armed(handler, k.clk + 1)) && k.cur == p && k.clk + 1 < MODULUS
    ensures Path(ks + [k1] + [k'], es + [Fault] + [Dispatch(NoRegs())], k0, k') && Solo(k', p, Dead(handler, k.clk + 1))
    ensures k'.cur == k'.idle == k.idle && k'.clk == k.clk
  {
    k1 := Steps(ks, es, k0, k, Fault, p, Armed(handler, k.clk + 1));
    k' := Switches(ks + [k1], es + [Fault], k0, k1, p, Dead(handler, k.clk + 1));
  }

  /** The process arms an alarm for one tick ahead, faults, and gives way to the idle task; then the clock ticks. */
  function Reviving(handler: nat): (es: seq<Event>)
    ensures |es| == 9
  {
    Opening() + [Alarm(handler, 10, true)] + [Fault] + [Dispatch(NoRegs())] + [Tick] + [Dispatch(NoRegs())]
  }

  lemma DeadRises(ks: seq<Kernel>, es: seq<Event>, k0: Kernel, k: Kernel, handler: nat, p: Pid)
    returns (k1: Kernel, k': Kernel)
    requires Path(ks, es, k0, k) && Solo(k, p, Dead(handler, k.clk + 1)) && k.cur == k.idle && k.clk + 1 < MODULUS
    ensures Path(ks + [k1] + [k'], es + [Tick] + [Dispatch(NoRegs())], k0, k') && k'.cur == p
  {
    k1 := Steps(ks, es, k0, k, Tick, p, Dead(handler, k.clk + 1));
    k' := Switches(ks + [k1], es + [Tick], k0, k1, p, Dead(handler, k.clk + 1));
  }

  /** A killed process can run again: its alarm is still armed, and a tick later its handler runs. */
  lemma RevivingRun(k: Kernel, handler: nat) returns (ks: seq<Kernel>)
    requires Init(k) && k.clk + 2 < MODULUS
    ensures IsRun(ks, Reviving(handler)) && ks[0] == k
    ensures var p := k.lastPid + 1;
            p in ks[7].tasks && ks[7].tasks[p].state == Killed && ks[7].cur != p && ks[9].cur == p
  {
    var p, es, k1 := k.lastPid + 1, Opening(), k;
    ks, k1 := Opened(k);
    var k2 := Arms(ks, es, k, k1, handler, p);
    var alarm := [Alarm(handler, 10, true)];
    var k3, k4 := Dies(ks + [k2], es + alarm, k, k2, handler, p);
    var k5, k6 := DeadRises(ks + [k2] + [k3] + [k4], es + alarm + [Fault] + [Dispatch(NoRegs())], k, k4, handler, p);
    ks := ks + [k2] + [k3] + [k4] + [k5] + [k6];
  }

  // ---------------------------------------------------------------- a wakeup that is lost

  /** Asleep until the end of the clock's range, waiting for nothing, with no alarm. */
  ghost predicate Forgotten(k: Kernel, p: Pid) {
    && p in k.ring && p in k.tasks && p != k.cur && InNoQueue(k, p)
    && k.tasks[p].state == Sleep && k.tasks[p].timer.wakeup == NEVER && k.tasks[p].mask == {}
    && k.tasks[p].timer.next == 0 && !k.tasks[p].timer.active
  }

  lemma ForgottenEffect(k: Kernel, e: Event, p: Pid, t: Task, next: Pid)
    requires Forgotten(k, p) && Effect(k, e, p, t, next) && k.clk < NEVER
    ensures next != p && t == k.tasks[p]
  {
  }

  /** However long the run, such a process is not switched to before the clock reaches the end of its range. */
  lemma {:induction false} ForgottenForever(ks: seq<Kernel>, es: seq<Event>, i: nat, j: nat, p: Pid)
    requires IsRun(ks, es) && i <= j < |ks| && Forgotten(ks[i], p)
    requires forall m :: i <= m < j ==> ks[m].clk < NEVER
    ensures Forgotten(ks[j], p)
    decreases j
  {
    if i < j {
      ForgottenForever(ks, es, i, j - 1, p);
      EffectAt(ks, es, j - 1, p);
      ForgottenEffect(ks[j - 1], es[j - 1], p, ks[j].tasks[p], ks[j].cur);
      At(ks, es, j - 1);
      StaysOut(ks[j - 1], es[j - 1], p);
    }
  }

  /** Only queue c holds anyone, and that is p if waiting. */
  ghost predicate OnlyIn(queues: map<nat, Queue>, c: nat, p: Pid, waiting: bool) {
    && c in queues && queues[c].size > 0
    && forall d :: d in queues ==> queues[d].waiting == if d == c && waiting then [p] else []
  }

  /** The armed process asleep in a queue. */
  function Waiting(handler: nat, due: nat): Task {
    var t := Armed(handler, due);
    t.(state := Sleep)
  }

  /** The same in its handler. */
  function Handling(handler: nat, due: nat): Task {
    var t := Fire(Waiting(handler, due), due);
    t.(state := Active)
  }

  lemma Waits(ks: seq<Kernel>, es: seq<Event>, k0: Kernel, k: Kernel, handler: nat, c: nat, p: Pid)
    returns (k': Kernel)
    requires Path(ks, es, k0, k) && Solo(k, p, Armed(handler, k.clk + 1)) && k.cur == p && p != k.idle
    requires OnlyIn(k.queues, c, p, false)
    ensures WaitsAt(k, Wait(Some(c)), c, p)
    ensures Path(ks + [k'], es + [Wait(Some(c))], k0, k') && Solo(k', p, Waiting(handler, k.clk + 1)) && k'.resched
    ensures k'.cur == p && k'.idle == k.idle && k'.clk == k.clk && OnlyIn(k'.queues, c, p, true)
  {
    k' := Steps(ks, es, k0, k, Wait(Some(c)), p, Armed(handler, k.clk + 1));
  }

  lemma NotYet(handler: nat, due: nat, clk: nat)
    requires clk < due && clk < NEVER
    ensures var t := Waiting(handler, due);
            t.(regs := NoRegs()) == t && GivenUp(t) == t && !Eligible(t, clk) && Checked(t, clk) == t
  {
  }

  lemma Leaves(ks: seq<Kernel>, es: seq<Event>, k0: Kernel, k: Kernel, handler: nat, p: Pid) returns (k': Kernel)
    requires Path(ks, es, k0, k) && Solo(k, p, Waiting(handler, k.clk + 1)) && k.resched && k.clk < NEVER
    ensures Path(ks + [k'], es + [Dispatch(NoRegs())], k0, k') && Solo(k', p, Waiting(handler, k.clk + 1))
    ensures k'.cur == k'.idle == k.idle && k'.clk == k.clk && k'.queues == k.queues
  {
    NotYet(handler, k.clk + 1, k.clk);
    k' := Switches(ks, es, k0, k, p, Waiting(handler, k.clk + 1));
  }

  lemma NowDue(handler: nat, due: nat)
    requires due > 0
    ensures var t := Waiting(handler, due); Eligible(t, due) && Checked(t, due) == Handling(handler, due)
  {
  }

  /** A tick later the alarm fires. */
  lemma Interrupted(ks: seq<Kernel>, es: seq<Event>, k0: Kernel, k: Kernel, handler: nat, p: Pid)
    returns (k1: Kernel, k': Kernel)
    requires Path(ks, es, k0, k) && Solo(k, p, Waiting(handler, k.clk + 1)) && k.cur == k.idle && k.clk + 1 < NEVER
    ensures Path(ks + [k1] + [k'], es + [Tick] + [Dispatch(NoRegs())], k0, k')
    ensures Fires(k1, k', p)
    ensures Solo(k', p, Handling(handler, k.clk + 1)) && k'.cur == p && k'.idle == k.idle
    ensures k'.clk == k.clk + 1 && k'.queues == k.queues
  {
    NowDue(handler, k.clk + 1);
    k1 := Steps(ks, es, k0, k, Tick, p, Waiting(handler, k.clk + 1));
    k' := Switches(ks + [k1], es + [Tick], k0, k1, p, Waiting(handler, k.clk + 1));
  }

  /** The handler, made runnable by a wake, and done. */
  function Roused(handler: nat, due: nat): Task {
    var t := Handling(handler, due);
    t.(state := Run)
  }

  function Finishing(handler: nat, due: nat): Task {
    var t := Roused(handler, due);
    t.(timer := t.timer.(done := true))
  }

  lemma WokenInHandler(ks: seq<Kernel>, es: seq<Event>, k0: Kernel, k: Kernel, handler: nat, c: nat, p: Pid)
    returns (k1: Kernel, k': Kernel)
    requires Path(ks, es, k0, k) && Solo(k, p, Handling(handler, k.clk)) && k.cur == p && p != k.idle
    requires OnlyIn(k.queues, c, p, true)
    ensures Rouses(k, Wake(c), p)
    ensures Path(ks + [k1] + [k'], es + [Wake(c)] + [AlarmDone], k0, k')
    ensures p in k1.tasks && k1.tasks[p].timer.active
    ensures Solo(k', p, Finishing(handler, k.clk)) && k'.cur == p && k'.idle == k.idle && k'.resched
    ensures k'.clk == k.clk && OnlyIn(k'.queues, c, p, false)
  {
    k1 := Steps(ks, es, k0, k, Wake(c), p, Handling(handler, k.clk));
    k' := Steps(ks + [k1], es + [Wake(c)], k0, k1, AlarmDone, p, Roused(handler, k.clk));
  }

  /** Back in the state of before the alarm, which is asleep, with the wakeup gone. */
  lemma GivenBack(handler: nat, due: nat)
    requires 0 < due < NEVER
    ensures var v, t := Finishing(handler, due).(regs := NoRegs()), Waiting(handler, due);
            GivenUp(v) == v && !Eligible(v, due) && Checked(v, due) == t.(timer := Checked(v, due).timer)
    ensures var timer := Checked(Finishing(handler, due).(regs := NoRegs()), due).timer;
            timer.wakeup == NEVER && timer.next == 0 && !timer.active
  {
  }

  lemma Forgets(ks: seq<Kernel>, es: seq<Event>, k0: Kernel, k: Kernel, handler: nat, c: nat, p: Pid)
    returns (k': Kernel)
    requires Path(ks, es, k0, k) && Solo(k, p, Finishing(handler, k.clk)) && k.resched && k.cur == p && p != k.idle
    requires 0 < k.clk < NEVER && OnlyIn(k.queues, c, p, false)
    ensures Path(ks + [k'], es + [Dispatch(NoRegs())], k0, k') && k'.clk == k.clk && Forgotten(k', p)
    ensures Completes(k, k', p)
  {
    GivenBack(handler, k.clk);
    k' := Switches(ks, es, k0, k, p, Finishing(handler, k.clk));
  }

  /** The process arms an alarm for one tick ahead and waits in a queue. */
  function Queueing(handler: nat, c: nat): (es: seq<Event>)
    ensures |es| == 7 && es[5] == Wait(Some(c))
  {
    Opening() + [Alarm(handler, 10, true)] + [Wait(Some(c))] + [Dispatch(NoRegs())]
  }

  lemma Queued(k: Kernel, handler: nat, c: nat) returns (ks: seq<Kernel>, k': Kernel)
    requires Init(k) && k.clk + 2 < NEVER && c in k.queues && k.queues[c].size > 0
    ensures Path(ks, Queueing(handler, c), k, k') && WaitsAt(ks[5], Wait(Some(c)), c, k.lastPid + 1)
    ensures Solo(k', k.lastPid + 1, Waiting(handler, k'.clk + 1)) && k'.cur == k'.idle && k'.clk == k.clk + 1
    ensures OnlyIn(k'.queues, c, k.lastPid + 1, true)
  {
    var p, es, alarm, k1 := k.lastPid + 1, Opening(), [Alarm(handler, 10, true)], k;
    ks, k1 := Opened(k);
    var k2 := Arms(ks, es, k, k1, handler, p);
    var k3 := Waits(ks + [k2], es + alarm, k, k2, handler, c, p);
    k' := Leaves(ks + [k2] + [k3], es + alarm + [Wait(Some(c))], k, k3, handler, p);
    ks := ks + [k2] + [k3] + [k'];
  }

  /** Its alarm fires, the wake comes while its handler runs, and the handler ends. */
  function Losing(handler: nat, c: nat): (es: seq<Event>)
    ensures |es| == 12 && es[5] == Wait(Some(c)) && es[9] == Wake(c)
  {
    Queueing(handler, c) + [Tick] + [Dispatch(NoRegs())] + [Wake(c)] + [AlarmDone] + [Dispatch(NoRegs())]
  }

  /** The five states of such an excursion. */
  ghost predicate LosesIn(k1: Kernel, k2: Kernel, k3: Kernel, k4: Kernel, k5: Kernel, c: nat, p: Pid) {
    && Fires(k1, k2, p) && Rouses(k2, Wake(c), p) && p in k3.tasks && k3.tasks[p].timer.active
    && Completes(k4, k5, p) && Forgotten(k5, p) && k5.clk < NEVER
  }

  lemma Loses(ks: seq<Kernel>, es: seq<Event>, k0: Kernel, k: Kernel, handler: nat, c: nat, p: Pid)
    returns (more: seq<Kernel>)
    requires Path(ks, es, k0, k) && Solo(k, p, Waiting(handler, k.clk + 1)) && k.cur == k.idle && k.clk + 1 < NEVER
    requires OnlyIn(k.queues, c, p, true)
    ensures |more| == 5 && LosesIn(more[0], more[1], more[2], more[3], more[4], c, p)
    ensures IsRun(ks + more, es + [Tick] + [Dispatch(NoRegs())] + [Wake(c)] + [AlarmDone] + [Dispatch(NoRegs())])
  {
    var d := Dispatch(NoRegs());
    var k1, k2 := Interrupted(ks, es, k0, k, handler, p);
    var k3, k4 := WokenInHandler(ks + [k1] + [k2], es + [Tick] + [d], k0, k2, handler, c, p);
    var ks', es' := ks + [k1] + [k2] + [k3] + [k4], es + [Tick] + [d] + [Wake(c)] + [AlarmDone];
    var k5 := Forgets(ks', es', k0, k4, handler, c, p);
    more := [k1, k2, k3, k4, k5];
    assert ks + more == ks' + [k5];
  }

  /** A wakeup can be lost: the process waits in a queue, the wake of that queue comes during an excursion, and then
      the process sleeps on, in no queue and with nothing left that would wake it. */
  lemma LostWakeup(k: Kernel, handler: nat, c: nat) returns (ks: seq<Kernel>)
    requires Init(k) && k.clk + 2 < NEVER && c in k.queues && k.queues[c].size > 0
    ensures IsRun(ks, Losing(handler, c)) && ks[0] == k
    ensures var p := k.lastPid + 1;
            && WaitsAt(ks[5], Wait(Some(c)), c, p) && ExcursionFrom(ks, 8, 11, p)
            && p in ks[9].tasks && Rouses(ks[9], Wake(c), p) && Forgotten(ks[12], p) && ks[12].clk < NEVER
  {
    var p, k' := k.lastPid + 1, k;
    ks, k' := Queued(k, handler, c);
    var more := Loses(ks, Queueing(handler, c), k, k', handler, c, p);
    ks := ks + more;
    assert ks[8] == more[0] && ks[9] == more[1] && ks[10] == more[2] && ks[11] == more[3] && ks[12] == more[4];
  }

  // ---------------------------------------------------------------- a wait that does not wait

  /** Asleep in its handler for one tick, and then the same in other states. */
  function Napping(handler: nat, due: nat, state: State): Task {
    var t := Handling(handler, due);
    t.(regs := NoRegs(), state := state, timer := t.timer.(wakeup := due + 1))
  }

  lemma NapCases(handler: nat, due: nat)
    requires 0 < due
    ensures var t := Napping(handler, due, Sleep); Checked(t, due) == t && !Eligible(t, due)
    ensures Eligible(Napping(handler, due, Run), due + 1)
    ensures Checked(Napping(handler, due, Run), due + 1) == Napping(handler, due, Active)
    ensures Eligible(Napping(handler, due, Sleep), due + 1)
  {
  }

  lemma Naps(ks: seq<Kernel>, es: seq<Event>, k0: Kernel, k: Kernel, handler: nat, p: Pid)
    returns (k1: Kernel, k': Kernel)
    requires Path(ks, es, k0, k) && Solo(k, p, Handling(handler, k.clk)) && k.cur == p && p != k.idle
    requires 0 < k.clk && k.clk + 1 < MODULUS
    ensures Path(ks + [k1] + [k'], es + [SleepFor(1)] + [Dispatch(NoRegs())], k0, k')
    ensures Solo(k', p, Napping(handler, k.clk, Sleep)) && k'.cur == k'.idle == k.idle
    ensures k'.clk == k.clk && k'.queues == k.queues
  {
    NapCases(handler, k.clk);
    k1 := Steps(ks, es, k0, k, SleepFor(1), p, Handling(handler, k.clk));
    k' := Switches(ks + [k1], es + [SleepFor(1)], k0, k1, p, k1.tasks[p]);
  }

  lemma WokenAsleep(ks: seq<Kernel>, es: seq<Event>, k0: Kernel, k: Kernel, handler: nat, c: nat, p: Pid)
    returns (k1: Kernel, k': Kernel)
    requires Path(ks, es, k0, k) && Solo(k, p, Napping(handler, k.clk, Sleep)) && k.cur == k.idle && k.clk + 1 < MODULUS
    requires OnlyIn(k.queues, c, p, true)
    ensures Path(ks + [k1] + [k'], es + [Wake(c)] + [Tick], k0, k')
    ensures Solo(k', p, Napping(handler, k.clk, Run)) && k'.cur == k'.idle == k.idle && k'.resched
    ensures k'.clk == k.clk + 1 && OnlyIn(k'.queues, c, p, false)
  {
    k1 := Steps(ks, es, k0, k, Wake(c), p, Napping(handler, k.clk, Sleep));
    k' := Steps(ks + [k1], es + [Wake(c)], k0, k1, Tick, p, Napping(handler, k.clk, Run));
  }

  lemma WaitsInVain(ks: seq<Kernel>, es: seq<Event>, k0: Kernel, k: Kernel, handler: nat, c: nat, p: Pid)
    returns (k1: Kernel, k2: Kernel, k': Kernel)
    requires Path(ks, es, k0, k) && k.clk > 1 && Solo(k, p, Napping(handler, k.clk - 1, Run)) && k.resched
    requires k.cur == k.idle && OnlyIn(k.queues, c, p, false)
    ensures WaitsAt(k1, Wait(Some(c)), c, p)
    ensures Path(ks + [k1] + [k2] + [k'],
                 es + [Dispatch(NoRegs())] + [Wait(Some(c))] + [Dispatch(NoRegs())], k0, k')
    ensures k'.cur == p && OnlyIn(k'.queues, c, p, true)
  {
    var due: nat := k.clk - 1;
    NapCases(handler, due);
    k1 := Switches(ks, es, k0, k, p, Napping(handler, due, Run));
    var ks', es' := ks + [k1], es + [Dispatch(NoRegs())];
    k2 := Steps(ks', es', k0, k1, Wait(Some(c)), p, Napping(handler, due, Active));
    k' := Switches(ks' + [k2], es' + [Wait(Some(c))], k0, k2, p, Napping(handler, due, Sleep));
  }

  /** In the handler of its alarm the process sleeps for a tick, is woken from the queue it waited in, and waits in
      that queue again. */
  function Vain(handler: nat, c: nat): (es: seq<Event>)
    ensures |es| == 16 && es[14] == Wait(Some(c)) && es[15].Dispatch?
  {
    Queueing(handler, c) + [Tick] + [Dispatch(NoRegs())] + [SleepFor(1)] + [Dispatch(NoRegs())] + [Wake(c)] + [Tick]
    + [Dispatch(NoRegs())] + [Wait(Some(c))] + [Dispatch(NoRegs())]
  }

  /** A wait can end without a wake: the wakeup time of a sleep cut short is still there. */
  lemma WaitInVain(k: Kernel, handler: nat, c: nat) returns (ks: seq<Kernel>)
    requires Init(k) && k.clk + 3 < NEVER && c in k.queues && k.queues[c].size > 0
    ensures IsRun(ks, Vain(handler, c)) && ks[0] == k
    ensures var p := k.lastPid + 1;
            && WaitsAt(ks[14], Wait(Some(c)), c, p) && RunsAt(ks, Vain(handler, c), p, 15)
            && c in ks[16].queues && p in ks[16].queues[c].waiting
  {
    var p, d, es, k1 := k.lastPid + 1, Dispatch(NoRegs()), Queueing(handler, c), k;
    ks, k1 := Queued(k, handler, c);
    var k2, k3 := Interrupted(ks, es, k, k1, handler, p);
    var k4, k5 := Naps(ks + [k2] + [k3], es + [Tick] + [d], k, k3, handler, p);
    var ks1, es1 := ks + [k2] + [k3] + [k4] + [k5], es + [Tick] + [d] + [SleepFor(1)] + [d];
    var k6, k7 := WokenAsleep(ks1, es1, k, k5, handler, c, p);
    var k8, k9, k10 := WaitsInVain(ks1 + [k6] + [k7], es1 + [Wake(c)] + [Tick], k, k7, handler, c, p);
    ks := ks1 + [k6] + [k7] + [k8] + [k9] + [k10];
  }

  // ---------------------------------------------------------------- a sleep across the wrap of the clock

  /** A started process asleep until then. */
  function Sleeper(wakeup: nat): Task {
    var t := Started();
    t.(state := Sleep, timer := t.timer.(wakeup := wakeup))
  }

  /** The process sleeps for a tick, and ticks go by. */
  function Oversleeping(): (es: seq<Event>)
    ensures |es| == 9
  {
    Opening() + [SleepFor(1)] + [Dispatch(NoRegs())] + [Tick] + [Tick] + [Tick]
  }

  lemma FallsAsleep(ks: seq<Kernel>, es: seq<Event>, k0: Kernel, k: Kernel, p: Pid) returns (k1: Kernel, k': Kernel)
    requires Path(ks, es, k0, k) && Solo(k, p, Started()) && k.cur == p && p != k.idle && k.clk + 1 < MODULUS
    ensures Path(ks + [k1] + [k'], es + [SleepFor(1)] + [Dispatch(NoRegs())], k0, k')
    ensures Solo(k', p, Sleeper(k.clk + 1)) && k'.cur == k'.idle && k'.clk == k.clk
  {
    k1 := Steps(ks, es, k0, k, SleepFor(1), p, Started());
    k' := Switches(ks + [k1], es + [SleepFor(1)], k0, k1, p, Sleeper(k.clk + 1));
  }

  ghost predicate ReadyIn(k: Kernel, p: Pid) { Valid(k) && Ready(k, p) }

  lemma SleeperReady(k: Kernel, p: Pid, wakeup: nat)
    requires Solo(k, p, Sleeper(wakeup))
    ensures ReadyIn(k, p) <==> k.clk >= wakeup
  {
  }

  lemma SleepsOn(ks: seq<Kernel>, es: seq<Event>, k0: Kernel, k: Kernel, p: Pid, wakeup: nat) returns (k': Kernel)
    requires Path(ks, es, k0, k) && Solo(k, p, Sleeper(wakeup)) && k.cur == k.idle
    ensures Path(ks + [k'], es + [Tick], k0, k') && Solo(k', p, Sleeper(wakeup)) && k'.cur == k'.idle
    ensures k'.clk == Wrap(k.clk + 1) && (ReadyIn(k', p) <==> k'.clk >= wakeup)
  {
    k' := Steps(ks, es, k0, k, Tick, p, Sleeper(wakeup));
    SleeperReady(k', p, wakeup);
  }

  lemma Oversleeps(ks: seq<Kernel>, es: seq<Event>, k0: Kernel, k: Kernel, p: Pid)
    returns (k1: Kernel, k2: Kernel, k3: Kernel)
    requires Path(ks, es, k0, k) && Solo(k, p, Sleeper(MODULUS - 2)) && k.cur == k.idle && k.clk == MODULUS - 3
    ensures Path(ks + [k1] + [k2] + [k3], es + [Tick] + [Tick] + [Tick], k0, k3)
    ensures ReadyIn(k1, p) && ReadyIn(k2, p) && Valid(k3) && !ReadyIn(k3, p) && k3.clk == 0
  {
    k1 := SleepsOn(ks, es, k0, k, p, MODULUS - 2);
    k2 := SleepsOn(ks + [k1], es + [Tick], k0, k1, p, MODULUS - 2);
    k3 := SleepsOn(ks + [k1] + [k2], es + [Tick] + [Tick], k0, k2, p, MODULUS - 2);
  }

  /** An expired sleep can be missed: the process is ready for two clock ticks, and with the clock back at zero it is
      not ready any more. */
  lemma SleepMissed(k: Kernel) returns (ks: seq<Kernel>)
    requires Init(k) && k.clk == MODULUS - 4
    ensures IsRun(ks, Oversleeping()) && ks[0] == k
    ensures var p := k.lastPid + 1;
            ReadyIn(ks[7], p) && ReadyIn(ks[8], p) && Valid(ks[9]) && !ReadyIn(ks[9], p) && ks[9].clk == 0
  {
    var p, es, k1 := k.lastPid + 1, Opening(), k;
    ks, k1 := Opened(k);
    var k2, k3 := FallsAsleep(ks, es, k, k1, p);
    var ks1, es1 := ks + [k2] + [k3], es + [SleepFor(1)] + [Dispatch(NoRegs())];
    var k4, k5, k6 := Oversleeps(ks1, es1, k, k3, p);
    ks := ks1 + [k4] + [k5] + [k6];
  }
}
