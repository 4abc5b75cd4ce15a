/** Alarms, sleeping, events and wait queues over whole runs of the scheduler. */
module SchedAlarms {
  import opened Machine
  import opened Sched
  import opened SchedTheorems
  import opened SchedSteps

  // ---------------------------------------------------------------- alarm excursions

  /** The alarm of p fires between the two states. */
  predicate Fires(k: Kernel, k': Kernel, p: Pid) {
    p in k.ring && p in k.tasks && p in k'.tasks && !k.tasks[p].timer.active && k'.tasks[p].timer.active
  }

  /** The completion of p's handler is dealt with between the two states. */
  predicate Completes(k: Kernel, k': Kernel, p: Pid) {
    p in k.ring && p in k.tasks && p in k'.tasks && k.tasks[p].timer.active && !k'.tasks[p].timer.active
  }

  /** t is v at the start of an excursion: active and on its way into the handler through the trampoline, with v's
      registers, state and wakeup time held, and everything else as it was. */
  predicate Begun(v: Task, t: Task, clk: nat) {
    && t.state == Active
    && t.backup == v.regs && t.timer.lastState == v.state && t.timer.lastWakeup == v.timer.wakeup
    && t.regs[1] == TRAMPOLINE && t.regs[16] == TRAMPOLINE && t.regs[2] == v.timer.handler
    && (forall r :: 0 <= r < 17 && r != 1 && r != 2 && r != 16 ==> t.regs[r] == v.regs[r])
    && t.timer.next == (if v.timer.oneshot then 0 else Wrap(clk + v.timer.period))
    && t.timer.period == v.timer.period && t.timer.handler == v.timer.handler && t.timer.oneshot == v.timer.oneshot
    && t.timer.wakeup == v.timer.wakeup && t.mask == v.mask && !t.timer.done
  }

  lemma FiringEffect(k: Kernel, e: Event, p: Pid, t: Task, next: Pid)
    requires p in k.tasks && Effect(k, e, p, t, next) && !k.tasks[p].timer.active && t.timer.active
    ensures e.Dispatch? && next == p && Due(Seen(k, e, p), k.clk) && Begun(Seen(k, e, p), t, k.clk)
  {
  }

  /** An alarm fires only in a dispatch that switches to its task, only when due and never inside an excursion. */
  lemma Firing(k: Kernel, e: Event, p: Pid)
    requires Valid(k) && Safe(k) && Enabled(k, e) && Fires(k, Next(k, e), p)
    ensures e.Dispatch? && Next(k, e).cur == p && Due(Seen(k, e, p), k.clk)
    ensures Begun(Seen(k, e, p), Next(k, e).tasks[p], k.clk)
  {
    StepEffect(k, e, p);
    FiringEffect(k, e, p, Next(k, e).tasks[p], Next(k, e).cur);
  }

  /** A task held in this state and with this wakeup time may run at the end of its excursion. */
  predicate MayRun(state: State, wakeup: nat, clk: nat) { state == Run || (state == Sleep && clk >= wakeup) }

  /** t is v after its excursion, chosen to run or not: what v held is back, an expired sleep is over, and nothing else
      is changed. */
  predicate Ended(v: Task, t: Task, clk: nat, chosen: bool) {
    var state, wakeup := v.timer.lastState, v.timer.lastWakeup;
    && t.regs == v.backup
    && (chosen <==> MayRun(state, wakeup, clk))
    && t.state == (if chosen then Active else state)
    && t.timer.wakeup == (if state == Sleep && clk >= wakeup then 0xFFFF_FFFF else wakeup)
    && t == v.(regs := t.regs, state := t.state, timer := v.timer.(active := false, wakeup := t.timer.wakeup))
  }

  lemma CompletionEffect(k: Kernel, e: Event, p: Pid, t: Task, next: Pid)
    requires p in k.tasks && Effect(k, e, p, t, next) && k.tasks[p].timer.active && !t.timer.active
    ensures e.Dispatch? && Finished(Seen(k, e, p)) && Ended(Seen(k, e, p), t, k.clk, next == p)
  {
  }

  /** A completion is dealt with only in a dispatch and only once the handler is done; the task then gets back what
      was held, and is switched to exactly if that lets it run. */
  lemma Completion(k: Kernel, e: Event, p: Pid)
    requires Valid(k) && Safe(k) && Enabled(k, e) && Completes(k, Next(k, e), p)
    ensures e.Dispatch? && Finished(Seen(k, e, p))
    ensures Ended(Seen(k, e, p), Next(k, e).tasks[p], k.clk, Next(k, e).cur == p)
  {
    StepEffect(k, e, p);
    CompletionEffect(k, e, p, Next(k, e).tasks[p], Next(k, e).cur);
  }

  /** What an excursion holds for its end. */
  predicate SameHeld(t: Task, u: Task) {
    t.backup == u.backup && t.timer.lastState == u.timer.lastState && t.timer.lastWakeup == u.timer.lastWakeup
  }

  lemma HeldEffect(k: Kernel, e: Event, p: Pid, t: Task, next: Pid)
    requires p in k.tasks && Effect(k, e, p, t, next) && k.tasks[p].timer.active && t.timer.active
    ensures SameHeld(t, k.tasks[p])
  {
  }

  /** The alarm is running in every state after step i up to state j. */
  predicate Running(ks: seq<Kernel>, p: Pid, i: nat, j: nat)
    requires j < |ks|
  {
    forall m :: i < m <= j ==> p in ks[m].tasks && ks[m].tasks[p].timer.active
  }

  /** During an excursion no step, of any task, changes what is held. */
  lemma {:induction false} HeldThroughout(ks: seq<Kernel>, es: seq<Event>, i: nat, j: nat, p: Pid)
    requires IsRun(ks, es) && i < j <= |es|
    requires p in ks[i + 1].ring && Running(ks, p, i, j)
    ensures p in ks[i + 1].tasks && p in ks[j].ring && p in ks[j].tasks && SameHeld(ks[j].tasks[p], ks[i + 1].tasks[p])
    decreases j
  {
    if i + 1 < j {
      HeldThroughout(ks, es, i, j - 1, p);
      EffectAt(ks, es, j - 1, p);
      HeldEffect(ks[j - 1], es[j - 1], p, ks[j].tasks[p], ks[j].cur);
    }
  }

  lemma FiresAt(ks: seq<Kernel>, es: seq<Event>, i: nat, p: Pid)
    requires IsRun(ks, es) && i < |es| && Fires(ks[i], ks[i + 1], p)
    ensures es[i].Dispatch? && ks[i + 1].cur == p && Due(Seen(ks[i], es[i], p), ks[i].clk)
    ensures p in ks[i + 1].ring && Begun(Seen(ks[i], es[i], p), ks[i + 1].tasks[p], ks[i].clk)
  {
    EffectAt(ks, es, i, p);
    FiringEffect(ks[i], es[i], p, ks[i + 1].tasks[p], ks[i + 1].cur);
  }

  lemma CompletesAt(ks: seq<Kernel>, es: seq<Event>, j: nat, p: Pid)
    requires IsRun(ks, es) && j < |es| && Completes(ks[j], ks[j + 1], p)
    ensures es[j].Dispatch? && Ended(Seen(ks[j], es[j], p), ks[j + 1].tasks[p], ks[j].clk, ks[j + 1].cur == p)
  {
    EffectAt(ks, es, j, p);
    CompletionEffect(ks[j], es[j], p, ks[j + 1].tasks[p], ks[j + 1].cur);
  }

  /** An excursion of p, from the step at which its alarm fires to the step that deals with its completion. */
  predicate ExcursionFrom(ks: seq<Kernel>, i: nat, j: nat, p: Pid) {
    && i < j && j + 1 < |ks|
    && Fires(ks[i], ks[i + 1], p) && Running(ks, p, i, j) && Completes(ks[j], ks[j + 1], p)
  }

  /** Excursions are transparent: whatever happens between the firing at step i and the completion at step j, the task
      resumes with the registers it had when the alarm fired, and in the state it had then, or running if that state
      lets it run: if it was on the run queue, or asleep and its wakeup time has come. */
  lemma ExcursionTransparent(ks: seq<Kernel>, es: seq<Event>, i: nat, j: nat, p: Pid)
    requires IsRun(ks, es) && ExcursionFrom(ks, i, j, p)
    ensures var before, after, clk := Seen(ks[i], es[i], p), ks[j + 1].tasks[p], ks[j].clk;
            && after.regs == before.regs
            && (ks[j + 1].cur == p <==> MayRun(before.state, before.timer.wakeup, clk))
            && after.state == (if ks[j + 1].cur == p then Active else before.state)
            && after.timer.wakeup ==
                 (if before.state == Sleep && clk >= before.timer.wakeup then 0xFFFF_FFFF else before.timer.wakeup)
  {
    FiresAt(ks, es, i, p);
    HeldThroughout(ks, es, i, j, p);
    CompletesAt(ks, es, j, p);
    assert SameHeld(Seen(ks[j], es[j], p), ks[j].tasks[p]);
  }

  /** So a wakeup during an excursion, which does put the task on the run queue, outlasts the excursion exactly if the
      task could have run without it: if it was on the run queue when its alarm fired, or its sleep is over. */
  lemma WakeDuringExcursion(ks: seq<Kernel>, es: seq<Event>, i: nat, w: nat, j: nat, p: Pid)
    requires IsRun(ks, es) && ExcursionFrom(ks, i, j, p) && i < w < j
    requires p in ks[w].tasks && Rouses(ks[w], es[w], p)
    ensures p in ks[w + 1].tasks && ks[w + 1].tasks[p].state == Run
    ensures var before := Seen(ks[i], es[i], p);
            ks[j + 1].tasks[p].state == Run || ks[j + 1].tasks[p].state == Active
            <==> MayRun(before.state, before.timer.wakeup, ks[j].clk)
  {
    FiresAt(ks, es, i, p);
    HeldThroughout(ks, es, i, w, p);
    EffectAt(ks, es, w, p);
    ExcursionTransparent(ks, es, i, j, p);
    At(ks, es, i);
    HeldNotActive(ks[i], es[i], p);
  }

  lemma HeldNotActive(k: Kernel, e: Event, p: Pid)
    requires Valid(k) && Safe(k) && Enabled(k, e) && e.Dispatch? && p in k.ring
    ensures Seen(k, e, p).state != Active
  {
  }

  // ---------------------------------------------------------------- context switches

  /** The alarm of p fires or completes at step m. */
  predicate Excursion(ks: seq<Kernel>, p: Pid, m: nat) {
    m + 1 < |ks| && (Fires(ks[m], ks[m + 1], p) || Completes(ks[m], ks[m + 1], p))
  }

  /** The registers of p are saved at step m. */
  predicate SavesAt(ks: seq<Kernel>, es: seq<Event>, p: Pid, m: nat) {
    m < |es| && m < |ks| && es[m].Dispatch? && ks[m].cur == p
  }

  lemma RegsEffect(k: Kernel, e: Event, p: Pid, t: Task, next: Pid)
    requires p in k.tasks && Effect(k, e, p, t, next) && t.timer.active == k.tasks[p].timer.active
    ensures t.regs == Seen(k, e, p).regs
  {
  }

  /** At a step that is no excursion of its own, only the saving changes a task's registers, the idle task included. */
  lemma RegsAt(ks: seq<Kernel>, es: seq<Event>, i: nat, p: Pid)
    requires IsRun(ks, es) && i < |es| && p in ks[i].tasks && !Excursion(ks, p, i)
    ensures p in ks[i + 1].tasks && ks[i + 1].tasks[p].regs == Seen(ks[i], es[i], p).regs
    ensures p in ks[i].ring ==> p in ks[i + 1].ring
  {
    At(ks, es, i);
    if p in ks[i].ring {
      EffectAt(ks, es, i, p);
      RegsEffect(ks[i], es[i], p, ks[i + 1].tasks[p], ks[i + 1].cur);
    } else {
      IdleEffectAt(ks, es, i);
    }
  }

  /** A switch away is transparent: however long the process, or the idle task, is off the processor, its registers
      stay as they were saved, unless its own alarm enters or leaves a handler. */
  lemma {:induction false} ContextKept(ks: seq<Kernel>, es: seq<Event>, i: nat, j: nat, p: Pid)
    requires IsRun(ks, es) && i < j <= |es| && p in ks[i].tasks && SavesAt(ks, es, p, i)
    requires forall m :: i <= m < j ==> !Excursion(ks, p, m)
    requires forall m :: i < m < j ==> !SavesAt(ks, es, p, m)
    ensures p in ks[j].tasks && ks[j].tasks[p].regs == es[i].saved && (p in ks[i].ring ==> p in ks[j].ring)
    decreases j
  {
    if i + 1 < j {
      ContextKept(ks, es, i, j - 1, p);
      assert !SavesAt(ks, es, p, j - 1);
    }
    assert !Excursion(ks, p, j - 1);
    RegsAt(ks, es, j - 1, p);
  }

  // ---------------------------------------------------------------- when alarms fire

  /** p arms its alarm at step m. */
  predicate ArmsAt(ks: seq<Kernel>, es: seq<Event>, p: Pid, m: nat) {
    m < |es| && m < |ks| && es[m].Alarm? && ks[m].cur == p
  }

  predicate FiresStep(ks: seq<Kernel>, p: Pid, m: nat) {
    m + 1 < |ks| && Fires(ks[m], ks[m + 1], p)
  }

  /** What arming an alarm sets. */
  predicate SameArming(t: Task, u: Task) {
    && t.timer.next == u.timer.next && t.timer.period == u.timer.period
    && t.timer.handler == u.timer.handler && t.timer.oneshot == u.timer.oneshot
  }

  /** The arming changes only by firing and arming anew. */
  lemma NextEffect(k: Kernel, e: Event, p: Pid, t: Task, next: Pid)
    requires p in k.tasks && Effect(k, e, p, t, next) && !(e.Alarm? && k.cur == p)
    requires !k.tasks[p].timer.active ==> !t.timer.active
    ensures SameArming(t, k.tasks[p])
  {
  }

  /** With no firing and no arming after step i, the arming stands. */
  lemma {:induction false} NextStands(ks: seq<Kernel>, es: seq<Event>, i: nat, j: nat, p: Pid)
    requires IsRun(ks, es) && i < j <= |es| && p in ks[i + 1].ring && p in ks[i + 1].tasks
    requires forall m :: i < m < j ==> !ArmsAt(ks, es, p, m) && !FiresStep(ks, p, m)
    ensures p in ks[j].ring && p in ks[j].tasks && SameArming(ks[j].tasks[p], ks[i + 1].tasks[p])
    decreases j
  {
    if i + 1 < j {
      NextStands(ks, es, i, j - 1, p);
      EffectAt(ks, es, j - 1, p);
      assert !ArmsAt(ks, es, p, j - 1) && !FiresStep(ks, p, j - 1);
      NextEffect(ks[j - 1], es[j - 1], p, ks[j].tasks[p], ks[j].cur);
    }
  }

  /** Two consecutive firings of p. */
  predicate Consecutive(ks: seq<Kernel>, i: nat, j: nat, p: Pid) {
    && i < j && j + 1 < |ks| && Fires(ks[i], ks[i + 1], p) && Fires(ks[j], ks[j + 1], p)
    && forall m :: i < m < j ==> !FiresStep(ks, p, m)
  }

  lemma SecondFiringDue(ks: seq<Kernel>, es: seq<Event>, i: nat, j: nat, p: Pid)
    requires IsRun(ks, es) && Consecutive(ks, i, j, p) && forall m :: i < m < j ==> !ArmsAt(ks, es, p, m)
    ensures var timer := ks[i].tasks[p].timer;
            !timer.oneshot && Wrap(ks[i].clk + timer.period) > 0 && ks[j].clk >= Wrap(ks[i].clk + timer.period)
  {
    FiresAt(ks, es, i, p);
    NextStands(ks, es, i, j, p);
    FiresAt(ks, es, j, p);
  }

  /** What sys_alarm leaves in the task that calls it. */
  lemma ArmedAt(ks: seq<Kernel>, es: seq<Event>, i: nat, p: Pid)
    requires IsRun(ks, es) && i < |es| && ArmsAt(ks, es, p, i)
    ensures p in ks[i + 1].ring && p in ks[i + 1].tasks
    ensures var timer := ks[i + 1].tasks[p].timer;
            && timer.handler == es[i].handler && timer.oneshot == es[i].oneshot && timer.period == Wrap(es[i].msec) / 10
            && timer.next == Wrap(ks[i].clk + Wrap(es[i].msec) / 10)
  {
    At(ks, es, i);
  }

  /** The first firing after an alarm is armed runs the handler that was passed, and not before the
      milliseconds passed have gone by at ten to a tick, unless the due time does not fit 32 bits. */
  lemma FirstFiring(ks: seq<Kernel>, es: seq<Event>, i: nat, j: nat, p: Pid)
    requires IsRun(ks, es) && i < j < |es| && ArmsAt(ks, es, p, i) && Fires(ks[j], ks[j + 1], p)
    requires forall m :: i < m < j ==> !ArmsAt(ks, es, p, m) && !FiresStep(ks, p, m)
    ensures ks[j + 1].tasks[p].regs[2] == es[i].handler
    ensures ks[j].clk >= Wrap(ks[i].clk + Wrap(es[i].msec) / 10)
    ensures es[i].oneshot ==> ks[j + 1].tasks[p].timer.next == 0
  {
    ArmedAt(ks, es, i, p);
    NextStands(ks, es, i, j, p);
    FiresAt(ks, es, j, p);
  }

  /** A one-shot alarm fires at most once for each time it is armed. */
  lemma OneShotOnce(ks: seq<Kernel>, es: seq<Event>, i: nat, j: nat, p: Pid)
    requires IsRun(ks, es) && Consecutive(ks, i, j, p) && ks[i].tasks[p].timer.oneshot
    ensures exists m :: i < m < j && ArmsAt(ks, es, p, m)
  {
    if forall m :: i < m < j ==> !ArmsAt(ks, es, p, m) {
      SecondFiringDue(ks, es, i, j, p);
    }
  }

  /** Firings of a periodic alarm that is not armed anew are at least a period apart, unless the
      next due time does not fit 32 bits. */
  lemma PeriodicApart(ks: seq<Kernel>, es: seq<Event>, i: nat, j: nat, p: Pid)
    requires IsRun(ks, es) && Consecutive(ks, i, j, p) && forall m :: i < m < j ==> !ArmsAt(ks, es, p, m)
    requires ks[i].clk + ks[i].tasks[p].timer.period < MODULUS
    ensures ks[j].clk - ks[i].clk >= ks[i].tasks[p].timer.period
  {
    SecondFiringDue(ks, es, i, j, p);
  }

  /** With due time next, an alarm would not fire at clock c. */
  predicate QuietAt(next: nat, c: nat) { next == 0 || c < next }

  /** Exactly when the due time set at a firing keeps the alarm quiet for a whole period: the condition
      under which the sum fits 32 bits, or wraps to the value that means no alarm. */
  lemma QuietPeriodExactly(t: Task, clk: nat)
    requires clk < MODULUS && 0 < t.timer.period < MODULUS && !t.timer.oneshot
    ensures (forall c :: clk <= c < clk + t.timer.period && c < MODULUS ==> QuietAt(Fire(t, clk).timer.next, c))
       <==> clk + t.timer.period <= MODULUS
  {
    var next := Fire(t, clk).timer.next;
    if clk + t.timer.period > MODULUS {
      assert next == clk + t.timer.period - MODULUS;
      assert !QuietAt(next, clk);
    } else if clk + t.timer.period == MODULUS {
      assert next == 0;
    }
  }

  // ---------------------------------------------------------------- sleeping

  /** The wakeup time that sys_sleep sets keeps a task without an alarm ineligible for the whole period exactly when it
      fits 32 bits; otherwise the task is eligible again at once. When the clock shows that time it is eligible. */
  lemma SleepsExactly(k: Kernel, period: nat)
    requires k.cur in k.tasks && k.clk < MODULUS && 0 < period < MODULUS
    requires k.tasks[k.cur].timer.next == 0 && !k.tasks[k.cur].timer.active
    ensures var t := SysSleep(k, period).tasks[k.cur];
            && Eligible(t, Wrap(k.clk + period))
            && ((forall c :: k.clk <= c < k.clk + period && c < MODULUS ==> !Eligible(t, c))
                <==> k.clk + period < MODULUS)
  {
    var t := SysSleep(k, period).tasks[k.cur];
    if k.clk + period >= MODULUS {
      assert t.timer.wakeup == k.clk + period - MODULUS;
      assert Eligible(t, k.clk);
    }
  }

  /** Something disturbs the sleep of p at step m: a wake, an event, its alarm, or a call of its own. */
  predicate Disturbs(ks: seq<Kernel>, es: seq<Event>, p: Pid, m: nat) {
    && m < |es| && m + 1 < |ks| && p in ks[m].tasks && p in ks[m + 1].tasks
    && (Rouses(ks[m], es[m], p) || Excursion(ks, p, m) || (ByCur(es[m]) && ks[m].cur == p))
  }

  /** p is asleep until wakeup. */
  predicate AsleepUntil(k: Kernel, p: Pid, wakeup: nat) {
    p in k.ring && p in k.tasks && k.tasks[p].state == Sleep && k.tasks[p].timer.wakeup == wakeup
  }

  lemma SleepEffect(k: Kernel, e: Event, p: Pid, t: Task, next: Pid)
    requires p in k.tasks && Effect(k, e, p, t, next) && k.tasks[p].state == Sleep
    requires !Rouses(k, e, p) && !(ByCur(e) && k.cur == p) && t.timer.active == k.tasks[p].timer.active
    ensures if e.Dispatch? && next == p then k.clk >= k.tasks[p].timer.wakeup
            else t.state == Sleep && t.timer.wakeup == k.tasks[p].timer.wakeup
  {
  }

  /** A task asleep stays asleep, with its wakeup time, until it is switched to or disturbed. */
  lemma {:induction false} StaysAsleep(ks: seq<Kernel>, es: seq<Event>, i: nat, j: nat, p: Pid, wakeup: nat)
    requires IsRun(ks, es) && i <= j <= |es| && AsleepUntil(ks[i], p, wakeup)
    requires forall m :: i <= m < j ==> !Disturbs(ks, es, p, m) && !RunsAt(ks, es, p, m)
    ensures AsleepUntil(ks[j], p, wakeup)
    decreases j
  {
    if i < j {
      StaysAsleep(ks, es, i, j - 1, p, wakeup);
      EffectAt(ks, es, j - 1, p);
      assert !Disturbs(ks, es, p, j - 1) && !RunsAt(ks, es, p, j - 1);
      SleepEffect(ks[j - 1], es[j - 1], p, ks[j].tasks[p], ks[j].cur);
    }
  }

  /** A sleeper is not switched to before its time: if the first switch to it after its sys_sleep comes before any
      wake, event, alarm or call of its own, the clock has then reached the wakeup time. */
  lemma NotBeforeItsTime(ks: seq<Kernel>, es: seq<Event>, i: nat, j: nat, p: Pid)
    requires IsRun(ks, es) && i < j < |es| && es[i].SleepFor? && ks[i].cur == p && RunsAt(ks, es, p, j)
    requires forall m :: i < m < j ==> !Disturbs(ks, es, p, m) && !RunsAt(ks, es, p, m)
    requires !Disturbs(ks, es, p, j)
    ensures ks[j].clk >= Wrap(ks[i].clk + es[i].period)
  {
    At(ks, es, i);
    EffectAt(ks, es, i, p);
    StaysAsleep(ks, es, i + 1, j, p, Wrap(ks[i].clk + es[i].period));
    EffectAt(ks, es, j, p);
    SleepEffect(ks[j], es[j], p, ks[j + 1].tasks[p], ks[j + 1].cur);
  }

  /** t is v after a dispatch in which no excursion of it begins or ends: switched to, its sleep over, or left alone. */
  predicate Plainly(v: Task, t: Task, clk: nat, chosen: bool) {
    if chosen then
      && MayRun(v.state, v.timer.wakeup, clk)
      && t == v.(state := Active,
                 timer := v.timer.(wakeup := if v.state == Sleep then 0xFFFF_FFFF else v.timer.wakeup))
    else t == v
  }

  lemma PlainEffect(k: Kernel, e: Event, p: Pid, t: Task, next: Pid)
    requires p in k.tasks && e.Dispatch? && Effect(k, e, p, t, next) && t.timer.active == k.tasks[p].timer.active
    ensures Plainly(Seen(k, e, p), t, k.clk, next == p)
  {
  }

  /** Outside excursions a dispatch changes the record of the process it switches to and no other; that one becomes
      active, and if it slept, its sleep has expired and the wakeup time is spent. */
  lemma PlainDispatch(ks: seq<Kernel>, es: seq<Event>, i: nat, p: Pid)
    requires IsRun(ks, es) && i < |es| && p in ks[i].ring && es[i].Dispatch? && !Excursion(ks, p, i)
    ensures p in ks[i].tasks && p in ks[i + 1].tasks
    ensures Plainly(Seen(ks[i], es[i], p), ks[i + 1].tasks[p], ks[i].clk, ks[i + 1].cur == p)
  {
    EffectAt(ks, es, i, p);
    PlainEffect(ks[i], es[i], p, ks[i + 1].tasks[p], ks[i + 1].cur);
  }

  // ---------------------------------------------------------------- events

  /** sys_event_set: every other task that waits for one of the events becomes runnable and stops waiting for
      those, all else stays; and a dispatch is requested if there was such a task. */
  lemma EventSetExactly(k: Kernel, bits: set<nat>, p: Pid)
    requires Valid(k) && k.cur != k.idle && p in k.tasks && (forall q :: q in Others(k) ==> q in k.tasks)
    ensures var k' := SysEventSet(k, bits);
            && p in k'.tasks
            && k'.tasks[p] == (if p in k.ring && p != k.cur && k.tasks[p].mask * bits != {}
                               then k.tasks[p].(state := Run, mask := k.tasks[p].mask - bits) else k.tasks[p])
            && (p in k.ring && p != k.cur && k.tasks[p].mask * bits != {} && k.enabled ==> k'.resched)
  {
    OthersMembers(k);
    EventSetTask(k, bits, p);
  }

  /** Step e takes event x away from p: another task sets it, or p is killed. */
  predicate Clears(k: Kernel, e: Event, p: Pid, x: nat) {
    (e.EventSet? && k.cur != p && x in e.bits) || (e.Fault? && k.cur == p)
  }

  lemma MaskEffect(k: Kernel, e: Event, p: Pid, t: Task, next: Pid, x: nat)
    requires p in k.tasks && Effect(k, e, p, t, next) && x in k.tasks[p].mask && !Clears(k, e, p, x)
    ensures x in t.mask
  {
  }

  predicate ClearsAt(ks: seq<Kernel>, es: seq<Event>, p: Pid, x: nat, m: nat) {
    m < |es| && m < |ks| && Clears(ks[m], es[m], p, x)
  }

  lemma {:induction false} StillWaitsFor(ks: seq<Kernel>, es: seq<Event>, i: nat, j: nat, p: Pid, x: nat)
    requires IsRun(ks, es) && i < j <= |es| && es[i].EventWait? && ks[i].cur == p && x in es[i].bits
    requires forall m :: i < m < j ==> !ClearsAt(ks, es, p, x, m)
    ensures p in ks[j].ring && p in ks[j].tasks && x in ks[j].tasks[p].mask
    decreases j
  {
    if i + 1 == j {
      At(ks, es, i);
    } else {
      StillWaitsFor(ks, es, i, j - 1, p, x);
      EffectAt(ks, es, j - 1, p);
      assert !ClearsAt(ks, es, p, x, j - 1);
      MaskEffect(ks[j - 1], es[j - 1], p, ks[j].tasks[p], ks[j].cur, x);
    }
  }

  /** An event waited for is delivered: the first time after the wait that another task sets it, however
      late, the waiting task becomes runnable and no longer waits for it. */
  lemma EventDelivered(ks: seq<Kernel>, es: seq<Event>, i: nat, j: nat, p: Pid, x: nat)
    requires IsRun(ks, es) && i < j < |es| && es[i].EventWait? && ks[i].cur == p && x in es[i].bits
    requires es[j].EventSet? && ks[j].cur != p && x in es[j].bits
    requires forall m :: i < m < j ==> !ClearsAt(ks, es, p, x, m)
    ensures p in ks[j + 1].tasks && ks[j + 1].tasks[p].state == Run && x !in ks[j + 1].tasks[p].mask
  {
    StillWaitsFor(ks, es, i, j, p, x);
    EffectAt(ks, es, j, p);
    assert x in ks[j].tasks[p].mask * es[j].bits;
  }

  // ---------------------------------------------------------------- wait queues

  ghost predicate WaitsAt(k: Kernel, e: Event, c: nat, p: Pid) {
    c in k.queues && e == Wait(Some(c)) && k.cur == p && CanWait(k, Some(c))
  }

  lemma StillQueued(k: Kernel, e: Event, c: nat, p: Pid)
    requires Valid(k) && Enabled(k, e) && c in k.queues && p in k.queues[c].waiting && e != Wake(c)
    ensures c in Next(k, e).queues && p in Next(k, e).queues[c].waiting
  {
    if e.EventSet? {
      OthersInRing(k);
    }
  }

  lemma {:induction false} QueuedUntilWoken(ks: seq<Kernel>, es: seq<Event>, i: nat, j: nat, c: nat, p: Pid)
    requires IsRun(ks, es) && i < j < |ks| && WaitsAt(ks[i], es[i], c, p)
    requires forall m :: i < m < j ==> es[m] != Wake(c)
    ensures c in ks[j].queues && p in ks[j].queues[c].waiting
    decreases j
  {
    if i + 1 == j {
      At(ks, es, i);
    } else {
      QueuedUntilWoken(ks, es, i, j - 1, c, p);
      At(ks, es, j - 1);
      StillQueued(ks[j - 1], es[j - 1], c, p);
    }
  }

  lemma Woken(k: Kernel, c: nat, p: Pid)
    requires Valid(k) && c in k.queues && p in k.queues[c].waiting
    ensures var k' := SysWake(k, c); p in k'.tasks && k'.tasks[p].state == Run && k'.queues[c].waiting == []
  {
  }

  /** A task that sys_wait accepts is put on the run queue by the first wake that follows, however
      long that takes; and that wake leaves the queue empty. */
  lemma WaitThenWake(ks: seq<Kernel>, es: seq<Event>, i: nat, j: nat, c: nat, p: Pid)
    requires IsRun(ks, es) && i < j < |es|
    requires WaitsAt(ks[i], es[i], c, p) && es[j] == Wake(c) && forall m :: i < m < j ==> es[m] != Wake(c)
    ensures p in ks[j + 1].tasks && ks[j + 1].tasks[p].state == Run && c in ks[j + 1].queues
        && ks[j + 1].queues[c].waiting == []
  {
    QueuedUntilWoken(ks, es, i, j, c, p);
    At(ks, es, j);
    Woken(ks[j], c, p);
  }

  /** A waiter that is neither woken nor disturbed is not switched to before the wakeup time it had when it called
      sys_wait, which sys_wait does not reset. */
  lemma WaiterNotBefore(ks: seq<Kernel>, es: seq<Event>, i: nat, j: nat, c: nat, p: Pid)
    requires IsRun(ks, es) && i < j < |es| && WaitsAt(ks[i], es[i], c, p) && p in ks[i].tasks && RunsAt(ks, es, p, j)
    requires forall m :: i < m < j ==> !Disturbs(ks, es, p, m) && !RunsAt(ks, es, p, m)
    requires !Disturbs(ks, es, p, j)
    ensures ks[j].clk >= ks[i].tasks[p].timer.wakeup
  {
    At(ks, es, i);
    EffectAt(ks, es, i, p);
    StaysAsleep(ks, es, i + 1, j, p, ks[i].tasks[p].timer.wakeup);
    EffectAt(ks, es, j, p);
    SleepEffect(ks[j], es[j], p, ks[j + 1].tasks[p], ks[j + 1].cur);
  }

  /** So, without an alarm, the wait is over at any clock, with nobody waking it, exactly if that wakeup time is past:
      if an earlier sleep was cut short, or the task never slept and the clock has reached the end of its range. */
  lemma WaitOverExactly(k: Kernel, c: nat, clk: nat)
    requires k.cur in k.tasks && c in k.queues && CanWait(k, Some(c))
    requires k.tasks[k.cur].timer.next == 0 && !k.tasks[k.cur].timer.active
    ensures k.cur in SysWait(k, Some(c)).tasks
    ensures Eligible(SysWait(k, Some(c)).tasks[k.cur], clk) <==> clk >= k.tasks[k.cur].timer.wakeup
  {
  }
}
