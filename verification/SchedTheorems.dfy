/** What every run of the scheduler guarantees. */
module SchedTheorems {
  import opened Machine
  import opened Sched

  // ---------------------------------------------------------------- the ring

  lemma {:induction false} SameMembers(s: seq<Pid>, p: Pid)
    requires p in s
    ensures forall q :: q in After(s, p) <==> q in s
    ensures Distinct(s) ==> Distinct(After(s, p))
  {
    var i := Index(s, p);
    var r := After(s, p);
    assert s == s[..i + 1] + s[i + 1..];
    forall q
      ensures q in r <==> q in s
    {
    }
  }

  lemma OrderMembers(k: Kernel)
    requires Valid(k)
    ensures forall q :: q in ScanOrder(k) <==> q in k.ring
    ensures Distinct(ScanOrder(k)) && |ScanOrder(k)| == |k.ring|
  {
    if k.cur != k.idle {
      SameMembers(k.ring, k.cur);
    }
  }

  /** The order of the search, place by place: round the ring from cur's successor to cur, or from the top for the
      idle task. */
  lemma ScanOrderExactly(k: Kernel, i: nat, j: nat)
    requires Valid(k) && i < |k.ring| && j < |k.ring| && (k.cur != k.idle ==> k.ring[i] == k.cur)
    ensures |ScanOrder(k)| == |k.ring|
    ensures ScanOrder(k)[j] == if k.cur == k.idle then k.ring[j] else k.ring[(i + 1 + j) % |k.ring|]
  {
    if k.cur != k.idle {
      IndexUnique(k.ring, k.cur, i);
      RoundRing(|k.ring|, i + 1 + j);
    }
  }

  lemma RoundRing(n: nat, m: nat)
    requires m < 2 * n
    ensures m % n == if m < n then m else m - n
  {
  }

  lemma {:induction false} IndexUnique(s: seq<Pid>, p: Pid, i: nat)
    requires i < |s| && s[i] == p && Distinct(s)
    ensures Index(s, p) == i
  {
    assert s[Index(s, p)] == s[i];
  }

  // ---------------------------------------------------------------- dispatch

  /** How many tasks the loop of schedule passes over. */
  function Passed(tasks: map<Pid, Task>, order: seq<Pid>, clk: nat): (n: nat)
    requires forall p :: p in order ==> p in tasks
    ensures n <= |order|
  {
    var choice := Scan(tasks, order, clk).1;
    if choice.Some? then Index(order, choice.value) else |order|
  }

  /** The loop of schedule: everyone before the chosen task was checked and found not eligible; the
      chosen task was checked and is; nobody after it was touched. */
  ghost predicate Scanned(tasks: map<Pid, Task>, order: seq<Pid>, clk: nat)
    requires forall p :: p in order ==> p in tasks
  {
    var r := Scan(tasks, order, clk);
    var n := Passed(tasks, order, clk);
    && (forall i :: 0 <= i < n ==>
          !Eligible(tasks[order[i]], clk) && r.0[order[i]] == CheckTimers(tasks[order[i]], clk))
    && (r.1.Some? ==> Eligible(tasks[r.1.value], clk) && r.0[r.1.value] == CheckTimers(tasks[r.1.value], clk))
    && (forall p :: p in tasks && p !in order[..n] && r.1 != Some(p) ==> r.0[p] == tasks[p])
  }

  lemma ScanPast(tasks: map<Pid, Task>, p: Pid, rest: seq<Pid>, clk: nat)
    requires p in tasks && p !in rest && forall q :: q in rest ==> q in tasks
    requires !Eligible(tasks[p], clk)
    requires Scanned(tasks[p := CheckTimers(tasks[p], clk)], rest, clk)
    ensures Scanned(tasks, [p] + rest, clk)
  {
    var order := [p] + rest;
    var now := tasks[p := CheckTimers(tasks[p], clk)];
    var r := Scan(now, rest, clk);
    assert order[1..] == rest;
    assert Scan(tasks, order, clk) == r;
    var n := Passed(tasks, order, clk);
    assert order[..n] == [p] + rest[..Passed(now, rest, clk)];
    forall i | 0 <= i < n
      ensures !Eligible(tasks[order[i]], clk) && r.0[order[i]] == CheckTimers(tasks[order[i]], clk)
    {
      if i > 0 {
        assert order[i] == rest[i - 1];
      }
    }
  }

  lemma {:induction false} ScanSpec(tasks: map<Pid, Task>, order: seq<Pid>, clk: nat)
    requires Distinct(order) && forall p :: p in order ==> p in tasks
    ensures Scanned(tasks, order, clk)
    decreases |order|
  {
    if order != [] && !Eligible(tasks[order[0]], clk) {
      var p, rest := order[0], order[1..];
      assert order == [p] + rest;
      ScanSpec(tasks[p := CheckTimers(tasks[p], clk)], rest, clk);
      ScanPast(tasks, p, rest, clk);
    }
  }

  /** The tasks as check_timers finds them. */
  function Found(k: Kernel): (r: map<Pid, Task>)
    requires k.cur in k.tasks
    ensures r.Keys == k.tasks.Keys
  {
    if k.ring == [] then k.tasks else Demote(k).tasks
  }

  /** After schedule, cur is active, and it is the first eligible task in scan order; it is the
      idle task if and only if no task is eligible. */
  lemma DispatchesFirstEligible(k: Kernel)
    requires Valid(k)
    ensures var k' := Schedule(k);
            var order := ScanOrder(k);
            && k'.tasks[k'.cur].state == Active
            && (k'.cur == k.idle <==> forall p :: p in k.ring ==> !Eligible(Found(k)[p], k.clk))
            && (k'.cur != k.idle ==>
                  && k'.cur in order
                  && Eligible(Found(k)[k'.cur], k.clk)
                  && forall i :: 0 <= i < Index(order, k'.cur) ==> !Eligible(Found(k)[order[i]], k.clk))
  {
    OrderMembers(k);
    if k.ring != [] {
      ScanSpec(Demote(k).tasks, ScanOrder(k), k.clk);
      var order := ScanOrder(k);
      forall p | p in order
        ensures exists i :: 0 <= i < |order| && order[i] == p
      {
      }
    }
  }

  /** When check_timers leaves a task on the run queue. */
  lemma EligibleExactly(t: Task, clk: nat)
    ensures Eligible(t, clk) <==>
              if Due(t, clk) then true
              else if Finished(t) then
                t.timer.lastState == Run || (t.timer.lastState == Sleep && clk >= t.timer.lastWakeup)
              else t.state == Run || (t.state == Sleep && clk >= t.timer.wakeup)
  {
  }

  // ---------------------------------------------------------------- safety over all runs

  lemma CheckQuiet(t: Task, clk: nat)
    requires Quiet(t)
    ensures Quiet(CheckTimers(t, clk))
  {
  }

  lemma {:induction false} ScanQuiet(tasks: map<Pid, Task>, order: seq<Pid>, clk: nat)
    requires forall p :: p in order ==> p in tasks
    requires forall p :: p in tasks ==> Quiet(tasks[p])
    ensures forall p :: p in tasks ==> Quiet(Scan(tasks, order, clk).0[p])
    decreases |order|
  {
    if order != [] {
      var p := order[0];
      var t := CheckTimers(tasks[p], clk);
      CheckQuiet(tasks[p], clk);
      if t.state != Run {
        ScanQuiet(tasks[p := t], order[1..], clk);
      }
    }
  }

  lemma DemoteQuiet(k: Kernel)
    requires Valid(k) && Safe(k)
    ensures forall p :: p in k.tasks ==> Quiet(Demote(k).tasks[p])
  {
  }

  /** Once the search is over, and before the switch, no task is active. */
  lemma SettledQuiet(k: Kernel)
    requires Valid(k) && Safe(k) && k.ring != []
    ensures forall p :: p in k.tasks ==> Quiet(Settled(k).0[p])
  {
    DemoteQuiet(k);
    ScanQuiet(Demote(k).tasks, ScanOrder(k), k.clk);
  }

  lemma SettledOn(k: Kernel)
    requires Valid(k)
    ensures Settled(k).1 in k.ring || Settled(k).1 == k.idle
  {
    OrderMembers(k);
  }

  lemma SwitchSafe(k: Kernel, next: Pid)
    requires next in k.tasks
    requires forall p :: p in k.tasks && p != next ==> Quiet(k.tasks[p])
    requires k.tasks[next].timer.active ==> k.tasks[next].timer.lastState != Active
    ensures Safe(Switch(k, next))
  {
  }

  lemma ScheduleSafe(k: Kernel)
    requires Valid(k) && Safe(k)
    ensures Valid(Schedule(k)) && Safe(Schedule(k))
  {
    SettledOn(k);
    if k.ring != [] {
      SettledQuiet(k);
    }
    SwitchSafe(k.(tasks := Settled(k).0), Settled(k).1);
  }

  lemma {:induction false} SetEventsSpec(tasks: map<Pid, Task>, others: seq<Pid>, bits: set<nat>)
    requires Distinct(others) && forall p :: p in others ==> p in tasks
    ensures var r := SetEvents(tasks, others, bits);
            forall p :: p in tasks ==>
              r[p] == if p in others
                  && tasks[p].mask * bits != {} then tasks[p].(state := Run, mask := tasks[p].mask - bits)
                      else tasks[p]
    decreases |others|
  {
    if others != [] {
      var p := others[0];
      var rest := others[1..];
      assert Distinct(rest) && p !in rest;
      var t := tasks[p];
      SetEventsSpec(tasks[p := if t.mask * bits != {} then t.(state := Run, mask := t.mask - bits) else t], rest, bits);
    }
  }

  lemma OthersMembers(k: Kernel)
    requires Valid(k)
    ensures Distinct(Others(k)) && k.cur !in Others(k)
    ensures k.cur != k.idle ==> forall p :: p in Others(k) <==> p in k.ring && p != k.cur
  {
    if k.cur != k.idle {
      SameMembers(k.ring, k.cur);
      DropLast(After(k.ring, k.cur), k.cur);
    }
  }

  lemma DropLast(r: seq<Pid>, p: Pid)
    requires Distinct(r) && r != [] && r[|r| - 1] == p
    ensures Distinct(r[..|r| - 1])
    ensures forall q :: q in r[..|r| - 1] <==> q in r && q != p
  {
    assert r == r[..|r| - 1] + [p];
  }

  lemma AddedDistinct(ring: seq<Pid>, p: Pid)
    requires Distinct(ring) && p !in ring && ring != []
    ensures Distinct([ring[0], p] + ring[1..])
    ensures forall q :: q in [ring[0], p] + ring[1..] <==> q in ring || q == p
  {
    var r := [ring[0], p] + ring[1..];
    assert ring == [ring[0]] + ring[1..];
    forall i, j | 0 <= i < j < |r|
      ensures r[i] != r[j]
    {
      if j >= 2 {
        assert r[j] == ring[j - 1];
      }
    }
  }

  lemma NewPid(k: Kernel)
    requires Valid(k)
    ensures k.lastPid + 1 !in k.tasks && k.lastPid + 1 !in k.ring
  {
  }

  lemma SpawnRing(k: Kernel, entry: Regs)
    requires Valid(k)
    ensures k.lastPid + 1 !in k.tasks && Distinct(AddTask(k, entry).ring)
    ensures forall q :: q in AddTask(k, entry).ring <==> q in k.ring || q == k.lastPid + 1
  {
    NewPid(k);
    if k.ring != [] {
      AddedDistinct(k.ring, k.lastPid + 1);
    } else {
      assert AddTask(k, entry).ring == [k.lastPid + 1];
    }
  }

  lemma SpawnValid(k: Kernel, entry: Regs)
    requires Valid(k)
    ensures Valid(AddTask(k, entry))
  {
    var k' := AddTask(k, entry);
    SpawnRing(k, entry);
    forall c, i | c in k'.queues && 0 <= i < |k'.queues[c].waiting|
      ensures k'.queues[c].waiting[i] in k'.ring
    {
      assert k.queues[c].waiting[i] in k.ring;
    }
  }

  /** spawn links the new task in exactly once, behind the head, and keeps everything else. */
  lemma SpawnSafe(k: Kernel, entry: Regs)
    requires Valid(k) && Safe(k)
    ensures Valid(AddTask(k, entry)) && Safe(AddTask(k, entry))
  {
    SpawnValid(k, entry);
    assert forall q :: q in k.tasks ==> AddTask(k, entry).tasks[q] == k.tasks[q];
  }

  lemma DispatchSafe(k: Kernel, saved: Regs)
    requires Valid(k) && Safe(k) && Enabled(k, Dispatch(saved))
    ensures Valid(Next(k, Dispatch(saved))) && Safe(Next(k, Dispatch(saved)))
  {
    var k' := WithCur(k, k.tasks[k.cur].(regs := saved));
    ScheduleSafe(k');
  }

  /** Changing only tasks, flags and clock keeps the ring. */
  lemma SameRing(k: Kernel, k': Kernel)
    requires Valid(k) && k'.tasks.Keys == k.tasks.Keys
    requires k'.ring == k.ring && k'.cur == k.cur && k'.idle == k.idle && k'.lastPid == k.lastPid
    requires k'.queues == k.queues
    ensures Valid(k')
  {
  }

  lemma EventSetValid(k: Kernel, bits: set<nat>)
    requires Valid(k)
    ensures (forall p :: p in Others(k) ==> p in k.tasks) && Valid(SysEventSet(k, bits))
  {
    OthersInRing(k);
    SameRing(k, SysEventSet(k, bits));
  }

  /** Making tasks runnable and leaving alarms alone is safe. */
  lemma StaysSafe(k: Kernel, k': Kernel)
    requires Safe(k) && k'.cur == k.cur && k'.tasks.Keys == k.tasks.Keys
    requires forall p :: p in k.tasks ==>
      k'.tasks[p].timer == k.tasks[p].timer && (k'.tasks[p].state == Active ==> k.tasks[p].state == Active)
    ensures Safe(k')
  {
  }

  /** What setting events does to one task. */
  lemma EventSetTask(k: Kernel, bits: set<nat>, p: Pid)
    requires Valid(k) && p in k.tasks && (forall q :: q in Others(k) ==> q in k.tasks)
    ensures p in SysEventSet(k, bits).tasks
    ensures var t := k.tasks[p];
            SysEventSet(k, bits).tasks[p] == if p in Others(k) && t.mask * bits != {}
                                             then t.(state := Run, mask := t.mask - bits) else t
  {
    OthersMembers(k);
    SetEventsSpec(k.tasks, Others(k), bits);
  }

  lemma EventSetSafe(k: Kernel, bits: set<nat>)
    requires Valid(k) && Safe(k) && forall p :: p in Others(k) ==> p in k.tasks
    ensures Safe(SysEventSet(k, bits))
  {
    forall p | p in k.tasks
      ensures SysEventSet(k, bits).tasks[p].timer == k.tasks[p].timer
      ensures SysEventSet(k, bits).tasks[p].state == Active ==> k.tasks[p].state == Active
    {
      EventSetTask(k, bits, p);
    }
    StaysSafe(k, SysEventSet(k, bits));
  }

  lemma WakeSafe(k: Kernel, c: nat)
    requires Valid(k) && Safe(k) && c in k.queues
    ensures (forall p :: p in k.queues[c].waiting ==> p in k.tasks) && Valid(SysWake(k, c)) && Safe(SysWake(k, c))
  {
  }

  lemma WaitSafe(k: Kernel, completion: Option<nat>)
    requires Valid(k) && Safe(k) && k.cur != k.idle && (completion.Some? ==> completion.value in k.queues)
    ensures Valid(SysWait(k, completion)) && Safe(SysWait(k, completion))
  {
  }

  lemma TaskSafe(k: Kernel, t: Task)
    requires Valid(k) && Safe(k)
    requires t.timer.active ==> t.timer.lastState != Active
    ensures Valid(WithCur(k, t)) && Safe(WithCur(k, t))
    ensures Valid(RequestSchedule(WithCur(k, t))) && Safe(RequestSchedule(WithCur(k, t)))
  {
    SameRing(k, WithCur(k, t));
    SameRing(k, RequestSchedule(WithCur(k, t)));
  }

  lemma TaskStepsSafe(k: Kernel, e: Event)
    requires Valid(k) && Safe(k) && Enabled(k, e)
    requires e.SleepFor? || e.EventWait? || e.Alarm? || e.AlarmDone? || e.Fault?
    ensures Valid(Next(k, e)) && Safe(Next(k, e))
  {
    TaskSafe(k, Next(k, e).tasks[k.cur]);
  }

  /** Every step keeps the ring a single cycle of all tasks, and ACTIVE the privilege of cur. */
  lemma StepSafe(k: Kernel, e: Event)
    requires Valid(k) && Safe(k) && Enabled(k, e)
    ensures Valid(Next(k, e)) && Safe(Next(k, e))
  {
    match e
    case Dispatch(saved) => DispatchSafe(k, saved);
    case Spawn(entry) => SpawnSafe(k, entry);
    case EventSet(bits) =>
      EventSetValid(k, bits);
      EventSetSafe(k, bits);
    case Wake(c) => WakeSafe(k, c);
    case Wait(completion) => WaitSafe(k, completion);
    case Tick =>
    case Enable =>
    case SpawnFails(_) =>
    case Yield =>
    case _ => TaskStepsSafe(k, e);
  }

  /** The kernel as sched_init leaves it: an idle task that sleeps and is cur. */
  ghost predicate Init(k: Kernel) {
    && k.ring == [] && k.cur == k.idle && k.lastPid == k.idle
    && k.tasks.Keys == {k.idle} && k.tasks[k.idle].state == Sleep && !k.tasks[k.idle].timer.active
    && forall c :: c in k.queues ==> k.queues[c].waiting == []
  }

  ghost predicate StepAt(ks: seq<Kernel>, es: seq<Event>, i: nat) {
    && i < |es| && i + 1 < |ks|
    && Valid(ks[i]) && Enabled(ks[i], es[i]) && ks[i + 1] == Next(ks[i], es[i])
  }

  /** A run: states ks linked by events es, from a safe state. */
  ghost predicate IsRun(ks: seq<Kernel>, es: seq<Event>) {
    && |ks| == |es| + 1 && Valid(ks[0]) && Safe(ks[0])
    && forall i :: 0 <= i < |es| ==> StepAt(ks, es, i)
  }

  lemma InitSafe(k: Kernel)
    requires Init(k)
    ensures Valid(k) && Safe(k)
  {
  }

  /** Ring and ACTIVE safety in every state of every run. */
  lemma {:induction false} RunSafe(ks: seq<Kernel>, es: seq<Event>, i: nat)
    requires IsRun(ks, es) && i < |ks|
    ensures Valid(ks[i]) && Safe(ks[i])
    decreases i
  {
    if i > 0 {
      RunSafe(ks, es, i - 1);
      assert StepAt(ks, es, i - 1);
      StepSafe(ks[i - 1], es[i - 1]);
    }
  }

  // ---------------------------------------------------------------- fairness

  /** A task as it is once it no longer has the processor. */
  function GivenUp(t: Task): Task { if t.state == Active then t.(state := Run) else t }

  /** A ring task the scheduler would run if it looked at it now. */
  ghost predicate Ready(k: Kernel, p: Pid)
    requires Valid(k)
  {
    p in k.ring && Eligible(GivenUp(k.tasks[p]), k.clk)
  }

  /** Among ring tasks only cur can be active, so demoting cur is all there is to giving up. */
  lemma DemoteIsGivenUp(k: Kernel, p: Pid)
    requires Valid(k) && Safe(k) && p in k.ring
    ensures Demote(k).tasks[p] == GivenUp(k.tasks[p])
  {
  }

  lemma EligibleLater(t: Task, clk: nat)
    requires Eligible(t, clk)
    ensures Eligible(t, clk + 1)
  {
  }

  /** Eligibility depends on state and timer only, and being put on the run queue does not spoil it. */
  lemma EligibleWoken(t: Task, clk: nat, t': Task)
    requires Eligible(GivenUp(t), clk) && t'.timer == t.timer && (t'.state == t.state || t'.state == Run)
    ensures Eligible(GivenUp(t'), clk)
  {
  }

  /** How many tasks the next search looks at up to and including p. */
  ghost function Distance(k: Kernel, p: Pid): (d: nat)
    requires Valid(k) && p in k.ring
    ensures 1 <= d <= |k.ring|
  {
    OrderMembers(k);
    Index(ScanOrder(k), p) + 1
  }

  /** Where q stands when the ring is walked from just behind p. */
  lemma IndexAfter(s: seq<Pid>, p: Pid, q: Pid)
    requires Distinct(s) && p in s && q in s
    ensures q in After(s, p)
    ensures Index(After(s, p), q)
         == if Index(s, q) > Index(s, p) then Index(s, q) - Index(s, p) - 1 else Index(s, q) + |s| - Index(s, p) - 1
  {
    SameMembers(s, p);
    var i, j := Index(s, p), Index(s, q);
    var m := if j > i then j - i - 1 else j + |s| - i - 1;
    assert After(s, p)[m] == q;
    IndexUnique(After(s, p), q, m);
  }

  /** If the search passes over q to reach p, the next search starts behind q and reaches p sooner. */
  lemma CloserAfter(k: Kernel, q: Pid, p: Pid)
    requires Valid(k) && p in k.ring && q in k.ring
    requires q in ScanOrder(k) && p in ScanOrder(k) && Index(ScanOrder(k), q) < Index(ScanOrder(k), p)
    ensures p in After(k.ring, q)
    ensures Index(After(k.ring, q), p) == Index(ScanOrder(k), p) - Index(ScanOrder(k), q) - 1
  {
    IndexAfter(k.ring, q, p);
    if k.cur != k.idle {
      IndexAfter(k.ring, k.cur, p);
      IndexAfter(k.ring, k.cur, q);
    }
  }

  lemma ScanStopsByThen(tasks: map<Pid, Task>, order: seq<Pid>, clk: nat, p: Pid)
    requires Distinct(order) && p in order && (forall q :: q in order ==> q in tasks) && Eligible(tasks[p], clk)
    ensures var r := Scan(tasks, order, clk);
            && r.1.Some?
            && (r.1.value == p || Index(order, r.1.value) < Index(order, p))
            && (r.1.value == p || r.0[p] == tasks[p])
  {
    ScanSpec(tasks, order, clk);
    assert p == order[Index(order, p)];
    var n := Passed(tasks, order, clk);
    assert n <= Index(order, p);
    assert forall i :: 0 <= i < n ==> order[i] != p;
  }

  /** The search stops at p or before it, and then has not touched p. */
  lemma StopsByThen(k: Kernel, p: Pid)
    requires Valid(k) && Safe(k) && Ready(k, p)
    ensures p in ScanOrder(k) && Settled(k).1 in ScanOrder(k)
    ensures Settled(k).1 == p || Index(ScanOrder(k), Settled(k).1) < Index(ScanOrder(k), p)
    ensures Settled(k).1 == p || Settled(k).0[p] == GivenUp(k.tasks[p])
  {
    OrderMembers(k);
    DemoteIsGivenUp(k, p);
    ScanStopsByThen(Demote(k).tasks, ScanOrder(k), k.clk, p);
  }

  lemma NowCloser(k: Kernel, k': Kernel, p: Pid, q: Pid)
    requires Valid(k) && Valid(k') && Ready(k, p) && k'.ring == k.ring && k'.idle == k.idle
        && k'.clk == k.clk && k'.cur == q
    requires q in k.ring && k'.tasks[p] == GivenUp(k.tasks[p])
    requires q in ScanOrder(k) && p in ScanOrder(k) && Index(ScanOrder(k), q) < Index(ScanOrder(k), p)
    ensures Ready(k', p) && Distance(k', p) < Distance(k, p)
  {
    CloserAfter(k, q, p);
  }

  /** A dispatch either runs the ready task or leaves it ready and brings it strictly closer. */
  lemma DispatchApproaches(k: Kernel, p: Pid)
    requires Valid(k) && Safe(k) && Ready(k, p) && Valid(Schedule(k))
    ensures var k' := Schedule(k);
            k'.cur == p || (Ready(k', p) && Distance(k', p) < Distance(k, p))
  {
    StopsByThen(k, p);
    OrderMembers(k);
    if Settled(k).1 != p {
      NowCloser(k, Schedule(k), p, Settled(k).1);
    }
  }

  lemma SameDistance(k: Kernel, k': Kernel, p: Pid)
    requires Valid(k) && Valid(k') && k'.ring == k.ring && k'.cur == k.cur && k'.idle == k.idle && p in k.ring
    ensures Distance(k', p) == Distance(k, p)
  {
  }

  lemma SpawnIndex(r: seq<Pid>, p: Pid, x: Pid)
    requires Distinct(r) && x in r && p !in r
    ensures var r' := [r[0], p] + r[1..];
            x in r' && Index(r', x) == if Index(r, x) == 0 then 0 else Index(r, x) + 1
  {
    var r' := [r[0], p] + r[1..];
    var i := Index(r, x);
    var i' := if i == 0 then 0 else i + 1;
    AddedDistinct(r, p);
    assert r'[i'] == x;
    IndexUnique(r', x, i');
  }

  lemma SpawnAfter(r: seq<Pid>, p: Pid, c: Pid, x: Pid)
    requires Distinct(r) && x in r && c in r && p !in r
    ensures var r' := [r[0], p] + r[1..];
            c in r' && x in After(r', c) && x in After(r, c) && Index(After(r', c), x) <= Index(After(r, c), x) + 1
  {
    AddedDistinct(r, p);
    SpawnIndex(r, p, x);
    SpawnIndex(r, p, c);
    IndexAfter(r, c, x);
    IndexAfter([r[0], p] + r[1..], c, x);
  }

  lemma SpawnDistance(k: Kernel, k': Kernel, p: Pid, q: Pid)
    requires Valid(k) && Valid(k') && p in k.ring && q !in k.ring
    requires k'.cur == k.cur && k'.idle == k.idle && k'.ring == [k.ring[0], q] + k.ring[1..]
    ensures p in k'.ring && Distance(k', p) <= Distance(k, p) + 1
  {
    SpawnIndex(k.ring, q, p);
    if k.cur != k.idle {
      SpawnAfter(k.ring, q, k.cur, p);
    }
  }

  /** What a step may do to a waiting task: put it on the run queue. */
  ghost predicate Untouched(k: Kernel, k': Kernel, p: Pid) {
    && p in k.tasks && p in k'.tasks && k'.tasks[p].timer == k.tasks[p].timer
    && (k'.tasks[p].state == k.tasks[p].state || k'.tasks[p].state == Run)
    && k'.clk == k.clk && k'.cur == k.cur && k'.idle == k.idle && k'.ring == k.ring
  }

  lemma UntouchedReady(k: Kernel, k': Kernel, p: Pid)
    requires Valid(k) && Valid(k') && Ready(k, p) && Untouched(k, k', p)
    ensures Ready(k', p) && Distance(k', p) == Distance(k, p)
  {
    SameDistance(k, k', p);
    EligibleWoken(k.tasks[p], k.clk, k'.tasks[p]);
  }

  lemma EventSetUntouched(k: Kernel, bits: set<nat>, p: Pid)
    requires Valid(k) && p in k.ring && p != k.cur && (forall q :: q in Others(k) ==> q in k.tasks)
    ensures Untouched(k, SysEventSet(k, bits), p)
  {
    OthersMembers(k);
    SetEventsSpec(k.tasks, Others(k), bits);
  }

  /** check_timers at clock zero would leave the task on the run queue: it does not owe its place to a due alarm or
      an expired sleep, which a clock that has wrapped no longer shows. */
  predicate EligibleAtZero(t: Task) {
    if Finished(t) then t.timer.lastState == Run || (t.timer.lastState == Sleep && t.timer.lastWakeup == 0)
    else t.state == Run || (t.state == Sleep && t.timer.wakeup == 0)
  }

  /** A tick that does not wrap the clock, or finds p eligible at zero too. */
  predicate CalmTick(k: Kernel, p: Pid) {
    k.clk + 1 < MODULUS || (k.clk + 1 == MODULUS && p in k.tasks && EligibleAtZero(GivenUp(k.tasks[p])))
  }

  lemma ZeroExactly(t: Task)
    ensures Eligible(t, 0) <==> EligibleAtZero(t)
  {
  }

  /** These are the ticks that leave a ready task ready. */
  lemma TickReadyExactly(k: Kernel, p: Pid)
    requires Valid(k) && Valid(TimerInt(k)) && Ready(k, p) && k.clk < MODULUS
    ensures Ready(TimerInt(k), p) <==> CalmTick(k, p)
    ensures Distance(TimerInt(k), p) == Distance(k, p)
  {
    SameDistance(k, TimerInt(k), p);
    if k.clk + 1 < MODULUS {
      EligibleLater(GivenUp(k.tasks[p]), k.clk);
    } else {
      assert Wrap(k.clk + 1) == 0;
      ZeroExactly(GivenUp(k.tasks[p]));
    }
  }

  lemma SpawnReady(k: Kernel, entry: Regs, p: Pid)
    requires Valid(k) && Valid(AddTask(k, entry)) && Ready(k, p)
    ensures var k' := AddTask(k, entry); Ready(k', p) && Distance(k', p) <= Distance(k, p) + 1
  {
    SpawnDistance(k, AddTask(k, entry), p, k.lastPid + 1);
  }

  lemma CurStepsUntouched(k: Kernel, e: Event, p: Pid)
    requires Valid(k) && Enabled(k, e) && p in k.ring && ByCur(e) && !e.EventSet? && k.cur != p
    ensures Untouched(k, Next(k, e), p)
  {
  }

  /** Steps other than a dispatch, taken by anyone but p, leave p ready, but for a tick that wraps the clock while p
      owes its place to the clock; only a spawn can put one more task before it. */
  lemma OtherStepsKeepReady(k: Kernel, e: Event, p: Pid)
    requires Valid(k) && Safe(k) && Enabled(k, e) && Valid(Next(k, e)) && Ready(k, p) && !e.Dispatch?
    requires ByCur(e) ==> k.cur != p
    requires e.Tick? ==> CalmTick(k, p)
    ensures Ready(Next(k, e), p) && Distance(Next(k, e), p) <= Distance(k, p) + if e.Spawn? then 1 else 0
  {
    if e.Spawn? {
      SpawnReady(k, e.entry, p);
    } else if e.Tick? {
      TickReadyExactly(k, p);
    } else {
      if e.EventSet? {
        EventSetValid(k, e.bits);
        EventSetUntouched(k, e.bits, p);
      } else if ByCur(e) {
        CurStepsUntouched(k, e, p);
      }
      UntouchedReady(k, Next(k, e), p);
    }
  }

  /** The interrupt path saves registers, which readiness does not look at. */
  lemma SaveKeepsReady(k: Kernel, saved: Regs, p: Pid)
    requires Valid(k) && Safe(k) && Ready(k, p)
    ensures var k' := WithCur(k, k.tasks[k.cur].(regs := saved));
            Valid(k') && Safe(k') && Ready(k', p) && Distance(k', p) == Distance(k, p)
  {
    var t := k.tasks[k.cur].(regs := saved);
    TaskSafe(k, t);
    SameDistance(k, WithCur(k, t), p);
    EligibleWoken(k.tasks[p], k.clk, WithCur(k, t).tasks[p]);
  }

  lemma DispatchStepApproaches(k: Kernel, saved: Regs, p: Pid)
    requires Valid(k) && Safe(k) && Enabled(k, Dispatch(saved)) && Ready(k, p)
    ensures var k' := Next(k, Dispatch(saved));
            Valid(k') && (k'.cur == p || (Ready(k', p) && Distance(k', p) < Distance(k, p)))
  {
    DispatchSafe(k, saved);
    SaveKeepsReady(k, saved, p);
    DispatchApproaches(WithCur(k, k.tasks[k.cur].(regs := saved)), p);
  }

  /** A new process is ready as soon as it is spawned. */
  lemma SpawnedReady(k: Kernel, entry: Regs)
    requires Valid(k) && Safe(k)
    ensures var k' := AddTask(k, entry); Valid(k') && Ready(k', k'.lastPid) && k'.tasks[k'.lastPid].regs == entry
  {
    SpawnSafe(k, entry);
  }

  /** Which steps ask for a dispatch, once the scheduler is enabled. */
  predicate AsksForDispatch(k: Kernel, e: Event)
    requires e.Wait? && e.completion.Some? ==> e.completion.value in k.queues
  {
    || e.Tick? || e.SleepFor? || e.Yield? || e.EventWait? || e.AlarmDone? || e.Fault?
    || (e.Wait? && CanWait(k, e.completion))
  }

  /** After such a step a dispatch can be taken, and taking it withdraws the request. */
  lemma DispatchRequested(k: Kernel, e: Event, saved: Regs)
    requires Valid(k) && Safe(k) && Enabled(k, e) && k.enabled && AsksForDispatch(k, e)
    ensures Valid(Next(k, e)) && Enabled(Next(k, e), Dispatch(saved)) && !Next(Next(k, e), Dispatch(saved)).resched
  {
    StepSafe(k, e);
  }

  function Dispatches(es: seq<Event>): nat {
    if es == [] then 0 else Dispatches(es[..|es| - 1]) + if es[|es| - 1].Dispatch? then 1 else 0
  }

  function Spawns(es: seq<Event>): nat {
    if es == [] then 0 else Spawns(es[..|es| - 1]) + if es[|es| - 1].Spawn? then 1 else 0
  }

  /** p is switched to at step i. */
  ghost predicate RunsAt(ks: seq<Kernel>, es: seq<Event>, p: Pid, i: nat) {
    i < |es| && i + 1 < |ks| && es[i].Dispatch? && ks[i + 1].cur == p
  }

  predicate CalmAt(ks: seq<Kernel>, es: seq<Event>, p: Pid, i: nat) {
    && i < |es| && i < |ks|
    && (ByCur(es[i]) ==> ks[i].cur != p) && (es[i].Tick? ==> CalmTick(ks[i], p))
  }

  /** p takes no step of its own, and no tick costs it its place. */
  ghost predicate Undisturbed(ks: seq<Kernel>, es: seq<Event>, p: Pid) {
    forall i :: 0 <= i < |es| ==> CalmAt(ks, es, p, i)
  }

  /** p is ready in k, and closer than in k0 by one for each dispatch, further by one for each spawn. */
  ghost predicate StillWaiting(k0: Kernel, k: Kernel, p: Pid, dispatches: nat, spawns: nat)
    requires Valid(k0) && p in k0.ring
  {
    Valid(k) && Ready(k, p) && Distance(k, p) + dispatches <= Distance(k0, p) + spawns
  }

  lemma OneMoreStep(k0: Kernel, k: Kernel, e: Event, p: Pid, dispatches: nat, spawns: nat)
    requires Valid(k0) && p in k0.ring && StillWaiting(k0, k, p, dispatches, spawns)
    requires Safe(k) && Enabled(k, e) && Valid(Next(k, e))
    requires (ByCur(e) ==> k.cur != p) && (e.Tick? ==> CalmTick(k, p))
    ensures (e.Dispatch? && Next(k, e).cur == p)
         || StillWaiting(k0, Next(k, e), p,
                         dispatches + if e.Dispatch? then 1 else 0, spawns + if e.Spawn? then 1 else 0)
  {
    if e.Dispatch? {
      DispatchStepApproaches(k, e.saved, p);
    } else {
      OtherStepsKeepReady(k, e, p);
    }
  }

  lemma CountOneMore(es: seq<Event>, n: nat)
    requires n < |es|
    ensures Dispatches(es[..n + 1]) == Dispatches(es[..n]) + if es[n].Dispatch? then 1 else 0
    ensures Spawns(es[..n + 1]) == Spawns(es[..n]) + if es[n].Spawn? then 1 else 0
  {
    assert es[..n + 1][..n] == es[..n];
  }

  lemma StepOn(ks: seq<Kernel>, es: seq<Event>, p: Pid, n: nat)
    requires IsRun(ks, es) && n < |es| && Ready(ks[0], p) && Undisturbed(ks, es, p)
    requires StillWaiting(ks[0], ks[n], p, Dispatches(es[..n]), Spawns(es[..n]))
    ensures RunsAt(ks, es, p, n) || StillWaiting(ks[0], ks[n + 1], p, Dispatches(es[..n + 1]), Spawns(es[..n + 1]))
  {
    RunSafe(ks, es, n);
    RunSafe(ks, es, n + 1);
    assert StepAt(ks, es, n) && CalmAt(ks, es, p, n);
    OneMoreStep(ks[0], ks[n], es[n], p, Dispatches(es[..n]), Spawns(es[..n]));
    CountOneMore(es, n);
  }

  lemma {:induction false} Approaches(ks: seq<Kernel>, es: seq<Event>, p: Pid, n: nat)
    requires IsRun(ks, es) && n <= |es| && Ready(ks[0], p) && Undisturbed(ks, es, p)
    requires forall i :: 0 <= i < n ==> !RunsAt(ks, es, p, i)
    ensures StillWaiting(ks[0], ks[n], p, Dispatches(es[..n]), Spawns(es[..n]))
  {
    if n > 0 {
      Approaches(ks, es, p, n - 1);
      StepOn(ks, es, p, n - 1);
    }
  }

  /** Bounded waiting: once p is ready it is switched to by the time the number of dispatches reaches
      the length of the ring plus the number of tasks spawned meanwhile. */
  lemma BoundedWait(ks: seq<Kernel>, es: seq<Event>, p: Pid)
    requires IsRun(ks, es) && Ready(ks[0], p) && Undisturbed(ks, es, p)
    requires Dispatches(es) >= |ks[0].ring| + Spawns(es)
    ensures exists i :: RunsAt(ks, es, p, i)
  {
    assert es[..|es|] == es;
    if forall i :: 0 <= i < |es| ==> !RunsAt(ks, es, p, i) {
      Approaches(ks, es, p, |es|);
    }
  }
}
