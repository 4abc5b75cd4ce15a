/** The kernel's own form: processes linked in a ring and updated in place (kernel/sched.c,
    kernel/timers.c, kernel/syscall.c, include/sys/list.h). Every method is tied to its step in Sched. */
module Tasks {
  import opened Machine
  import opened Sched
  import opened SchedTheorems
  import F = Bfifo

  /** struct proc */
  class Proc {
    const pid: Pid
    var next: Proc
    var prev: Proc
    var state: State
    var regs: Regs
    var backup: Regs
    var mask: set<nat>
    var timer: Timer

    function Value(): Task
      reads `state, `regs, `backup, `mask, `timer
    {
      Task(state, regs, backup, mask, timer)
    }

    /** do_spawn, once memory has been found. */
    constructor (pid: Pid, entry: Regs)
      ensures this.pid == pid && next == this && Value() == NewTask(entry)
    {
      this.pid := pid;
      next := this;
      prev := this;
      state := Run;
      regs := entry;
      backup := seq(17, i => 0);
      mask := {};
      timer := Timer(0, 0, 0, false, false, false, Active, NEVER, 0);
    }

    /** handle_task_timer */
    method HandleTaskTimer(clk: nat)
      modifies `state, `regs, `backup, `timer
      ensures Value() == Fire(old(Value()), clk)
    {
      backup := regs;
      regs := regs[1 := TRAMPOLINE];
      regs := regs[2 := timer.handler];
      regs := regs[16 := TRAMPOLINE];
      timer := timer.(done := false);
      timer := timer.(active := true);
      if timer.oneshot {
        timer := timer.(next := 0);
      } else {
        timer := timer.(next := Wrap(clk + timer.period));
      }
      timer := timer.(lastState := state);
      timer := timer.(lastWakeup := timer.wakeup);
      state := Run;
    }

    /** handle_task_timer_done */
    method HandleTaskTimerDone()
      modifies `state, `regs, `timer
      ensures Value() == Restore(old(Value()))
    {
      regs := backup;
      timer := timer.(active := false);
      state := timer.lastState;
      timer := timer.(wakeup := timer.lastWakeup);
    }

    /** check_timers */
    method CheckTimers(clk: nat)
      modifies `state, `regs, `backup, `timer
      ensures Value() == Sched.CheckTimers(old(Value()), clk)
    {
      if timer.next > 0 && !timer.active {
        if clk >= timer.next {
          HandleTaskTimer(clk);
          return;
        }
      } else if timer.active && timer.done {
        HandleTaskTimerDone();
      }
      if state == Sleep {
        if clk >= timer.wakeup {
          timer := timer.(wakeup := NEVER);
          state := Run;
        }
      }
    }
  }

  /** The globals of the scheduler. */
  class System {
    var procs: Proc?
    var idle: Proc
    var cur: Proc
    var nextPid: nat
    var clkticks: nat
    var needReschedule: bool
    var schedEnabled: bool
    const completions: map<nat, F.Fifo<Proc?>>

    ghost var ring: seq<Pid>
    ghost var byPid: map<Pid, Proc>

    // -------------------------------------------------------------- what the fields stand for

    ghost function TaskMap(): map<Pid, Task>
      reads `byPid, byPid.Values
    {
      map p | p in byPid :: byPid[p].Value()
    }

    /** The wait queues are proper FIFOs, no two of them in the same memory. */
    ghost predicate Fifos()
      reads completions.Values, set c | c in completions :: completions[c].elems
    {
      && (forall c :: c in completions ==> completions[c].Valid())
      && (forall c, d :: c in completions && d in completions && c != d ==>
            completions[c] != completions[d] && completions[c].elems != completions[d].elems)
    }

    ghost function QueueMap(): map<nat, Queue>
      requires Fifos()
      reads completions.Values, set c | c in completions :: completions[c].elems
    {
      map c | c in completions :: Queue(completions[c].size, Pids(completions[c].Contents()))
    }

    ghost function View(): Kernel
      requires Fifos()
      reads this, byPid.Values, completions.Values, set c | c in completions :: completions[c].elems
    {
      Kernel(ring, TaskMap(), idle.pid, cur.pid, nextPid, clkticks, needReschedule, schedEnabled, QueueMap())
    }

    ghost predicate IsProc(p: Proc?)
      reads `byPid
    {
      p != null && p.pid in byPid && byPid[p.pid] == p
    }

    ghost predicate Named()
      reads `byPid, `idle, `cur
    {
      (forall p :: p in byPid ==> byPid[p].pid == p) && IsProc(idle) && IsProc(cur)
    }

    /** From procs the next pointers form one cycle through ring; the idle task is its own successor. */
    ghost predicate Linked()
      reads `ring, `byPid, `procs, `idle, idle, byPid.Values`next
    {
      && (forall i :: 0 <= i < |ring| ==> ring[i] in byPid)
      && (if ring == [] then procs == null else procs == byPid[ring[0]])
      && (forall i :: 0 <= i < |ring| ==> byPid[ring[i]].next == byPid[ring[if i + 1 < |ring| then i + 1 else 0]])
      && idle.next == idle
    }

    /** Whoever waits is a process. */
    ghost predicate Queued()
      requires Fifos()
      reads `byPid, completions.Values, set c | c in completions :: completions[c].elems
    {
      forall c, i :: c in completions && 0 <= i < |completions[c].Contents()| ==> IsProc(completions[c].Contents()[i])
    }

    ghost predicate Good()
      reads this, byPid.Values, idle, completions.Values, set c | c in completions :: completions[c].elems
    {
      Named() && Linked() && Fifos() && Queued()
    }

    /** sched_init */
    constructor (completions: map<nat, F.Fifo<Proc?>>, entry: Regs)
      requires forall c :: c in completions ==> completions[c].Valid() && completions[c].Contents() == []
      requires forall c, d :: c in completions && d in completions && c != d ==>
                 completions[c] != completions[d] && completions[c].elems != completions[d].elems
      ensures Good() && Init(View())
      ensures !View().enabled && !View().resched && View().clk == 0 && View().tasks[View().idle].regs == entry
    {
      var task := new Proc(1, entry);
      procs := null;
      idle, cur, nextPid := task, task, 1;
      clkticks, needReschedule, schedEnabled := 0, false, false;
      this.completions := completions;
      ring, byPid := [], map[1 := task];
      new;
      idle.state := Sleep;
      Begins();
    }

    lemma Begins()
      requires Good() && ring == [] && cur == idle && nextPid == idle.pid && byPid == map[idle.pid := idle]
      requires idle.state == Sleep && !idle.timer.active
      requires forall c :: c in completions ==> completions[c].Contents() == []
      ensures Init(View())
    {
      assert TaskMap().Keys == {idle.pid};
    }

    // -------------------------------------------------------------- steps

    /** request_schedule */
    method RequestSchedule()
      modifies `needReschedule
      ensures needReschedule == (old(needReschedule) || schedEnabled)
    {
      if schedEnabled {
        needReschedule := true;
      }
    }

    /** When one process record has changed, and not where it is linked, so has one task. */
    twostate lemma ProcOnly(p: Proc)
      requires old(Good()) && IsProc(p) && p.next == old(p.next)
      requires unchanged(`procs, `idle, `cur, `nextPid, `clkticks, `schedEnabled, `ring, `byPid)
      requires forall q :: q in byPid && q != p.pid ==> unchanged(byPid[q])
      requires forall c :: c in completions ==> unchanged(completions[c]) && unchanged(completions[c].elems)
      ensures Good()
      ensures View() == old(View()).(tasks := old(View()).tasks[p.pid := p.Value()], resched := needReschedule)
    {
      assert forall q :: q in byPid ==> byPid[q].next == old(byPid[q].next);
      assert TaskMap() == old(TaskMap())[p.pid := p.Value()];
    }

    /** When no process and no queue has changed. */
    twostate lemma FlagsOnly()
      requires old(Good()) && IsProc(cur)
      requires unchanged(`procs, `idle, `ring, `byPid)
      requires forall p :: p in byPid ==> unchanged(byPid[p])
      requires forall c :: c in completions ==> unchanged(completions[c]) && unchanged(completions[c].elems)
      ensures Good()
      ensures View() == old(View()).(cur := cur.pid, lastPid := nextPid, clk := clkticks,
                                     resched := needReschedule, enabled := schedEnabled)
    {
      assert TaskMap() == old(TaskMap());
    }

    /** When one wait queue has changed. */
    twostate lemma QueueOnly(c: nat)
      requires old(Good()) && c in completions && completions[c].Valid()
      requires forall i :: 0 <= i < |completions[c].Contents()| ==> IsProc(completions[c].Contents()[i])
      requires unchanged(this)
      requires forall p :: p in byPid ==> unchanged(byPid[p])
      requires forall d :: d in completions && d != c ==> unchanged(completions[d]) && unchanged(completions[d].elems)
      ensures Good()
      ensures View() == WithQueue(old(View()), c, Pids(completions[c].Contents()))
    {
      assert TaskMap() == old(TaskMap());
      assert QueueMap() == old(QueueMap())[c := Queue(completions[c].size, Pids(completions[c].Contents()))];
    }

    /** timer_int */
    method TimerInt()
      requires Good()
      modifies `needReschedule, `clkticks
      ensures Good() && View() == Sched.TimerInt(old(View()))
    {
      clkticks := Wrap(clkticks + 1);
      RequestSchedule();
      FlagsOnly();
    }

    /** sys_wait; None is a null completion. */
    method SysWait(completion: Option<nat>) returns (rc: int)
      requires Good() && (completion.Some? ==> completion.value in completions)
      modifies `needReschedule, cur`state, completions.Values, set c | c in completions :: completions[c].elems
      ensures Good() && View() == Sched.SysWait(old(View()), completion)
      ensures rc == if CanWait(old(View()), completion) then 0 else -1
    {
      rc := -1;
      if completion != None {
        rc := Enqueue(completion.value);
        if rc == 0 {
          FallAsleep();
        }
      }
    }

    method FallAsleep()
      requires Good()
      modifies `needReschedule, cur`state
      ensures Good() && View() == Sched.RequestSchedule(WithCur(old(View()), old(cur.Value()).(state := Sleep)))
    {
      cur.state := Sleep;
      RequestSchedule();
      ProcOnly(cur);
    }

    method MakeRunnable(p: Proc)
      requires Good() && IsProc(p)
      modifies p`state
      ensures Good() && View() == old(View()).(tasks := old(View()).tasks[p.pid := old(p.Value()).(state := Run)])
    {
      p.state := Run;
      ProcOnly(p);
    }

    /** cur joins a wait queue. */
    method Enqueue(c: nat) returns (rc: int)
      requires Good() && c in completions
      modifies completions[c], completions[c].elems
      ensures Good() && View() == Joined(old(View()), c)
      ensures rc == if CanWait(old(View()), Some(c)) then 0 else -1
    {
      ghost var k := View();
      ghost var s := completions[c].Contents();
      rc := completions[c].Queue(cur);
      QueueOnly(c);
      PidsLast(s, cur);
      SameQueue(k, c);
    }

    /** One process leaves a wait queue for the run queue. */
    method WakeOne(c: nat) returns (proc: Option<Proc?>)
      requires Good() && c in completions
      modifies byPid.Values, completions[c]
      ensures Good() && View() == FirstWoken(old(View()), c)
      ensures proc == None <==> old(View()).queues[c].waiting == []
    {
      ghost var k := View();
      ghost var s := completions[c].Contents();
      proc := completions[c].Dequeue();
      QueueOnly(c);
      SameQueue(k, c);
      if proc != None {
        PidsFirst(s);
        MakeRunnable(proc.value);
      }
    }

    /** sys_wake */
    method SysWake(c: nat) returns (rc: int)
      requires Good() && c in completions
      modifies byPid.Values, completions[c]
      ensures Good() && Woken(old(View()), c) && View() == Sched.SysWake(old(View()), c) && rc == 0
    {
      WaitersAreTasks(c);
      ghost var k := View();
      while true
        invariant Good() && Wakes(View(), c, k)
        decreases |View().queues[c].waiting|
      {
        FirstOfAll(View(), c, k);
        var proc := WakeOne(c);
        if proc == None {
          break;
        }
      }
      return 0;
    }

    lemma WaitersAreTasks(c: nat)
      requires Good() && c in completions
      ensures Woken(View(), c)
    {
    }

    /** sys_sleep */
    method SysSleep(period: nat) returns (rc: int)
      requires Good()
      modifies `needReschedule, cur`state, cur`timer
      ensures Good() && View() == Sched.SysSleep(old(View()), period) && rc == 0
    {
      cur.state := Sleep;
      cur.timer := cur.timer.(wakeup := Wrap(clkticks + period));
      RequestSchedule();
      ProcOnly(cur);
      return 0;
    }

    /** request_schedule, seen on the whole state. */
    method Request()
      requires Good()
      modifies `needReschedule
      ensures Good() && View() == Sched.RequestSchedule(old(View()))
    {
      RequestSchedule();
      FlagsOnly();
    }

    /** sys_yield */
    method SysYield() returns (rc: int)
      requires Good()
      modifies `needReschedule
      ensures Good() && View() == Sched.RequestSchedule(old(View())) && rc == 0
    {
      Request();
      return 0;
    }

    /** sys_event_wait */
    method SysEventWait(bits: set<nat>) returns (rc: int)
      requires Good()
      modifies `needReschedule, cur`state, cur`mask
      ensures Good() && View() == Sched.SysEventWait(old(View()), bits) && rc == 0
    {
      cur.mask := cur.mask + bits;
      cur.state := Sleep;
      RequestSchedule();
      ProcOnly(cur);
      return 0;
    }

    /** sys_alarm */
    method SysAlarm(handler: nat, msec: nat, oneshot: bool) returns (rc: int)
      requires Good()
      modifies cur`timer
      ensures Good() && View() == Sched.SysAlarm(old(View()), handler, msec, oneshot) && rc == 0
    {
      cur.timer := cur.timer.(handler := handler);
      cur.timer := cur.timer.(period := Wrap(msec) / 10);
      cur.timer := cur.timer.(next := Wrap(clkticks + cur.timer.period));
      cur.timer := cur.timer.(oneshot := oneshot);
      ProcOnly(cur);
      return 0;
    }

    /** sys_utt_done */
    method SysUttDone() returns (rc: int)
      requires Good()
      modifies `needReschedule, cur`timer
      ensures Good() && View() == Sched.SysUttDone(old(View())) && rc == 0
    {
      cur.timer := cur.timer.(done := true);
      RequestSchedule();
      ProcOnly(cur);
      return 0;
    }

    /** user_page_fault */
    method UserPageFault()
      requires Good()
      modifies `needReschedule, cur`state, cur`mask, cur`timer
      ensures Good() && View() == Sched.UserPageFault(old(View()))
    {
      cur.state := Killed;
      cur.timer := cur.timer.(wakeup := NEVER);
      cur.mask := {};
      RequestSchedule();
      ProcOnly(cur);
    }

    // -------------------------------------------------------------- walking the ring

    /** order goes once round a circle of next pointers. */
    ghost predicate Circle(order: seq<Pid>)
      reads `byPid, byPid.Values`next
    {
      && (forall i :: 0 <= i < |order| ==> order[i] in byPid)
      && (forall i :: 0 <= i < |order| ==> byPid[order[i]].next == byPid[order[if i + 1 < |order| then i + 1 else 0]])
    }

    /** Starting behind p, the next pointers lead round the ring and end at p. */
    lemma RoundFrom(p: Pid)
      requires Linked() && p in ring
      ensures Circle(After(ring, p)) && After(ring, p)[|ring| - 1] == p
      ensures p in byPid && byPid[p].next == byPid[After(ring, p)[0]]
    {
      var i := Index(ring, p);
      var order := After(ring, p);
      assert forall j :: 0 <= j < |ring| - i - 1 ==> order[j] == ring[i + 1 + j];
      assert forall j :: |ring| - i - 1 <= j < |ring| ==> order[j] == ring[i + 1 + j - |ring|];
    }

    method CheckTimersOf(p: Proc)
      requires Good() && IsProc(p)
      modifies p`state, p`regs, p`backup, p`timer
      ensures Good()
      ensures View() == old(View()).(tasks := old(View()).tasks[p.pid := Sched.CheckTimers(old(p.Value()), clkticks)])
    {
      p.CheckTimers(clkticks);
      ProcOnly(p);
    }

    /** What is left of the search from place i on is as expected. */
    ghost predicate Leads(order: seq<Pid>, i: nat, result: (map<Pid, Task>, Option<Pid>))
      reads `byPid, byPid.Values, `clkticks
    {
      if i < |order| then ScansTo(TaskMap(), order[i..], clkticks) == result else result == (TaskMap(), None)
    }

    /** check_timers at place i of the walk, seen as one round of Scan. */
    method CheckAt(p: Proc, ghost order: seq<Pid>, ghost i: nat, ghost result: (map<Pid, Task>, Option<Pid>))
      requires Good() && Circle(order) && i < |order| && p == byPid[order[i]] && Leads(order, i, result)
      modifies p`state, p`regs, p`backup, p`timer
      ensures Good() && Circle(order) && View() == old(View()).(tasks := TaskMap())
      ensures if p.state == Run then result == (TaskMap(), Some(order[i])) else Leads(order, i + 1, result)
    {
      ghost var before, t := TaskMap(), Sched.CheckTimers(p.Value(), clkticks);
      CheckTimersOf(p);
      ScanOne(before, order, i, clkticks);
      assert before[order[i]] == old(p.Value());
      assert TaskMap() == before[order[i] := t] && TaskMap()[order[i]] == p.Value() && p.state == t.state;
    }

    lemma BackAtStart(order: seq<Pid>, i: nat)
      requires Good() && Circle(order) && Distinct(order) && i < |order|
      ensures byPid[order[i]] == byPid[order[0]] <==> i == 0
    {
      assert byPid[order[i]].pid == order[i] && byPid[order[0]].pid == order[0];
    }

    /** The do-while loop of schedule, from op round the ring. */
    method Search(op: Proc, ghost order: seq<Pid>, ghost result: (map<Pid, Task>, Option<Pid>)) returns (next: Proc)
      requires Good() && Circle(order) && Distinct(order) && order != [] && op == byPid[order[0]]
      requires Leads(order, 0, result)
      modifies byPid.Values`state, byPid.Values`regs, byPid.Values`backup, byPid.Values`timer
      ensures Good() && View() == old(View()).(tasks := result.0) && next == Chosen(result.1)
    {
      next := idle;
      var p := op;
      ghost var k := View();
      ghost var i := 0;
      while true
        invariant Good() && Circle(order) && i < |order| && p == byPid[order[i]] && next == idle
        invariant View() == k.(tasks := TaskMap()) && Leads(order, i, result)
        decreases |order| - i
      {
        CheckAt(p, order, i, result);
        if p.state == Run {
          next := p;
          break;
        }
        p := p.next;
        i := i + 1;
        if i < |order| {
          BackAtStart(order, i);
        }
        if p == op {
          break;
        }
      }
    }

    ghost function Chosen(choice: Option<Pid>): Proc
      reads `byPid, `idle
    {
      if choice.Some? && choice.value in byPid then byPid[choice.value] else idle
    }

    /** order is the way schedule goes, and a circle of next pointers. */
    ghost predicate Route(order: seq<Pid>)
      reads `procs, `idle, `cur, cur, `byPid, byPid.Values`next
    {
      && order != [] && Circle(order) && Distinct(order)
      && (if cur != idle then cur.next else procs) == byPid[order[0]]
    }

    lemma ScanRoute()
      requires Good() && Sched.Valid(View()) && ring != []
      ensures Route(ScanOrder(View()))
    {
      OrderMembers(View());
      if cur != idle {
        RoundFrom(cur.pid);
      }
    }

    /** The start of schedule: cur gives up the processor, and the search starts behind it. */
    method GiveUp() returns (p: Proc)
      requires Good() && procs != null
      modifies cur`state
      ensures Good() && View() == Demote(old(View())) && p == if cur != idle then cur.next else procs
    {
      if cur != idle {
        if cur.state == Active {
          cur.state := Run;
        }
        p := cur.next;
      } else {
        cur.state := Sleep;
        p := procs;
      }
      ProcOnly(cur);
    }

    /** schedule's search of a ring that is not empty. */
    method SearchRing(ghost k: Kernel, ghost order: seq<Pid>, ghost result: (map<Pid, Task>,
        Option<Pid>)) returns (next: Proc)
      requires Good() && k == View() && procs != null && Route(order)
      requires result == ScansTo(Demote(k).tasks, order, k.clk)
      modifies byPid.Values`state, byPid.Values`regs, byPid.Values`backup, byPid.Values`timer
      ensures Good() && View() == k.(tasks := result.0) && next == Chosen(result.1)
    {
      var p := GiveUp();
      assert order[0..] == order;
      next := Search(p, order, result);
    }

    /** schedule up to swtch: the task it settles on. */
    method Select() returns (next: Proc)
      requires Good() && Sched.Valid(View())
      modifies byPid.Values`state, byPid.Values`regs, byPid.Values`backup, byPid.Values`timer
      ensures Good() && IsProc(next) && next.pid == Settled(old(View())).1
      ensures View() == old(View()).(tasks := Settled(old(View())).0)
    {
      ghost var k := View();
      next := idle;
      if procs != null {
        ScanRoute();
        SettledIs(k);
        next := SearchRing(k, ScanOrder(k), ScansTo(Demote(k).tasks, ScanOrder(k), k.clk));
      }
    }

    /** swtch */
    method Swtch(next: Proc)
      requires Good() && IsProc(next)
      modifies `cur, next`state
      ensures Good()
      ensures View() == old(View()).(cur := next.pid,
          tasks := old(View()).tasks[next.pid := old(next.Value()).(state := Active)])
    {
      next.state := Active;
      ProcOnly(next);
      label Active:
      cur := next;
      FlagsOnly@Active();
    }

    /** The end of schedule. */
    method Out(next: Proc)
      requires Good() && IsProc(next)
      modifies `cur, `needReschedule, next`state
      ensures Good() && View() == Switch(old(View()), next.pid)
    {
      Swtch(next);
      label Switched:
      needReschedule := false;
      FlagsOnly@Switched();
    }

    /** schedule */
    method Schedule()
      requires Good() && Sched.Valid(View())
      modifies `cur, `needReschedule, byPid.Values`state, byPid.Values`regs, byPid.Values`backup, byPid.Values`timer
      ensures Good() && View() == Sched.Schedule(old(View()))
    {
      var next := Select();
      Out(next);
    }

    /** The interrupt path: save cur's registers, then schedule. */
    method Dispatch(saved: Regs)
      requires Good() && Sched.Valid(View())
      modifies `cur, `needReschedule, byPid.Values`state, byPid.Values`regs, byPid.Values`backup, byPid.Values`timer
      ensures Good() && View() == DispatchStep(old(View()), saved)
    {
      ghost var k := View();
      cur.regs := saved;
      ProcOnly(cur);
      SameRing(k, View());
      Schedule();
    }

    // -------------------------------------------------------------- events and new processes

    /** What sys_event_set walks: the ring but for cur, from cur's successor round to cur. */
    ghost predicate WalkOf(others: seq<Pid>)
      reads `cur, cur, `byPid, byPid.Values`next
    {
      && Circle(others + [cur.pid]) && cur.next == byPid[(others + [cur.pid])[0]]
      && Distinct(others) && cur.pid !in others
    }

    lemma EventCircle()
      requires Linked() && Named() && Distinct(ring) && (cur.pid == idle.pid || cur.pid in ring)
      ensures WalkOf(if cur.pid == idle.pid then [] else After(ring, cur.pid)[..|ring| - 1])
    {
      if cur == idle {
        IdleCircle();
      } else {
        RingCircle();
      }
    }

    lemma IdleCircle()
      requires Linked() && Named() && cur == idle
      ensures WalkOf([])
    {
      assert [] + [cur.pid] == [cur.pid];
    }

    lemma RingCircle()
      requires Linked() && Named() && Distinct(ring) && cur.pid in ring
      ensures WalkOf(After(ring, cur.pid)[..|ring| - 1])
    {
      RoundFrom(cur.pid);
      SameMembers(ring, cur.pid);
      DropLast(After(ring, cur.pid), cur.pid);
      assert After(ring, cur.pid)[..|ring| - 1] + [cur.pid] == After(ring, cur.pid);
    }

    /** The body of the loop of sys_event_set. */
    method Notify(p: Proc, bits: set<nat>) returns (hit: bool)
      requires Good() && IsProc(p)
      modifies p`state, p`mask
      ensures Good() && View() == old(View()).(tasks := old(View()).tasks[p.pid := Notified(old(p.Value()), bits)])
      ensures hit == (old(p.mask) * bits != {})
    {
      hit := false;
      if p.mask * bits != {} {
        hit := true;
        p.state := Run;
        p.mask := p.mask - bits;
      }
      ProcOnly(p);
    }

    /** What is left of the walk from place i on. */
    ghost predicate Notifies(others: seq<Pid>, i: nat, bits: set<nat>, result: map<Pid, Task>)
      reads `byPid, byPid.Values
    {
      i <= |others| && SetsTo(TaskMap(), others[i..], bits) == result
    }

    /** Masks not yet met are as they were. */
    ghost predicate Unmet(others: seq<Pid>, i: nat, tasks: map<Pid, Task>)
      reads `byPid, byPid.Values
    {
      forall j :: i <= j < |others| ==>
        others[j] in byPid && others[j] in tasks
        && byPid[others[j]].mask == tasks[others[j]].mask
    }

    method NotifyAt(p: Proc, bits: set<nat>, ghost others: seq<Pid>, ghost i: nat, ghost result: map<Pid,
        Task>, ghost tasks: map<Pid, Task>)
      returns (hit: bool)
      requires Good() && WalkOf(others) && i < |others| && others[i] in byPid && p == byPid[others[i]]
      requires Notifies(others, i, bits, result) && Unmet(others, i, tasks)
      modifies p`state, p`mask
      ensures Good() && WalkOf(others) && View() == old(View()).(tasks := TaskMap())
      ensures Notifies(others, i + 1, bits, result) && Unmet(others, i + 1, tasks)
      ensures hit == (tasks[others[i]].mask * bits != {})
    {
      ghost var before := TaskMap();
      hit := Notify(p, bits);
      assert forall j :: 0 <= j < |others| ==> (others + [cur.pid])[j] == others[j];
      SetOne(before, others, i, bits);
    }

    /** The loop of sys_event_set. */
    method NotifyOthers(bits: set<nat>, ghost others: seq<Pid>, ghost result: map<Pid, Task>,
        ghost tasks: map<Pid, Task>) returns (hit: bool)
      requires Good() && WalkOf(others) && tasks == TaskMap()
      requires Notifies(others, 0, bits, result) && Unmet(others, 0, tasks)
      modifies byPid.Values`state, byPid.Values`mask
      ensures Good() && View() == old(View()).(tasks := result) && (hit <==> Hit(tasks, others, bits))
    {
      ghost var k := View();
      ghost var i := 0;
      hit := false;
      var p := cur.next;
      while p != cur
        invariant Good() && WalkOf(others) && i <= |others| && p == byPid[(others + [cur.pid])[i]]
        invariant View() == k.(tasks := TaskMap())
        invariant Notifies(others, i, bits, result) && Unmet(others, i, tasks)
        invariant hit <==> Hit(tasks, others[..i], bits)
        decreases |others| - i
      {
        var h := NotifyAt(p, bits, others, i, result, tasks);
        HitOne(tasks, others, i, bits);
        if h {
          hit := true;
        }
        p := p.next;
        i := i + 1;
      }
      assert i == |others|;
      assert others[..i] == others;
    }

    lemma WalkTasks(others: seq<Pid>, bits: set<nat>)
      requires Good() && Sched.Valid(View()) && others == Others(View())
      ensures OthersAreTasks(View()) && Unmet(others, 0, TaskMap())
      ensures Notifies(others, 0, bits, SetEvents(TaskMap(), others, bits))
    {
      OthersInRing(View());
      assert others[0..] == others;
    }

    method EventWalk(bits: set<nat>) returns (hit: bool)
      requires Good() && Sched.Valid(View())
      modifies byPid.Values`state, byPid.Values`mask
      ensures Good() && OthersAreTasks(old(View())) && View() == AfterWalk(old(View()), bits)
      ensures hit <==> Hit(old(View()).tasks, Others(old(View())), bits)
    {
      EventCircle();
      WalkTasks(Others(View()), bits);
      hit := NotifyOthers(bits, Others(View()), SetEvents(TaskMap(), Others(View()), bits), TaskMap());
    }

    /** sys_event_set */
    method SysEventSet(bits: set<nat>) returns (rc: int)
      requires Good() && Sched.Valid(View())
      modifies `needReschedule, byPid.Values`state, byPid.Values`mask
      ensures Good() && OthersAreTasks(old(View())) && View() == Sched.SysEventSet(old(View()), bits) && rc == 0
    {
      ghost var k := View();
      var hit := EventWalk(bits);
      if hit {
        Request();
      }
      assert View() == if hit then Sched.RequestSchedule(AfterWalk(k, bits)) else AfterWalk(k, bits);
      return 0;
    }

    /** proc is linked in behind the head, and nothing else has changed. */
    twostate predicate LinkedIn(proc: Proc)
      reads this, proc, byPid.Values, procs
    {
      && unchanged(`idle, `cur) && proc.pid !in old(byPid)
      && ring == Grown(old(ring), proc.pid) && byPid == old(byPid)[proc.pid := proc]
      && (if old(procs) == null then procs == proc && proc.next == proc
          else procs == old(procs) && procs.next == proc && proc.next == old(procs.next))
      && forall q :: q in old(byPid) ==> byPid[q].next == if byPid[q] == old(procs) then proc else old(byPid[q].next)
    }

    /** In a ring that was not empty the circle passes through proc second. */
    twostate lemma StillRound(proc: Proc)
      requires old(Named() && Linked() && ring != [] && Distinct(ring)) && LinkedIn(proc)
      ensures Circle(ring)
    {
      var r := old(ring);
      forall i | 0 <= i < |ring|
        ensures ring[i] in byPid && byPid[ring[i]].next == byPid[ring[if i + 1 < |ring| then i + 1 else 0]]
      {
        if i >= 2 {
          assert ring[i] == r[i - 1] && byPid[r[i - 1]] == old(byPid[r[i - 1]]);
          assert byPid[r[i - 1]].pid == r[i - 1] && byPid[r[0]].pid == r[0];
          assert byPid[r[i - 1]].next == old(byPid[r[i - 1]].next);
        }
      }
    }

    twostate lemma StillLinked(proc: Proc)
      requires old(Named() && Linked() && Distinct(ring) && idle.pid !in ring) && LinkedIn(proc)
      ensures Linked()
    {
      if old(ring) != [] {
        StillRound(proc);
        assert old(procs).pid == old(ring)[0];
      }
    }

    /** spawn, once do_spawn has succeeded. */
    method Link(proc: Proc)
      requires Named() && Linked() && Distinct(ring) && idle.pid !in ring
      requires proc.pid !in byPid && proc.next == proc && proc !in byPid.Values
      modifies `procs, `ring, `byPid, byPid.Values`next, proc`next, proc`prev
      ensures LinkedIn(proc)
    {
      if procs == null {
        procs := proc;
      } else {
        ListAddAfter(procs, proc);
      }
      ring := Grown(ring, proc.pid);
      byPid := byPid[proc.pid := proc];
    }

    twostate lemma OneMoreTask(proc: Proc)
      requires LinkedIn(proc) && proc.Value() == old(proc.Value())
      requires forall p :: p in old(byPid) ==> byPid[p].Value() == old(byPid[p].Value())
      ensures TaskMap() == old(TaskMap())[proc.pid := proc.Value()]
    {
    }

    twostate lemma SameWaiters(proc: Proc)
      requires old(Named() && Fifos() && Queued()) && LinkedIn(proc)
      requires forall c :: c in completions ==> unchanged(completions[c]) && unchanged(completions[c].elems)
      ensures Named() && Fifos() && Queued() && QueueMap() == old(QueueMap())
    {
    }

    twostate lemma NowJoined(proc: Proc)
      requires old(Good() && Distinct(ring) && idle.pid !in ring) && LinkedIn(proc)
      requires unchanged(`nextPid, `clkticks, `needReschedule, `schedEnabled)
      requires proc.Value() == old(proc.Value())
          && forall p :: p in old(byPid) ==> byPid[p].Value() == old(byPid[p].Value())
      requires forall c :: c in completions ==> unchanged(completions[c]) && unchanged(completions[c].elems)
      ensures Good()
      ensures View() == old(View()).(ring := Grown(old(ring), proc.pid),
          tasks := old(View()).tasks[proc.pid := proc.Value()])
    {
      StillLinked(proc);
      OneMoreTask(proc);
      SameWaiters(proc);
    }

    /** So there is one more task, and it is where AddTask puts it. */
    method Join(proc: Proc)
      requires Good() && Sched.Valid(View()) && proc.pid !in byPid && proc.next == proc
      modifies `procs, `ring, `byPid, byPid.Values`next, proc`next, proc`prev
      ensures Good()
      ensures View() == old(View()).(ring := Grown(old(ring), proc.pid),
          tasks := old(View()).tasks[proc.pid := old(proc.Value())])
    {
      Link(proc);
      NowJoined(proc);
    }

    /** do_spawn; memory tells how far it gets. */
    method DoSpawn(entry: Regs, memory: Memory) returns (proc: Proc?)
      requires Good() && Sched.Valid(View())
      modifies `nextPid
      ensures Good() && (proc == null <==> memory != Enough)
      ensures View() == old(View()).(lastPid := nextPid)
      ensures nextPid == old(nextPid) + if memory == NothingFits then 0 else 1
      ensures proc != null ==>
        fresh(proc) && proc.pid == nextPid && proc.pid !in byPid && proc.next == proc
        && proc.Value() == NewTask(entry)
    {
      proc := null;
      if memory == NothingFits {
        return;
      }
      assert nextPid + 1 !in View().tasks;
      nextPid := nextPid + 1;
      if memory == Enough {
        proc := new Proc(nextPid, entry);
      }
      FlagsOnly();
    }

    /** spawn */
    method Spawn(entry: Regs, memory: Memory) returns (proc: Proc?)
      requires Good() && Sched.Valid(View())
      modifies `nextPid, `procs, `ring, `byPid, byPid.Values`next
      ensures Good() && (proc == null <==> memory != Enough)
      ensures View() == match memory
                        case NothingFits => old(View())
                        case ProcOnlyFits => old(View()).(lastPid := nextPid)
                        case Enough => AddTask(old(View()), entry)
    {
      ghost var k := View();
      proc := DoSpawn(entry, memory);
      if proc != null {
        BumpedValid(k);
        Join(proc);
        AddedAs(k, nextPid, entry);
      }
    }
  }

  /** The ring with p linked in behind its head, or p alone. */
  function Grown(ring: seq<Pid>, p: Pid): seq<Pid> {
    if ring == [] then [p] else [ring[0], p] + ring[1..]
  }

  lemma AddedAs(k: Kernel, p: Pid, entry: Regs)
    requires p == k.lastPid + 1
    ensures AddTask(k, entry) == k.(lastPid := p, ring := Grown(k.ring, p), tasks := k.tasks[p := NewTask(entry)])
  {
  }

  /** A number taken and not used leaves the ring as good as it was. */
  lemma BumpedValid(k: Kernel)
    requires Sched.Valid(k)
    ensures Sched.Valid(k.(lastPid := k.lastPid + 1))
  {
  }

  /** What do_spawn finds: no memory at all, memory for the process record only, or all it needs. */
  datatype Memory = NothingFits | ProcOnlyFits | Enough

  /** list_add_after. The old successor's prev pointer is not brought up to date. */
  method ListAddAfter(list: Proc, add: Proc)
    modifies list`next, add`next, add`prev
    ensures list != add ==> list.next == add && add.next == old(list.next) && add.prev == list
  {
    add.next := list.next;
    add.prev := list;
    list.next := add;
  }

  /** Scan, for use where the walk is known to stay among the tasks. */
  ghost function ScansTo(tasks: map<Pid, Task>, order: seq<Pid>, clk: nat): (map<Pid, Task>, Option<Pid>) {
    if forall p :: p in order ==> p in tasks then Scan(tasks, order, clk) else (tasks, None)
  }

  lemma SettledIs(k: Kernel)
    requires Sched.Valid(k) && k.ring != []
    ensures var result := ScansTo(Demote(k).tasks, ScanOrder(k), k.clk);
            && Settled(k) == (result.0, if result.1.Some? then result.1.value else k.idle)
            && Settled(k).1 in k.tasks
  {
    OrderMembers(k);
  }

  lemma ScanOne(tasks: map<Pid, Task>, order: seq<Pid>, i: nat, clk: nat)
    requires i < |order| && forall p :: p in order ==> p in tasks
    ensures var now := tasks[order[i] := Sched.CheckTimers(tasks[order[i]], clk)];
            ScansTo(tasks, order[i..], clk) == if Eligible(tasks[order[i]], clk) then (now, Some(order[i]))
                                               else ScansTo(now, order[i + 1..], clk)
  {
    assert order[i..][1..] == order[i + 1..];
  }

  function Notified(t: Task, bits: set<nat>): Task {
    if t.mask * bits != {} then t.(state := Run, mask := t.mask - bits) else t
  }

  /** SetEvents, for use where the walk is known to stay among the tasks. */
  ghost function SetsTo(tasks: map<Pid, Task>, others: seq<Pid>, bits: set<nat>): map<Pid, Task> {
    if forall p :: p in others ==> p in tasks then SetEvents(tasks, others, bits) else tasks
  }

  lemma SetOne(tasks: map<Pid, Task>, others: seq<Pid>, i: nat, bits: set<nat>)
    requires i < |others| && forall p :: p in others ==> p in tasks
    ensures SetsTo(tasks, others[i..], bits)
        == SetsTo(tasks[others[i] := Notified(tasks[others[i]], bits)], others[i + 1..], bits)
  {
    assert others[i..][1..] == others[i + 1..];
    assert others[i..] == [others[i]] + others[i + 1..];
  }

  ghost function AfterWalk(k: Kernel, bits: set<nat>): Kernel {
    if OthersAreTasks(k) then k.(tasks := SetEvents(k.tasks, Others(k), bits)) else k
  }

  lemma HitOne(tasks: map<Pid, Task>, others: seq<Pid>, i: nat, bits: set<nat>)
    requires i < |others| && others[i] in tasks
    ensures Hit(tasks, others[..i + 1], bits) <==> Hit(tasks, others[..i], bits) || tasks[others[i]].mask * bits != {}
  {
    assert others[..i + 1] == others[..i] + [others[i]];
  }

  ghost predicate OthersAreTasks(k: Kernel) {
    (k.cur == k.idle || k.cur in k.ring) && forall p :: p in Others(k) ==> p in k.tasks
  }

  /** Everyone waiting for c is a task. */
  ghost predicate Woken(k: Kernel, c: nat) {
    c in k.queues && forall p :: p in k.queues[c].waiting ==> p in k.tasks
  }

  ghost function WithQueue(k: Kernel, c: nat, waiting: seq<Pid>): Kernel
    requires c in k.queues
  {
    k.(queues := k.queues[c := k.queues[c].(waiting := waiting)])
  }

  lemma SameQueue(k: Kernel, c: nat)
    requires c in k.queues
    ensures WithQueue(k, c, k.queues[c].waiting) == k
  {
  }

  /** cur at the end of the queue, if there is room. */
  ghost function Joined(k: Kernel, c: nat): Kernel
    requires c in k.queues
  {
    var q := k.queues[c];
    if |q.waiting| < q.size then WithQueue(k, c, q.waiting + [k.cur]) else k
  }

  /** The head of the queue woken, if there is one. */
  ghost function FirstWoken(k: Kernel, c: nat): Kernel
    requires c in k.queues
  {
    var q := k.queues[c];
    if q.waiting == [] || q.waiting[0] !in k.tasks then k
    else
      var p := q.waiting[0];
      WithQueue(k, c, q.waiting[1..]).(tasks := k.tasks[p := k.tasks[p].(state := Run)])
  }

  /** Waking everyone who waits for c in now is what waking everyone in k comes to. */
  ghost predicate Wakes(now: Kernel, c: nat, k: Kernel) {
    Woken(k, c) && Woken(now, c) && Sched.SysWake(now, c) == Sched.SysWake(k, c)
  }

  /** Waking the head first does not change what waking all comes to. */
  lemma FirstOfAll(now: Kernel, c: nat, k: Kernel)
    requires Wakes(now, c, k)
    ensures Wakes(FirstWoken(now, c), c, k)
    ensures now.queues[c].waiting == [] ==> Sched.SysWake(k, c) == now == FirstWoken(now, c)
  {
    assert now.queues[c := now.queues[c].(waiting := [])]
        == FirstWoken(now, c).queues[c := now.queues[c].(waiting := [])];
  }

  /** Pids of a queue's processes. */
  ghost function Pids(s: seq<Proc?>): (r: seq<Pid>)
    ensures |r| == |s|
  {
    seq(|s|, i requires 0 <= i < |s| => if s[i] == null then 0 else s[i].pid)
  }

  lemma PidsLast(s: seq<Proc?>, p: Proc)
    ensures Pids(s + [p]) == Pids(s) + [p.pid]
  {
  }

  lemma PidsFirst(s: seq<Proc?>)
    requires s != []
    ensures Pids(s[1..]) == Pids(s)[1..]
  {
  }
}
