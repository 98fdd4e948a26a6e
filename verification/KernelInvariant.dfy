/** Every atomic step keeps the kernel invariant; a timer tick does so exactly
  * when it is safe.
  */
module KernelInvariant {
  import opened Counting
  import opened Wrappers
  import opened KernelTypes
  import opened KernelSpec

  // ------------------------------------------------------------- scheduling

  /** scheduler() finds the head of the first non-empty queue, and none only
    * when all queues are empty.
    */
  lemma {:induction false} TopReadyIsFirst(ready: seq<seq<TaskId>>, from: nat)
    requires from <= |ready|
    ensures TopReady(ready, from) == None ==> forall p | from <= p < |ready| :: ready[p] == []
    ensures TopReady(ready, from).Some? ==>
              exists p | from <= p < |ready| ::
                && ready[p] != []
                && ready[p][0] == TopReady(ready, from).value
                && forall h | from <= h < p :: ready[h] == []
    decreases |ready| - from
  {
    if from < |ready| && ready[from] == [] {
      TopReadyIsFirst(ready, from + 1);
    }
  }

  /** While a task runs and no dispatch is due, it is the scheduled task, it
    * heads the queue of its priority, and every queue before it is empty.
    */
  lemma RunningTaskHeadsItsQueue(s: State)
    requires Inv(s) && !s.dispatching && !s.pending
    ensures s.curr == s.scheduled && s.curr.Some?
    ensures var q := s.ready[s.tasks[s.curr.value].pri]; q != [] && q[0] == s.curr.value
    ensures forall h | 0 <= h < s.tasks[s.curr.value].pri :: s.ready[h] == []
    ensures s.tasks[s.curr.value].state == Ready
  {
    TopReadyIsFirst(s.ready, 0);
    var p :| 0 <= p < MAX_TASK_PRI && s.ready[p] != [] && s.ready[p][0] == s.curr.value &&
      forall h | 0 <= h < p :: s.ready[h] == [];
    assert s.curr.value in s.ready[p];
  }

  ghost predicate CurrentOk(s: State)
    requires Shape(s)
  {
    if s.dispatching then s.curr == None && !s.pending
    else
      && s.curr.Some?
      && 1 <= s.tasks[s.curr.value].pri < MAX_TASK_PRI
      && s.tasks[s.curr.value].state != NonExist
  }

  lemma ScheduleSettles(s: State)
    requires Lists(s) && CurrentOk(s)
    ensures Inv(Schedule(s))
  {
    var s' := Schedule(s);
    assert forall t: TaskId :: TaskOk(s, t) ==> TaskOk(s', t);
  }

  // ------------------------------------------------------- changes of queues

  /** Values other than state, priority and wait factor do not matter to the
    * queues.
    */
  lemma SameStructure(s: State, s': State)
    requires Lists(s) && Shape(s')
    requires s'.ready == s.ready && s'.wait == s.wait
    requires forall t: TaskId :: s'.tasks[t] == s.tasks[t].(
        wakeups := s'.tasks[t].wakeups, time := s'.tasks[t].time, err := s'.tasks[t].err,
        pattern := s'.tasks[t].pattern, mode := s'.tasks[t].mode,
        delivered := s'.tasks[t].delivered, request := s'.tasks[t].request)
    requires forall t: TaskId :: s'.tasks[t].time <= s.tasks[t].time
    ensures Lists(s')
  {
    forall t: TaskId
      ensures TaskOk(s', t)
    {
      assert TaskOk(s, t);
    }
  }

  lemma BlockKeepsLists(s: State, factor: WaitFactor, time: nat)
    requires Lists(s) && factor != NoFactor && time <= FOREVER && s.curr.Some?
    requires s.tasks[s.curr.value].state == Ready
    requires var p := s.tasks[s.curr.value].pri;
             0 <= p < MAX_TASK_PRI && s.ready[p] != [] && s.ready[p][0] == s.curr.value
    ensures Lists(Block(s, factor, time))
  {
    var s' := Block(s, factor, time);
    var t := s.curr.value;
    var p := s.tasks[t].pri;
    assert s.ready[p] == [t] + s'.ready[p];
    forall u: TaskId
      ensures TaskOk(s', u)
    {
      assert TaskOk(s, u);
    }
  }

  lemma RemoveAtElements(q: seq<TaskId>, k: nat)
    requires Distinct(q) && k < |q|
    ensures Distinct(RemoveAt(q, k))
    ensures forall u: TaskId :: u in RemoveAt(q, k) <==> u in q && u != q[k]
  {
    var r := RemoveAt(q, k);
    forall u: TaskId | u in q && u != q[k]
      ensures u in r
    {
      var i :| 0 <= i < |q| && q[i] == u;
      assert if i < k then r[i] == u else r[i - 1] == u;
    }
  }

  lemma ReleaseKeepsLists(s: State, k: nat)
    requires Lists(s) && k < |s.wait|
    ensures TaskOk(s, s.wait[k])
    ensures Lists(Release(s, k))
  {
    var t := s.wait[k];
    assert TaskOk(s, t);
    var s' := Release(s, k);
    RemoveAtElements(s.wait, k);
    forall u: TaskId
      ensures TaskOk(s', u)
    {
      assert TaskOk(s, u);
    }
  }

  // ----------------------------------------------------------- system calls

  lemma CreateTaskKeepsInv(s: State, attr: bv32, pri: int, stackSize: int)
    requires Inv(s)
    ensures Inv(CreateTaskStep(s, attr, pri, stackSize).s)
  {
    var s' := CreateTaskStep(s, attr, pri, stackSize).s;
    assert forall t: TaskId :: TaskOk(s, t) ==> TaskOk(s', t);
  }

  lemma StartTaskKeepsInv(s: State, id: int)
    requires Inv(s) && CallEnabled(s, StartTask(id))
    ensures Inv(StartTaskStep(s, id).s)
  {
    if ValidId(id, MAX_TASKS) && s.tasks[id - 1].state == Dormant {
      var t: TaskId := id - 1;
      assert TaskOk(s, t);
      var p := s.tasks[t].pri;
      var s' := s.(tasks := s.tasks[t := s.tasks[t].(state := Ready)],
                   ready := s.ready[p := s.ready[p] + [t]]);
      forall u: TaskId
        ensures TaskOk(s', u)
      {
        assert TaskOk(s, u);
      }
      ScheduleSettles(s');
    }
  }

  lemma ExitTaskKeepsInv(s: State)
    requires Inv(s) && CallEnabled(s, ExitTask)
    ensures Inv(ExitTaskStep(s).s)
  {
    RunningTaskHeadsItsQueue(s);
    var t := s.curr.value;
    var p := s.tasks[t].pri;
    var s' := s.(tasks := s.tasks[t := s.tasks[t].(state := Dormant)],
                 ready := s.ready[p := RemoveTop(s.ready[p])]);
    assert s.ready[p] == [t] + s'.ready[p];
    forall u: TaskId
      ensures TaskOk(s', u)
    {
      assert TaskOk(s, u);
    }
    ScheduleSettles(s');
  }

  lemma BlockingKeepsInv(s: State, factor: WaitFactor, time: nat)
    requires Inv(s) && !s.dispatching && !s.pending && factor != NoFactor && time <= FOREVER
    ensures Inv(Schedule(Block(s, factor, time)))
  {
    RunningTaskHeadsItsQueue(s);
    BlockKeepsLists(s, factor, time);
    ScheduleSettles(Block(s, factor, time));
  }

  lemma ReleasingKeepsInv(s: State, k: nat)
    requires Lists(s) && CurrentOk(s) && k < |s.wait|
    ensures TaskOk(s, s.wait[k])
    ensures Inv(Schedule(Release(s, k)))
  {
    ReleaseKeepsLists(s, k);
    ScheduleSettles(Release(s, k));
  }

  lemma DataChangeKeepsInv(s: State, s': State)
    requires Inv(s) && Shape(s')
    requires s' == s.(tasks := s'.tasks, flags := s'.flags, sems := s'.sems)
    requires forall t: TaskId :: s'.tasks[t] == s.tasks[t].(
        wakeups := s'.tasks[t].wakeups, time := s'.tasks[t].time, err := s'.tasks[t].err,
        pattern := s'.tasks[t].pattern, mode := s'.tasks[t].mode,
        delivered := s'.tasks[t].delivered, request := s'.tasks[t].request)
    requires forall t: TaskId :: s'.tasks[t].time == s.tasks[t].time
    ensures Inv(s')
  {
    SameStructure(s, s');
  }

  lemma SleepTaskKeepsInv(s: State, timeout: int)
    requires Inv(s) && CallEnabled(s, SleepTask(timeout))
    ensures Inv(SleepTaskStep(s, timeout).s)
  {
    if s.tasks[s.curr.value].wakeups > 0 {
      DataChangeKeepsInv(s, SleepTaskStep(s, timeout).s);
    } else {
      BlockingKeepsInv(s, Sleep, WaitTime(timeout));
    }
  }

  lemma WakeupTaskKeepsInv(s: State, id: int)
    requires Inv(s)
    ensures Inv(WakeupTaskStep(s, id).s)
  {
    if ValidId(id, MAX_TASKS) {
      var t: TaskId := id - 1;
      assert TaskOk(s, t);
      if s.tasks[t].state == Wait && s.tasks[t].factor == Sleep {
        ReleasingKeepsInv(s, IndexOf(s.wait, t));
      } else {
        DataChangeKeepsInv(s, WakeupTaskStep(s, id).s);
      }
    }
  }

  lemma DeliveringKeepsInv(s: State, k: nat, pattern: Bits, flags: seq<FlagBlock>)
    requires Inv(s) && k < |s.wait| && |flags| == MAX_FLAGS
    ensures TaskOk(s, s.wait[k])
    ensures Inv(Schedule(Delivered(s, k, pattern).(flags := flags)))
  {
    ReleaseKeepsLists(s, k);
    var s' := Delivered(s, k, pattern).(flags := flags);
    SameStructure(Release(s, k), s');
    ScheduleSettles(s');
  }

  lemma TakePatternKeepsInv(s: State, id: int, pattern: Bits)
    requires Inv(s) && ValidId(id, MAX_FLAGS)
    ensures Inv(TakePattern(s, id, pattern))
  {
    var e := First(s, PatternSet(pattern), 0);
    var s' := TakePattern(s, id, pattern);
    if e == |s.wait| {
      DataChangeKeepsInv(s, s');
    } else {
      DeliveringKeepsInv(s, e, pattern, s'.flags);
    }
  }

  lemma SetFlagKeepsInv(s: State, id: int, bits: Bits)
    requires Inv(s)
    ensures Inv(SetFlagStep(s, id, bits).s)
  {
    if ValidId(id, MAX_FLAGS) {
      TakePatternKeepsInv(s, id, With(s.flags[id - 1].pattern, bits));
    }
  }

  lemma CreateFlagKeepsInv(s: State, initial: Bits)
    requires Inv(s)
    ensures Inv(CreateFlagStep(s, initial).s)
  {
    DataChangeKeepsInv(s, CreateFlagStep(s, initial).s);
  }

  lemma ClearFlagKeepsInv(s: State, id: int, bits: Bits)
    requires Inv(s)
    ensures Inv(ClearFlagStep(s, id, bits).s)
  {
    DataChangeKeepsInv(s, ClearFlagStep(s, id, bits).s);
  }

  lemma CreateSemaphoreKeepsInv(s: State, initialValue: int, maxValue: int)
    requires Inv(s)
    ensures Inv(CreateSemaphoreStep(s, initialValue, maxValue).s)
  {
    DataChangeKeepsInv(s, CreateSemaphoreStep(s, initialValue, maxValue).s);
  }

  lemma WaitFlagKeepsInv(s: State, id: int, bits: Bits, mode: Bits, timeout: int)
    requires Inv(s) && CallEnabled(s, WaitFlag(id, bits, mode, timeout))
    ensures Inv(WaitFlagStep(s, id, bits, mode, timeout).s)
  {
    if ValidId(id, MAX_FLAGS) && s.flags[id - 1].inUse {
      var t := s.curr.value;
      var pattern := s.flags[id - 1].pattern;
      if CheckFlag(pattern, bits, mode) {
        DataChangeKeepsInv(s, WaitFlagStep(s, id, bits, mode, timeout).s);
      } else if timeout != TMO_POL {
        var asked := s.(tasks := s.tasks[t := s.tasks[t].(pattern := bits, mode := mode)]);
        DataChangeKeepsInv(s, asked);
        BlockingKeepsInv(asked, Flag, WaitTime(timeout));
      }
    }
  }

  lemma SignalSemaphoreKeepsInv(s: State, id: int, units: int)
    requires Inv(s)
    ensures Inv(SignalSemaphoreStep(s, id, units).s)
  {
    if ValidId(id, MAX_SEMAPHORES) && s.sems[id - 1].inUse {
      var value := s.sems[id - 1].value + units;
      var e := First(s, UnitsBack, 0);
      if e < |s.wait| {
        var s' := WithValue(s, id, value - s.tasks[s.wait[e]].request);
        DataChangeKeepsInv(s, s');
        ReleasingKeepsInv(s', e);
      }
      DataChangeKeepsInv(s, WithValue(s, id, value));
    }
  }

  lemma WaitSemaphoreKeepsInv(s: State, id: int, units: int, timeout: int)
    requires Inv(s) && CallEnabled(s, WaitSemaphore(id, units, timeout))
    ensures Inv(WaitSemaphoreStep(s, id, units, timeout).s)
  {
    if ValidId(id, MAX_SEMAPHORES) && s.sems[id - 1].inUse {
      var t := s.curr.value;
      if s.sems[id - 1].value >= units {
        DataChangeKeepsInv(s, WaitSemaphoreStep(s, id, units, timeout).s);
      } else if timeout != TMO_POL {
        var asked := s.(tasks := s.tasks[t := s.tasks[t].(request := units)]);
        DataChangeKeepsInv(s, asked);
        BlockingKeepsInv(asked, Semaphore, WaitTime(timeout));
      }
    }
  }

  /** No system call leaves the queues, states and dispatcher inconsistent. */
  lemma CallKeepsInv(s: State, call: Call)
    requires Inv(s) && CallEnabled(s, call)
    ensures Inv(Perform(s, call).s)
  {
    match call
    case CreateTask(attr, pri, stackSize) => CreateTaskKeepsInv(s, attr, pri, stackSize);
    case StartTask(id) => StartTaskKeepsInv(s, id);
    case ExitTask => ExitTaskKeepsInv(s);
    case DelayTask(delay) => BlockingKeepsInv(s, Delay, DelayTime(delay));
    case SleepTask(timeout) => SleepTaskKeepsInv(s, timeout);
    case WakeupTask(id) => WakeupTaskKeepsInv(s, id);
    case CreateFlag(initial) => CreateFlagKeepsInv(s, initial);
    case SetFlag(id, bits) => SetFlagKeepsInv(s, id, bits);
    case ClearFlag(id, bits) => ClearFlagKeepsInv(s, id, bits);
    case WaitFlag(id, bits, mode, timeout) => WaitFlagKeepsInv(s, id, bits, mode, timeout);
    case CreateSemaphore(v, m) => CreateSemaphoreKeepsInv(s, v, m);
    case SignalSemaphore(id, units) => SignalSemaphoreKeepsInv(s, id, units);
    case WaitSemaphore(id, units, timeout) => WaitSemaphoreKeepsInv(s, id, units, timeout);
  }

  // -------------------------------------------------------- ticks, dispatches

  lemma ExpireKeepsLists(s: State)
    requires Lists(s)
    ensures Lists(Expire(s))
  {
    var e := First(s, TimedOut, 0);
    var aged := Age(s, e);
    SameStructure(s, aged);
    if e < |s.wait| {
      var t := s.wait[e];
      var coded := aged.(tasks := aged.tasks[t := aged.tasks[t].(err := TimeoutCode(aged.tasks[t].factor))]);
      SameStructure(aged, coded);
      ReleaseKeepsLists(coded, e);
    }
  }

  /** A tick keeps the invariant exactly when the running task heads its queue,
    * or that queue is too short to rotate, or nothing runs. In every other case
    * the rotation drops the READY task at the head of the queue from all queues.
    */
  lemma TickKeepsInvIffSafe(s: State)
    requires Inv(s)
    ensures Inv(TickStep(s)) <==> TickSafe(s)
    ensures !TickSafe(s) ==>
              exists lost: TaskId ::
                && TickStep(s).tasks[lost].state == Ready
                && (forall p | 0 <= p < MAX_TASK_PRI :: lost !in TickStep(s).ready[p])
  {
    var x := Expire(s);
    ExpireKeepsLists(s);
    ExpireKeepsPriorities(s);
    var r := Rotate(x);
    if s.dispatching {
      ScheduleSettles(x);
    } else {
      var t := s.curr.value;
      var p := s.tasks[t].pri;
      if |x.ready[p]| < 2 {
        assert x.tasks[t].state != NonExist by { ExpireKeepsExistence(s, t); }
        ScheduleSettles(x);
      } else if x.ready[p][0] == t {
        RotateKeepsLists(x);
        assert x.tasks[t].state != NonExist by { ExpireKeepsExistence(s, t); }
        ScheduleSettles(r);
      } else {
        var lost := x.ready[p][0];
        assert lost in x.ready[p];
        assert Distinct(x.ready[p]) && x.tasks[lost].pri == p;
        assert TickStep(s).ready == r.ready && TickStep(s).tasks == x.tasks;
        forall h | 0 <= h < MAX_TASK_PRI
          ensures lost !in TickStep(s).ready[h]
        {
          if h == p {
            assert lost !in x.ready[p][1..] && lost != t;
          } else {
            assert r.ready[h] == x.ready[h];
          }
        }
        assert !TaskOk(TickStep(s), lost);
      }
    }
  }

  lemma ExpireKeepsExistence(s: State, t: TaskId)
    requires Lists(s)
    ensures s.tasks[t].state != NonExist ==> Expire(s).tasks[t].state != NonExist
  {}

  lemma RotateKeepsLists(s: State)
    requires Lists(s) && !s.dispatching && s.curr.Some?
    requires var p := s.tasks[s.curr.value].pri;
             0 <= p < MAX_TASK_PRI && |s.ready[p]| >= 2 && s.ready[p][0] == s.curr.value
    ensures Lists(Rotate(s))
  {
    var s' := Rotate(s);
    var t := s.curr.value;
    var p := s.tasks[t].pri;
    assert s.ready[p] == [t] + s.ready[p][1..];
    assert forall u: TaskId :: u in s'.ready[p] <==> u in s.ready[p];
    forall u: TaskId
      ensures TaskOk(s', u)
    {
      assert TaskOk(s, u);
    }
  }

  /** A tick that finds no dispatch due is always safe. */
  lemma TickIsSafeUnlessDispatchIsDue(s: State)
    requires Inv(s) && !s.pending
    ensures TickSafe(s)
  {
    if !s.dispatching {
      RunningTaskHeadsItsQueue(s);
      ExpireKeepsPriorities(s);
    }
  }

  lemma DispatchKeepsInv(s: State)
    requires Inv(s) && DispatchEnabled(s)
    ensures Inv(DispatchStep(s))
  {
    var s' := DispatchStep(s);
    assert forall t: TaskId :: TaskOk(s, t) ==> TaskOk(s', t);
    TopReadyIsFirst(s.ready, 0);
    if s.scheduled.Some? {
      var p :| 0 <= p < MAX_TASK_PRI && s.ready[p] != [] && s.ready[p][0] == s.scheduled.value;
      assert s.scheduled.value in s.ready[p];
      assert TaskOk(s, s.scheduled.value);
    }
  }
}
