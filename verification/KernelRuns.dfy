/** Runs of the kernel: any interleaving of system calls, timer ticks and
  * dispatches, from the state after the first dispatch.
  */
module KernelRuns {
  import opened Wrappers
  import opened KernelTypes
  import opened KernelSpec
  import opened KernelInvariant

  datatype Step = Invoke(call: Call) | Tick | Dispatch

  ghost predicate Enabled(s: State, step: Step)
    requires Inv(s)
  {
    match step
    case Invoke(call) => CallEnabled(s, call)
    case Tick => TickSafe(s)
    case Dispatch => DispatchEnabled(s)
  }

  ghost function Exec(s: State, step: Step): (s': State)
    requires Inv(s) && Enabled(s, step)
    ensures Inv(s')
  {
    match step
    case Invoke(call) => CallKeepsInv(s, call); Perform(s, call).s
    case Tick => TickKeepsInvIffSafe(s); TickStep(s)
    case Dispatch => DispatchKeepsInv(s); DispatchStep(s)
  }

  /** Each step of the run is enabled where it is taken. */
  ghost predicate Legal(s: State, steps: seq<Step>)
    requires Inv(s)
    decreases |steps|
  {
    steps == [] || (Enabled(s, steps[0]) && Legal(Exec(s, steps[0]), steps[1..]))
  }

  ghost function Run(s: State, steps: seq<Step>): (s': State)
    requires Inv(s) && Legal(s, steps)
    ensures Inv(s')
    decreases |steps|
  {
    if steps == [] then s else Run(Exec(s, steps[0]), steps[1..])
  }

  const UnusedTask := Task(NonExist, 0, 0, NoFactor, 0, 0, NoBits, NoBits, NoBits, 0)

  /** The initial task, at priority 1, runs alone. */
  function InitialState(): State {
    State(
      seq(MAX_TASKS, i => if i == 0 then UnusedTask.(state := Ready, pri := 1) else UnusedTask),
      seq(MAX_TASK_PRI, p => if p == 1 then [0] else []),
      [],
      Some(0),
      Some(0),
      false,
      false,
      seq(MAX_FLAGS, _ => FlagBlock(false, NoBits)),
      seq(MAX_SEMAPHORES, _ => SemBlock(false, 0, 0)))
  }

  lemma InitialStateIsConsistent()
    ensures Inv(InitialState())
    ensures var s := InitialState();
      && s.curr == Some(0) && s.tasks[0].state == Ready && s.tasks[0].pri == 1
      && (forall t: TaskId | t > 0 :: s.tasks[t].state == NonExist)
      && (forall t: TaskId :: s.tasks[t].wakeups == 0)
      && s.wait == [] && s.ready[1] == [0] && (forall p | 0 <= p < 16 && p != 1 :: s.ready[p] == [])
      && !s.dispatching && !s.pending
      && forall i | 0 <= i < 8 :: !s.flags[i].inUse && !s.sems[i].inUse
  {
    var s := InitialState();
    assert s.ready[0] == [] && s.ready[1] == [0];
    assert forall t: TaskId :: TaskOk(s, t);
  }

  /** Where all runs start. */
  function Boot(): (s: State)
    ensures Inv(s)
  {
    InitialStateIsConsistent();
    InitialState()
  }

  /** Whatever happens, no task is in two queues or twice in one; the ready
    * queue of its priority holds a task exactly when it is READY, the wait queue
    * exactly when it is in WAIT, and a task in neither state is in no queue.
    */
  lemma QueuesPartitionTasks(steps: seq<Step>, t: TaskId)
    requires Legal(Boot(), steps)
    ensures var s := Run(Boot(), steps);
      && (forall p | 0 <= p < MAX_TASK_PRI ::
            t in s.ready[p] <==> s.tasks[t].state == Ready && s.tasks[t].pri == p)
      && (t in s.wait <==> s.tasks[t].state == Wait)
      && (forall p, i, j | 0 <= p < MAX_TASK_PRI && 0 <= i < j < |s.ready[p]| ::
            s.ready[p][i] != s.ready[p][j])
      && (forall i, j | 0 <= i < j < |s.wait| :: s.wait[i] != s.wait[j])
  {
    var s := Run(Boot(), steps);
    assert TaskOk(s, t);
  }

  /** Leaving the ready queues takes exactly the caller out of them. */
  lemma BlockingRemovesTheCaller(s: State, factor: WaitFactor, time: nat)
    requires Inv(s) && !s.dispatching && !s.pending
    ensures var p := s.tasks[s.curr.value].pri;
      && 0 <= p < MAX_TASK_PRI
      && s.ready[p] == [s.curr.value] + Block(s, factor, time).ready[p]
      && (forall h | 0 <= h < MAX_TASK_PRI && h != p ::
            Block(s, factor, time).ready[h] == s.ready[h])
      && ExitTaskStep(s).s.ready == Block(s, factor, time).ready
  {
    RunningTaskHeadsItsQueue(s);
  }

  /** The window between a blocking call and its dispatch: when two other tasks
    * share the caller's priority, a tick that gets in first loses one of them.
    */
  lemma TickBeforeDispatchLosesATask(s: State, delay: nat)
    requires Inv(s) && CallEnabled(s, DelayTask(delay)) && delay > 0
    requires |s.ready[s.tasks[s.curr.value].pri]| >= 3
    ensures Enabled(s, Invoke(DelayTask(delay)))
    ensures !TickSafe(Exec(s, Invoke(DelayTask(delay))))
  {
    RunningTaskHeadsItsQueue(s);
    var s' := Exec(s, Invoke(DelayTask(delay)));
    var p := s.tasks[s.curr.value].pri;
    ExpireKeepsPriorities(s');
    assert s'.ready[p] == s.ready[p][1..];
    assert Expire(s').ready[p][..|s'.ready[p]|] == s'.ready[p];
    assert Expire(s').ready[p][0] == s.ready[p][1];
  }

  /** sk_create_task without attributes. */
  lemma CreatePlain(s: State, pri: int)
    requires Shape(s) && FreeTask(s, 0) < MAX_TASKS && 1 <= pri <= MAX_TASK_PRI
    ensures var i := FreeTask(s, 0);
      CreateTaskStep(s, 0, pri, 0)
      == Outcome(s.(tasks := s.tasks[i := s.tasks[i].(state := Dormant, pri := pri)]), i + 1)
  {
    NoAttributes();
  }

  lemma NoAttributes()
    ensures 0 as bv32 & !(TA_RNG3 | TA_HLNG | TA_USERBUF) == 0 && 0 as bv32 & TA_USERBUF == 0
  {}

  /** One task more of priority 1 is created and started. */
  lemma OneMoreReady(s: State, i: nat) returns (s': State)
    requires Inv(s) && !s.dispatching && !s.pending && s.curr == Some(0)
    requires FreeTask(s, 0) == i < MAX_TASKS && s.tasks[0].pri == 1
    ensures var (create, start) := (Invoke(CreateTask(0, 1, 0)), Invoke(StartTask(i + 1)));
      && Legal(s, [create, start]) && Run(s, [create, start]) == s'
    ensures Inv(s') && !s'.dispatching && !s'.pending && s'.curr == Some(0) && s'.tasks[0].pri == 1
    ensures s'.ready[1] == s.ready[1] + [i]
    ensures forall t: TaskId | t > i :: s'.tasks[t] == s.tasks[t]
    ensures i + 1 < MAX_TASKS && s.tasks[i + 1].state == NonExist ==> FreeTask(s', 0) == i + 1
  {
    var steps := [Invoke(CreateTask(0, 1, 0)), Invoke(StartTask(i + 1))];
    CreatePlain(s, 1);
    var s1 := Exec(s, steps[0]);
    s' := Started(s1, i);
    assert forall t: TaskId | t <= i :: s'.tasks[t].state != NonExist;
    hide Exec, Enabled, Inv, Boot;
    assert steps[1..] == [steps[1]] && steps[1..][1..] == [];
    assert Legal(s', []) && Run(s', []) == s';
    assert Legal(s1, steps[1..]) && Run(s1, steps[1..]) == s';
  }

  lemma Started(s: State, i: TaskId) returns (s': State)
    requires Inv(s) && !s.dispatching && !s.pending && s.curr == Some(0) && s.tasks[0].pri == 1
    requires s.tasks[i].state == Dormant && s.tasks[i].pri == 1
    ensures Enabled(s, Invoke(StartTask(i + 1))) && s' == Exec(s, Invoke(StartTask(i + 1)))
    ensures !s'.dispatching && !s'.pending && s'.curr == Some(0)
    ensures s'.ready[1] == s.ready[1] + [i]
    ensures s'.tasks == s.tasks[i := s.tasks[i].(state := Ready)]
  {
    RunningTaskHeadsItsQueue(s);
    assert TaskOk(s, i);
    s' := Exec(s, Invoke(StartTask(i + 1)));
    assert TopReady(s'.ready, 0) == TopReady(s'.ready, 1) == Some(0);
  }

  lemma {:induction false} RunSplits(s: State, a: seq<Step>, b: seq<Step>)
    requires Inv(s) && Legal(s, a) && Legal(Run(s, a), b)
    ensures Legal(s, a + b) && Run(s, a + b) == Run(Run(s, a), b)
    decreases |a|
  {
    hide Exec, Enabled, Inv;
    if a == [] {
      assert a + b == b;
    } else {
      assert (a + b)[0] == a[0] && (a + b)[1..] == a[1..] + b;
      RunSplits(Exec(s, a[0]), a[1..], b);
    }
  }

  lemma OneMoreStep(s: State, a: seq<Step>, step: Step)
    requires Inv(s) && Legal(s, a) && Enabled(Run(s, a), step)
    ensures Legal(s, a + [step]) && Run(s, a + [step]) == Exec(Run(s, a), step)
  {
    assert [step][1..] == [];
    RunSplits(s, a, [step]);
  }

  lemma InitialTaskAlone()
    ensures var s := Boot();
      && s.curr == Some(0) && !s.dispatching && !s.pending && s.tasks[0].pri == 1
      && FreeTask(s, 0) == 1 && s.tasks[2].state == NonExist && s.ready[1] == [0]
  {
    hide Inv;
  }

  /** The initial task and two more of its priority. */
  lemma ThreeReady() returns (steps: seq<Step>)
    ensures Legal(Boot(), steps)
    ensures var s := Run(Boot(), steps);
      && !s.dispatching && !s.pending && s.curr == Some(0) && s.tasks[0].pri == 1
      && s.ready[1] == [0, 1, 2]
  {
    hide Boot, FreeTask, Exec, Enabled, Legal, Run;
    InitialTaskAlone();
    var s1 := OneMoreReady(Boot(), 1);
    var s2 := OneMoreReady(s1, 2);
    var create := Invoke(CreateTask(0, 1, 0));
    RunSplits(Boot(), [create, Invoke(StartTask(2))], [create, Invoke(StartTask(3))]);
    steps := [create, Invoke(StartTask(2))] + [create, Invoke(StartTask(3))];
  }

  /** From there a delay leads to a state in which a tick loses a task. */
  lemma LosingTickIsReached() returns (steps: seq<Step>)
    ensures Legal(Boot(), steps) && !TickSafe(Run(Boot(), steps))
    ensures exists lost: TaskId :: var s := TickStep(Run(Boot(), steps));
              s.tasks[lost].state == Ready && forall p | 0 <= p < MAX_TASK_PRI :: lost !in s.ready[p]
  {
    hide Boot, Legal, Run, Exec, TickSafe, TickStep;
    var before := ThreeReady();
    TickBeforeDispatchLosesATask(Run(Boot(), before), 10);
    OneMoreStep(Boot(), before, Invoke(DelayTask(10)));
    steps := before + [Invoke(DelayTask(10))];
    TickKeepsInvIffSafe(Run(Boot(), steps));
  }

  // ---------------------------------------------------- effects of one step

  /** Which call can end which wait. */
  predicate Ends(call: Call, t: TaskId, task: Task) {
    match call
    case WakeupTask(id) => id - 1 == t && task.factor == Sleep
    case SetFlag(_, _) => task.factor == Flag
    case SignalSemaphore(_, units) => task.factor == Semaphore
    case _ => false
  }

  /** A step that changes the wait queue by releasing the waiter at position k (if
    * k is a position) or by appending the running task, and that changes nothing
    * but wakeup counts of the waiters that stay.
    */
  ghost predicate WaitQueueEffect(s: State, s': State, k: nat)
    requires Shape(s) && Shape(s')
  {
    && k <= |s.wait|
    && (k < |s.wait| ==> s'.wait == RemoveAt(s.wait, k))
    && (k == |s.wait| ==> s'.wait == s.wait || (s.curr.Some? && s'.wait == s.wait + [s.curr.value]))
    && (forall t: TaskId | t in s.wait && (k < |s.wait| ==> t != s.wait[k]) ::
          s'.tasks[t] == s.tasks[t].(wakeups := s'.tasks[t].wakeups))
  }

  lemma SetFlagOnWaitQueue(s: State, id: int, pattern: Bits) returns (k: nat)
    requires Inv(s) && ValidId(id, MAX_FLAGS)
    ensures Inv(TakePattern(s, id, pattern))
    ensures WaitQueueEffect(s, TakePattern(s, id, pattern), k)
    ensures k < |s.wait| ==> s.tasks[s.wait[k]].factor == Flag
    ensures |TakePattern(s, id, pattern).wait| <= |s.wait|
  {
    TakePatternKeepsInv(s, id, pattern);
    k := First(s, PatternSet(pattern), 0);
  }

  lemma SignalOnWaitQueue(s: State, id: int, units: int) returns (k: nat)
    requires Inv(s)
    ensures Inv(SignalSemaphoreStep(s, id, units).s)
    ensures WaitQueueEffect(s, SignalSemaphoreStep(s, id, units).s, k)
    ensures k < |s.wait| ==> s.tasks[s.wait[k]].factor == Semaphore
    ensures |SignalSemaphoreStep(s, id, units).s.wait| <= |s.wait|
  {
    SignalSemaphoreKeepsInv(s, id, units);
    k := |s.wait|;
    if ValidId(id, MAX_SEMAPHORES) && s.sems[id - 1].inUse {
      var e := First(s, UnitsBack, 0);
      var value := s.sems[id - 1].value + units;
      if e < |s.wait| && value <= s.sems[id - 1].max && value >= s.tasks[s.wait[e]].request {
        k := e;
      }
    }
  }

  lemma WakeupOnWaitQueue(s: State, id: int) returns (k: nat)
    requires Inv(s)
    ensures Inv(WakeupTaskStep(s, id).s)
    ensures WaitQueueEffect(s, WakeupTaskStep(s, id).s, k)
    ensures k < |s.wait| ==> id - 1 == s.wait[k] && s.tasks[s.wait[k]].factor == Sleep
    ensures |WakeupTaskStep(s, id).s.wait| <= |s.wait|
  {
    WakeupTaskKeepsInv(s, id);
    k := |s.wait|;
    if ValidId(id, MAX_TASKS) {
      assert TaskOk(s, id - 1);
      if s.tasks[id - 1].factor == Sleep {
        k := IndexOf(s.wait, id - 1);
      }
    }
  }

  /** A call whose effect on tasks is confined to its caller, and which blocks if
    * it changes the wait queue at all.
    */
  lemma CallerOnlyEffect(s: State, s': State)
    requires Inv(s) && !s.dispatching && !s.pending && Shape(s')
    requires s'.wait == s.wait || s'.wait == s.wait + [s.curr.value]
    requires forall t: TaskId | t != s.curr.value :: s'.tasks[t] == s.tasks[t] || s.tasks[t].state != Wait
    ensures WaitQueueEffect(s, s', |s.wait|)
  {
    RunningTaskHeadsItsQueue(s);
  }

  lemma WaitFlagOnWaitQueue(s: State, id: int, bits: Bits, mode: Bits, timeout: int)
    requires Inv(s) && CallEnabled(s, WaitFlag(id, bits, mode, timeout))
    ensures Inv(WaitFlagStep(s, id, bits, mode, timeout).s)
    ensures WaitQueueEffect(s, WaitFlagStep(s, id, bits, mode, timeout).s, |s.wait|)
  {
    WaitFlagKeepsInv(s, id, bits, mode, timeout);
    CallerOnlyEffect(s, WaitFlagStep(s, id, bits, mode, timeout).s);
  }

  predicate MayBlock(call: Call) {
    call.DelayTask? || call.SleepTask? || call.WaitFlag? || call.WaitSemaphore?
  }

  lemma BlockingCallOnWaitQueue(s: State, call: Call)
    requires Inv(s) && CallEnabled(s, call)
    requires MayBlock(call)
    ensures Inv(Perform(s, call).s)
    ensures WaitQueueEffect(s, Perform(s, call).s, |s.wait|)
  {
    CallKeepsInv(s, call);
    match call {
      case WaitFlag(id, bits, mode, timeout) => WaitFlagOnWaitQueue(s, id, bits, mode, timeout);
      case DelayTask(delay) => CallerOnlyEffect(s, DelayTaskStep(s, delay).s);
      case SleepTask(timeout) => CallerOnlyEffect(s, SleepTaskStep(s, timeout).s);
      case WaitSemaphore(id, units, timeout) => CallerOnlyEffect(s, WaitSemaphoreStep(s, id, units, timeout).s);
    }
  }

  lemma OtherCallOnWaitQueue(s: State, call: Call)
    requires Inv(s) && CallEnabled(s, call)
    requires !call.WakeupTask? && !call.SetFlag? && !call.SignalSemaphore?
    requires !MayBlock(call)
    ensures Inv(Perform(s, call).s)
    ensures WaitQueueEffect(s, Perform(s, call).s, |s.wait|)
    ensures |Perform(s, call).s.wait| == |s.wait|
  {
    CallKeepsInv(s, call);
    match call {
      case CreateTask(attr, pri, stackSize) => CallerOnlyEffect(s, CreateTaskStep(s, attr, pri, stackSize).s);
      case StartTask(id) => CallerOnlyEffect(s, StartTaskStep(s, id).s);
      case ExitTask => CallerOnlyEffect(s, ExitTaskStep(s).s);
      case _ =>
    }
  }

  /** A call either releases one waiter of the kind it serves, or appends its
    * caller to the wait queue, or leaves that queue alone.
    */
  lemma CallOnWaitQueue(s: State, call: Call) returns (k: nat)
    requires Inv(s) && CallEnabled(s, call)
    ensures Inv(Perform(s, call).s)
    ensures WaitQueueEffect(s, Perform(s, call).s, k)
    ensures k < |s.wait| ==> Ends(call, s.wait[k], s.tasks[s.wait[k]])
    ensures |Perform(s, call).s.wait| > |s.wait| ==> MayBlock(call)
  {
    if call.WakeupTask? {
      k := WakeupOnWaitQueue(s, call.id);
    } else if call.SignalSemaphore? {
      k := SignalOnWaitQueue(s, call.id, call.units);
    } else if call.SetFlag? && ValidId(call.id, MAX_FLAGS) && s.flags[call.id - 1].inUse {
      k := SetFlagOnWaitQueue(s, call.id, With(s.flags[call.id - 1].pattern, call.bits));
    } else {
      k := |s.wait|;
      if MayBlock(call) {
        BlockingCallOnWaitQueue(s, call);
      } else if !call.SetFlag? {
        OtherCallOnWaitQueue(s, call);
      }
    }
  }

  // ------------------------------------------------------------ error returns

  /** A call that returns an error leaves the whole kernel as it was. */
  lemma ErrorsChangeNothing(s: State, call: Call)
    requires Inv(s) && CallEnabled(s, call) && Perform(s, call).ret < 0
    ensures Perform(s, call).s == s
  {
    match call
    case SignalSemaphore(id, units) => assert SignalSemaphoreStep(s, id, units).s == s;
    case SetFlag(id, bits) => assert SetFlagStep(s, id, bits).s == s;
    case WakeupTask(id) => assert WakeupTaskStep(s, id).s == s;
    case _ =>
  }

  /** sk_create_task takes the first unused control block and changes no queue and
    * no other task; there is a ready queue for what it creates exactly when the
    * priority is not MAX_TASK_PRI.
    */
  lemma CreatedTaskHasAQueueIff(s: State, attr: bv32, pri: int, stackSize: int)
    requires Inv(s) && CreateTaskStep(s, attr, pri, stackSize).ret > 0
    ensures var o := CreateTaskStep(s, attr, pri, stackSize);
      && o.ret <= MAX_TASKS
      && s.tasks[o.ret - 1].state == NonExist
      && (forall i | 0 <= i < o.ret - 1 :: s.tasks[i].state != NonExist)
      && o.s.tasks[o.ret - 1].state == Dormant && o.s.tasks[o.ret - 1].pri == pri
      && (forall t: TaskId | t != o.ret - 1 :: o.s.tasks[t] == s.tasks[t])
      && o.s == s.(tasks := o.s.tasks)
      && (0 <= o.s.tasks[o.ret - 1].pri < |o.s.ready| <==> pri != MAX_TASK_PRI)
  {
  }

  /** And that priority is accepted whenever there is an unused control block. */
  lemma PriorityWithoutQueueIsAccepted(s: State)
    requires Inv(s) && FreeTask(s, 0) < MAX_TASKS
    ensures var o := CreateTaskStep(s, 0, MAX_TASK_PRI, 0);
            0 < o.ret <= MAX_TASKS && o.s.tasks[o.ret - 1].pri == |o.s.ready|
  {
    CreatePlain(s, MAX_TASK_PRI);
  }
}
