/** How waits end: which code a blocked call returns, and when a timeout may end it. */
module WaitResults {
  import opened Wrappers
  import opened Counting
  import opened KernelTypes
  import opened KernelSpec
  import opened KernelInvariant
  import opened KernelRuns
  import opened DelayBounds
  import opened RoundRobin
  import opened CallResults
  import Semaphores

  // ------------------------------------------------------- codes, step by step

  lemma ReleaseKeepsCode(s: State, call: Call, t: TaskId)
    requires Inv(s) && CallEnabled(s, call) && t in s.wait && t !in Perform(s, call).s.wait
    ensures Shape(Perform(s, call).s) && Perform(s, call).s.tasks[t].err == s.tasks[t].err
  {
    CallKeepsInv(s, call);
    var k := CallOnWaitQueue(s, call);
    assert TaskOk(s, t);
  }

  /** A step changes the code of a task that waits only by timing it out, and then it is
    * E_TMOUT for every wait but a delay, which ends with E_OK.
    */
  lemma StepOnCode(s: State, step: Step, t: TaskId)
    requires Inv(s) && Enabled(s, step) && t in s.wait
    ensures var s' := Exec(s, step);
      && (t in s'.wait ==>
            && s'.tasks[t].err == s.tasks[t].err && s'.tasks[t].factor == s.tasks[t].factor
            && s'.tasks[t].request == s.tasks[t].request)
      && (t !in s'.wait ==>
            s'.tasks[t].err == if step != Tick then s.tasks[t].err else if s.tasks[t].factor == Delay then 0 else -50)
  {
    match step
    case Dispatch =>
    case Tick =>
      TickOnWaitQueue(s);
      ExpireOnWaitQueue(s);
      var e := First(s, TimedOut, 0);
      var i := IndexOf(s.wait, t);
      if e < |s.wait| {
        RemoveAtElements(s.wait, e);
      }
    case Invoke(call) =>
      var k := CallOnWaitQueue(s, call);
      if t !in Exec(s, step).wait {
        ReleaseKeepsCode(s, call, t);
      } else if k < |s.wait| {
        RemoveAtElements(s.wait, k);
      }
  }

  lemma {:induction false} CodeWhileWaiting(s: State, steps: seq<Step>, t: TaskId)
    requires Inv(s) && Legal(s, steps) && WaitsThroughout(s, steps, t)
    ensures var task := Run(s, steps).tasks[t];
      && t in Run(s, steps).wait
      && task.err == s.tasks[t].err && task.factor == s.tasks[t].factor && task.request == s.tasks[t].request
    decreases |steps|
  {
    if steps != [] {
      StepOnCode(s, steps[0], t);
      CodeWhileWaiting(Exec(s, steps[0]), steps[1..], t);
    }
  }

  // ------------------------------------------------------------ codes over runs

  /** A run through which t waits, and the step after it, which ends the wait. */
  ghost predicate WaitEnds(s: State, steps: seq<Step>, last: Step, t: TaskId)
    requires Inv(s)
  {
    && Legal(s, steps) && WaitsThroughout(s, steps, t)
    && Enabled(Run(s, steps), last) && t !in Exec(Run(s, steps), last).wait
  }

  /** Every blocked call but sk_delay_task returns E_TMOUT exactly when a tick ended its
    * wait, and E_OK exactly when a call did; sk_delay_task returns E_OK.
    */
  lemma WaitEndsWithCode(s: State, steps: seq<Step>, last: Step, t: TaskId)
    requires Inv(s) && t in s.wait && s.tasks[t].err == 0 && WaitEnds(s, steps, last, t)
    ensures var err := Exec(Run(s, steps), last).tasks[t].err;
      && (err == -50 <==> last == Tick && s.tasks[t].factor != Delay)
      && (err == 0 <==> last != Tick || s.tasks[t].factor == Delay)
      && (last != Tick ==> last.Invoke? && Ends(last.call, t, s.tasks[t]))
  {
    CodeWhileWaiting(s, steps, t);
    StepOnCode(Run(s, steps), last, t);
    StepOnWaiter(Run(s, steps), last, t);
  }

  /** The code stays as it is until the task runs again. */
  lemma {:induction false} CodeUntilItRuns(s: State, steps: seq<Step>, t: TaskId)
    requires Inv(s) && Legal(s, steps) && t !in s.wait && NotRunning(s, steps, t)
    ensures Run(s, steps).tasks[t].err == s.tasks[t].err && t !in Run(s, steps).wait
    decreases |steps|
  {
    if steps != [] {
      StepOnIdleCode(s, steps[0], t);
      CodeUntilItRuns(Exec(s, steps[0]), steps[1..], t);
    }
  }

  lemma StepOnIdleCode(s: State, step: Step, t: TaskId)
    requires Inv(s) && Enabled(s, step) && t !in s.wait && s.curr != Some(t)
    ensures Exec(s, step).tasks[t].err == s.tasks[t].err && t !in Exec(s, step).wait
  {
    match step
    case Dispatch =>
    case Tick =>
      TickOnWaitQueue(s);
      var e := First(s, TimedOut, 0);
      if e < |s.wait| {
        RemoveAtElements(s.wait, e);
      }
    case Invoke(call) =>
      var k := CallOnWaitQueue(s, call);
      CallOnIdleCode(s, call, t);
      if k < |s.wait| {
        RemoveAtElements(s.wait, k);
      }
  }

  lemma CallOnIdleCode(s: State, call: Call, t: TaskId)
    requires Inv(s) && CallEnabled(s, call) && t !in s.wait && s.curr != Some(t)
    ensures Shape(Perform(s, call).s) && Perform(s, call).s.tasks[t].err == s.tasks[t].err
  {
    hide Inv, Matches;
    PartsOf(s);
    CallKeepsInv(s, call);
    PartsOf(Perform(s, call).s);
  }

  /** The unit of a signal has gone to t: its semaphore has what it had, with the units of
    * the signal and without those t asked for.
    */
  ghost predicate HandedOver(s: State, step: Step, t: TaskId)
    requires Inv(s) && Enabled(s, step)
  {
    && step.Invoke? && step.call.SignalSemaphore? && 1 <= step.call.id <= 8
    && t in s.wait && t !in Exec(s, step).wait
    && var k := step.call.id - 1;
    Exec(s, step).sems ==
      s.sems[k := s.sems[k].(value := s.sems[k].value + step.call.units - s.tasks[t].request)]
  }

  /** A blocked sk_wait_semaphore returns E_OK exactly when its units were handed over to
    * it; when it returns E_TMOUT no semaphore has changed.
    */
  lemma SemaphoreWaitReturns(s: State, steps: seq<Step>, last: Step, t: TaskId)
    requires Inv(s) && Semaphores.WaitsForUnits(s, t) && s.tasks[t].err == 0 && WaitEnds(s, steps, last, t)
    ensures var (x, x') := (Run(s, steps), Exec(Run(s, steps), last));
      && x.tasks[t].request == s.tasks[t].request
      && (x'.tasks[t].err == 0 <==> HandedOver(x, last, t))
      && (x'.tasks[t].err == -50 <==> last == Tick)
      && (x'.tasks[t].err == -50 ==> x'.sems == x.sems)
  {
    var x := Run(s, steps);
    WaitEndsWithCode(s, steps, last, t);
    CodeWhileWaiting(s, steps, t);
    if last != Tick {
      SignalHandsOver(x, last.call, t);
    }
  }

  lemma SignalHandsOver(s: State, call: Call, t: TaskId)
    requires Inv(s) && CallEnabled(s, call) && call.SignalSemaphore? && t in s.wait && t !in Perform(s, call).s.wait
    ensures Enabled(s, Invoke(call)) && HandedOver(s, Invoke(call), t)
  {
    hide Inv;
    PartsOf(s);
    Semaphores.SignalEffect(s, call.id, call.units);
    var k := Semaphores.Leaver(s, Perform(s, call).s).value;
    RemoveAtElements(s.wait, IndexOf(s.wait, k));
  }

  // ---------------------------------------------------------------- the tick

  lemma ExpireOnReadyQueues(s: State)
    requires Lists(s)
    ensures var (e, s') := (First(s, TimedOut, 0), Expire(s));
      && (e == |s.wait| ==> s'.ready == s.ready)
      && (e < |s.wait| ==>
            var (t, p) := (s.wait[e], s.tasks[s.wait[e]].pri);
            && 1 <= p < MAX_TASK_PRI && s'.ready == s.ready[p := s.ready[p] + [t]]
            && s'.tasks[t].state == Ready && s'.tasks[t].factor == NoFactor)
      && s' == s.(tasks := s'.tasks, wait := s'.wait, ready := s'.ready)
  {
    var e := First(s, TimedOut, 0);
    assert e < |s.wait| ==> TaskOk(s, s.wait[e]);
    hide Lists, TaskOk, First, Older;
  }

  /** A tick makes the first waiter with 10 ms or less to go READY at the tail of the queue
    * of its priority. Then, in the queue of the running task's priority, the head leaves
    * and the running task joins the tail, if there are two or more.
    */
  lemma TickEffect(s: State) returns (e: nat)
    requires Inv(s) && TickSafe(s)
    ensures e <= |s.wait|
    ensures forall i | 0 <= i < e :: s.tasks[s.wait[i]].time == 0xFFFF_FFFF || s.tasks[s.wait[i]].time > 10
    ensures e < |s.wait| ==> s.tasks[s.wait[e]].time <= 10
    ensures var s' := TickStep(s);
      && Shape(s') && s'.curr == s.curr && s'.flags == s.flags && s'.sems == s.sems
      && s'.wait == (if e < |s.wait| then s.wait[..e] + s.wait[e + 1..] else s.wait)
      && (e < |s.wait| ==> s'.tasks[s.wait[e]].state == Ready && s'.tasks[s.wait[e]].factor == NoFactor)
      && (forall p | 0 <= p < |s.ready| ::
            var arrived := if e < |s.wait| && s.tasks[s.wait[e]].pri == p then [s.wait[e]] else [];
            var q := s.ready[p] + arrived;
            s'.ready[p] ==
              if !s.dispatching && s.tasks[s.curr.value].pri == p && |q| >= 2 then q[1..] + [s.curr.value] else q)
  {
    hide Inv, Lists, Age, First, Older, Expire, TickSafe;
    PartsOf(s);
    e := First(s, TimedOut, 0);
    TickOnWaitQueue(s);
    ExpireOnWaitQueue(s);
    ExpireOnReadyQueues(s);
    ExpireKeepsPriorities(s);
  }

  lemma PartsOf(s: State)
    requires Inv(s)
    ensures Lists(s) && Shape(s)
    ensures !s.dispatching ==> s.curr.Some? && 1 <= s.tasks[s.curr.value].pri < MAX_TASK_PRI
    ensures forall t: TaskId | t in s.wait :: TaskOk(s, t)
  {}

  // --------------------------------------------------------------- timeouts

  /** A wait with a timeout of n milliseconds is over after ceil(n / 10) + 1 ticks and one
    * more for each waiter that was ahead of it, and no tick ends it before that many.
    */
  lemma TimedWaitIsKept(s: State, steps: seq<Step>, t: TaskId, n: nat)
    requires Inv(s) && Legal(s, steps) && WaitsThroughout(s, steps, t)
    requires s.tasks[t].time == n + 10 < 0xFFFF_FFFF
    ensures Ticks(steps) <= CeilDiv(n, 10) + IndexOf(s.wait, t)
    ensures Enabled(Run(s, steps), Tick) && t !in Exec(Run(s, steps), Tick).wait ==> CeilDiv(n, 10) <= Ticks(steps)
  {
    var aged := WaiterProgress(s, steps, t);
    if Enabled(Run(s, steps), Tick) && t !in Exec(Run(s, steps), Tick).wait {
      StepOnWaiter(Run(s, steps), Tick, t);
    }
  }

  /** The timeout of a call that may wait for another's. */
  function TimeoutOf(call: Call): int
    requires call.SleepTask? || call.WaitFlag? || call.WaitSemaphore?
  {
    call.timeout
  }

  /** What a call that blocks leaves of its timeout: n + 10 for n milliseconds. */
  lemma BlockedTime(s: State, call: Call)
    requires Inv(s) && CallEnabled(s, call) && (call.SleepTask? || call.WaitFlag? || call.WaitSemaphore?)
    requires Blocked(s, Perform(s, call).s)
    ensures var (t, n, s') := (s.curr.value, TimeoutOf(call), Perform(s, call).s);
      && Inv(s') && s'.wait == s.wait + [t] && IndexOf(s'.wait, t) == |s.wait|
      && s'.tasks[t].err == 0 && s'.tasks[t].factor != Delay
      && (n >= 0 ==> s'.tasks[t].time == n + 10 < 0xFFFF_FFFF)
      && (n in {-1, -11} <==> s'.tasks[t].time == 0xFFFF_FFFF)
  {
    hide Inv, CheckFlag;
    PartsOf(s);
    CallKeepsInv(s, call);
    RunningTaskHeadsItsQueue(s);
    var (t, s') := (s.curr.value, Perform(s, call).s);
    assert s'.wait == s.wait + [t];
    assert s'.wait[|s.wait|] == t;
  }

  /** A wait that is forever is ended by no tick. */
  lemma ForeverIsNotTimedOut(s: State, steps: seq<Step>, last: Step, t: TaskId)
    requires Inv(s) && t in s.wait && s.tasks[t].time == 0xFFFF_FFFF && WaitEnds(s, steps, last, t)
    ensures last != Tick
  {
    TimeStaysForever(s, steps, t);
    StepOnWaiter(Run(s, steps), last, t);
  }

  lemma {:induction false} TimeStaysForever(s: State, steps: seq<Step>, t: TaskId)
    requires Inv(s) && Legal(s, steps) && WaitsThroughout(s, steps, t) && s.tasks[t].time == 0xFFFF_FFFF
    ensures t in Run(s, steps).wait && Run(s, steps).tasks[t].time == 0xFFFF_FFFF
    decreases |steps|
  {
    if steps != [] {
      StepOnWaiter(s, steps[0], t);
      TimeStaysForever(Exec(s, steps[0]), steps[1..], t);
    }
  }

  /** No tick ends the wait on any run. */
  ghost predicate NeverTimesOut(s: State, t: TaskId)
    requires Inv(s)
  {
    forall steps: seq<Step> :: !WaitEnds(s, steps, Tick, t)
  }

  lemma FiniteWaitIsShort(s: State, steps: seq<Step>, t: TaskId)
    requires Inv(s) && Legal(s, steps) && WaitsThroughout(s, steps, t) && s.tasks[t].time != 0xFFFF_FFFF
    ensures Ticks(steps) <= s.tasks[t].time + |s.wait|
  {
    var aged := WaiterProgress(s, steps, t);
    assert TIMER_PERIOD * aged <= s.tasks[t].time;
  }

  /** What ends a wait other than a call is a tick. */
  lemma TickEndsWait(s: State, steps: seq<Step>, last: Step, t: TaskId)
    requires Inv(s) && WaitEnds(s, steps, last, t) && !last.Invoke?
    ensures last == Tick
  {
    CodeWhileWaiting(s, steps, t);
    StepOnWaiter(Run(s, steps), last, t);
  }

  lemma FiniteWaitTimesOut(s: State, t: TaskId)
    requires Inv(s) && t in s.wait && s.tasks[t].time != 0xFFFF_FFFF
    ensures !NeverTimesOut(s, t)
  {
    hide Inv, Legal, Run, Exec, Enabled, WaitsThroughout, Ticks;
    PartsOf(s);
    var steps := TicksGoOn(s, s.tasks[t].time + |s.wait| + 1);
    if WaitsThroughout(s, steps, t) {
      FiniteWaitIsShort(s, steps, t);
    } else {
      var before, last := WaitHasAnEnd(s, steps, t);
      TickEndsWait(s, before, last, t);
      assert WaitEnds(s, before, Tick, t);
    }
  }

  /** A blocked call that waits for another's can be timed out unless its timeout is -1,
    * which means forever, or -11, which wraps to the same.
    */
  lemma NeverTimesOutIff(s: State, call: Call)
    requires Inv(s) && CallEnabled(s, call) && (call.SleepTask? || call.WaitFlag? || call.WaitSemaphore?)
    requires Blocked(s, Perform(s, call).s)
    ensures Inv(Perform(s, call).s)
    ensures NeverTimesOut(Perform(s, call).s, s.curr.value) <==> TimeoutOf(call) in {-1, -11}
  {
    BlockedTime(s, call);
    var (t, s') := (s.curr.value, Perform(s, call).s);
    if s'.tasks[t].time == 0xFFFF_FFFF {
      forall steps: seq<Step> ensures !WaitEnds(s', steps, Tick, t) {
        if WaitEnds(s', steps, Tick, t) {
          ForeverIsNotTimedOut(s', steps, Tick, t);
        }
      }
    } else {
      FiniteWaitTimesOut(s', t);
    }
  }
}
