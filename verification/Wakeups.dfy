/** No wakeup is lost or invented. */
module Wakeups {
  import opened Wrappers
  import opened KernelTypes
  import opened KernelSpec
  import opened KernelInvariant
  import opened KernelRuns
  import opened DelayBounds

  ghost predicate Sleeps(s: State, t: TaskId)
    requires Shape(s)
  {
    t in s.wait && s.tasks[t].factor == Sleep
  }

  /** Counts are not negative, and a task that sleeps has no wakeup to its credit. */
  ghost predicate Credits(s: State)
    requires Shape(s)
  {
    forall t: TaskId :: s.tasks[t].wakeups >= 0 && (Sleeps(s, t) ==> s.tasks[t].wakeups == 0)
  }

  /** 1 when the step is a wakeup of t while t is READY or waits. */
  ghost function Accepted(s: State, step: Step, t: TaskId): int
    requires Inv(s) && Enabled(s, step)
  {
    if step.Invoke? && step.call.WakeupTask? && step.call.id - 1 == t &&
       (s.tasks[t].state == Ready || s.tasks[t].state == Wait) then 1 else 0
  }

  /** 1 when a sleep of t is over, other than by a timeout: t calls sk_sleep_task
    * and goes on running, or a call takes the sleeping t out of the wait queue.
    */
  ghost function Completed(s: State, step: Step, t: TaskId): int
    requires Inv(s) && Enabled(s, step)
  {
    if step.Invoke? && t !in Exec(s, step).wait &&
       ((step.call.SleepTask? && s.curr == Some(t)) || Sleeps(s, t)) then 1 else 0
  }

  lemma WakeupEffect(s: State, id: int, t: TaskId)
    requires Inv(s) && Enabled(s, Invoke(WakeupTask(id)))
    ensures var (step, s') := (Invoke(WakeupTask(id)), Exec(s, Invoke(WakeupTask(id))));
      && s'.tasks[t].wakeups == s.tasks[t].wakeups + Accepted(s, step, t) - Completed(s, step, t)
      && (Sleeps(s', t) ==> Sleeps(s, t) && Accepted(s, step, t) == 0)
  {
    var s' := WakeupTaskStep(s, id).s;
    var k := WakeupOnWaitQueue(s, id);
    assert TaskOk(s, t);
    if k < |s.wait| {
      RemoveAtElements(s.wait, k);
    }
    if ValidId(id, MAX_TASKS) {
      assert TaskOk(s, id - 1);
    }
  }

  lemma SleepEffect(s: State, timeout: int, t: TaskId)
    requires Inv(s) && Enabled(s, Invoke(SleepTask(timeout)))
    ensures var (step, s') := (Invoke(SleepTask(timeout)), Exec(s, Invoke(SleepTask(timeout))));
      && s'.tasks[t].wakeups == s.tasks[t].wakeups + Accepted(s, step, t) - Completed(s, step, t)
      && (Sleeps(s', t) ==> Sleeps(s, t) || (s.tasks[t].wakeups <= 0 && s.curr == Some(t)))
  {
    RunningTaskHeadsItsQueue(s);
    SleepTaskKeepsInv(s, timeout);
    assert s.curr.value !in s.wait;
  }

  lemma CountUntouchedByBlocking(s: State, call: Call, t: TaskId)
    requires Inv(s) && CallEnabled(s, call) && MayBlock(call) && !call.SleepTask?
    ensures Shape(Perform(s, call).s)
    ensures Perform(s, call).s.tasks[t].wakeups == s.tasks[t].wakeups
  {
    CallKeepsInv(s, call);
  }

  lemma CountUntouchedByRelease(s: State, call: Call, t: TaskId)
    requires Inv(s) && CallEnabled(s, call) && (call.SetFlag? || call.SignalSemaphore?)
    ensures Shape(Perform(s, call).s)
    ensures Perform(s, call).s.tasks[t].wakeups == s.tasks[t].wakeups
  {
    CallKeepsInv(s, call);
  }

  lemma CountUntouched(s: State, call: Call, t: TaskId)
    requires Inv(s) && CallEnabled(s, call) && !call.WakeupTask? && !call.SleepTask?
    ensures Shape(Perform(s, call).s)
    ensures Perform(s, call).s.tasks[t].wakeups == s.tasks[t].wakeups
  {
    if MayBlock(call) {
      CountUntouchedByBlocking(s, call, t);
    } else if call.SetFlag? || call.SignalSemaphore? {
      CountUntouchedByRelease(s, call, t);
    } else {
      CallKeepsInv(s, call);
    }
  }

  lemma BlockedFactor(s: State, call: Call)
    requires Inv(s) && CallEnabled(s, call) && MayBlock(call) && !call.SleepTask?
    ensures Shape(Perform(s, call).s)
    ensures Perform(s, call).s.tasks[s.curr.value].factor != Sleep
  {
    CallKeepsInv(s, call);
    RunningTaskHeadsItsQueue(s);
    assert TaskOk(s, s.curr.value);
  }

  lemma SleepersUntouched(s: State, call: Call, t: TaskId)
    requires Inv(s) && CallEnabled(s, call) && !call.WakeupTask? && !call.SleepTask?
    ensures Shape(Perform(s, call).s)
    ensures Sleeps(Perform(s, call).s, t) <==> Sleeps(s, t)
  {
    var k := CallOnWaitQueue(s, call);
    if k < |s.wait| {
      RemoveAtElements(s.wait, k);
    } else if t !in s.wait && t in Perform(s, call).s.wait {
      BlockedFactor(s, call);
    }
  }

  lemma TickEffect(s: State, t: TaskId)
    requires Inv(s) && Enabled(s, Tick)
    ensures Exec(s, Tick).tasks[t].wakeups == s.tasks[t].wakeups
    ensures Sleeps(Exec(s, Tick), t) ==> Sleeps(s, t)
  {
    TickCountsNothing(s, t);
    if t in Exec(s, Tick).wait {
      TickOnWaitQueue(s);
      ExpireOnWaitQueue(s);
      hide Exec, TickStep, Expire, First;
      var e := First(s, TimedOut, 0);
      if e < |s.wait| {
        RemoveAtElements(s.wait, e);
      }
      StepOnWaiter(s, Tick, t);
    }
  }

  lemma TickCountsNothing(s: State, t: TaskId)
    requires Inv(s) && Enabled(s, Tick)
    ensures Exec(s, Tick).tasks[t].wakeups == s.tasks[t].wakeups
  {
    TickOnWaitQueue(s);
  }

  lemma StepKeepsAccount(s: State, step: Step, t: TaskId)
    requires Inv(s) && Enabled(s, step)
    ensures var s' := Exec(s, step);
      && s'.tasks[t].wakeups == s.tasks[t].wakeups + Accepted(s, step, t) - Completed(s, step, t)
      && (Sleeps(s', t) ==>
            || (Sleeps(s, t) && s'.tasks[t].wakeups == s.tasks[t].wakeups)
            || s'.tasks[t].wakeups <= 0)
  {
    match step
    case Dispatch =>
    case Tick => TickEffect(s, t);
    case Invoke(call) =>
      if call.WakeupTask? {
        WakeupEffect(s, call.id, t);
      } else if call.SleepTask? {
        SleepEffect(s, call.timeout, t);
      } else {
        CountUntouched(s, call, t);
        SleepersUntouched(s, call, t);
      }
  }

  ghost function AllAccepted(s: State, steps: seq<Step>, t: TaskId): int
    requires Inv(s) && Legal(s, steps)
    decreases |steps|
  {
    if steps == [] then 0
    else Accepted(s, steps[0], t) + AllAccepted(Exec(s, steps[0]), steps[1..], t)
  }

  ghost function AllCompleted(s: State, steps: seq<Step>, t: TaskId): int
    requires Inv(s) && Legal(s, steps)
    decreases |steps|
  {
    if steps == [] then 0
    else Completed(s, steps[0], t) + AllCompleted(Exec(s, steps[0]), steps[1..], t)
  }

  /** Over every run, the accepted wakeups of a task are its sleeps that were ended
    * by one plus those it still has to its credit.
    */
  lemma {:induction false} WakeupsAreConserved(s: State, steps: seq<Step>, t: TaskId)
    requires Inv(s) && Legal(s, steps)
    ensures AllAccepted(s, steps, t) ==
            AllCompleted(s, steps, t) + Run(s, steps).tasks[t].wakeups - s.tasks[t].wakeups
    decreases |steps|
  {
    if steps != [] {
      StepKeepsAccount(s, steps[0], t);
      WakeupsAreConserved(Exec(s, steps[0]), steps[1..], t);
    }
  }

  /** A task that waits in TWFCT_SLP never has a wakeup to its credit. */
  lemma {:induction false} SleepersHaveNoCredit(s: State, steps: seq<Step>)
    requires Inv(s) && Legal(s, steps) && Credits(s)
    ensures Credits(Run(s, steps))
    decreases |steps|
  {
    if steps != [] {
      var s' := Exec(s, steps[0]);
      forall t: TaskId
        ensures s'.tasks[t].wakeups >= 0 && (Sleeps(s', t) ==> s'.tasks[t].wakeups == 0)
      {
        StepKeepsCredit(s, steps[0], t);
      }
      SleepersHaveNoCredit(s', steps[1..]);
    }
  }

  lemma StepKeepsCredit(s: State, step: Step, t: TaskId)
    requires Inv(s) && Enabled(s, step)
    requires s.tasks[t].wakeups >= 0 && (Sleeps(s, t) ==> s.tasks[t].wakeups == 0)
    ensures var s' := Exec(s, step);
      s'.tasks[t].wakeups >= 0 && (Sleeps(s', t) ==> s'.tasks[t].wakeups == 0)
  {
    StepKeepsAccount(s, step, t);
    CompletedIsCovered(s, step, t);
  }

  /** A sleep is only completed by a wakeup at hand. */
  lemma CompletedIsCovered(s: State, step: Step, t: TaskId)
    requires Inv(s) && Enabled(s, step)
    ensures Completed(s, step, t) <= Accepted(s, step, t) || s.tasks[t].wakeups > 0
  {
    if step.Invoke? {
      var k := CallOnWaitQueue(s, step.call);
      if step.call.WakeupTask? {
        WakeupEffect(s, step.call.id, t);
        assert TaskOk(s, t);
      } else if Sleeps(s, t) && k < |s.wait| {
        RemoveAtElements(s.wait, k);
      } else if step.call.SleepTask? && s.curr == Some(t) {
        RunningTaskHeadsItsQueue(s);
      }
    }
  }
}
