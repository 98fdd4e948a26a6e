/** How long a task waits: sk_delay_task never returns early and its lateness is
  * bounded by the number of waiters ahead of it, for exactly the delays whose
  * sum with the timer period fits below the value that means forever.
  */
module DelayBounds {
  import opened Counting
  import opened KernelTypes
  import opened KernelSpec
  import opened KernelInvariant
  import opened KernelRuns

  /** t is in the wait queue from the start of the run to its end. */
  ghost predicate WaitsThroughout(s: State, steps: seq<Step>, t: TaskId)
    requires Inv(s) && Legal(s, steps)
    decreases |steps|
  {
    t in s.wait && (steps == [] || WaitsThroughout(Exec(s, steps[0]), steps[1..], t))
  }

  function Ticks(steps: seq<Step>): nat {
    if steps == [] then 0 else (if steps[0] == Tick then 1 else 0) + Ticks(steps[1..])
  }

  function CeilDiv(x: nat, y: nat): nat
    requires y > 0
  {
    (x + y - 1) / y
  }

  // ------------------------------------------------------------ single steps

  lemma PositionAfterRemoval(q: seq<TaskId>, k: nat, t: TaskId)
    requires Distinct(q) && k < |q| && t in q && t != q[k]
    ensures t in RemoveAt(q, k)
    ensures IndexOf(RemoveAt(q, k), t) == IndexOf(q, t) - (if k < IndexOf(q, t) then 1 else 0)
  {
    RemoveAtElements(q, k);
    var i := IndexOf(q, t);
    var r := RemoveAt(q, k);
    assert r[if k < i then i - 1 else i] == t;
  }

  /** The waiters before the one a tick releases are aged by one period; that one
    * is released with its code; those behind it are not looked at.
    */
  lemma ExpireOnWaitQueue(s: State)
    requires Lists(s)
    ensures var e := First(s, TimedOut, 0);
      && Expire(s).wait == (if e < |s.wait| then RemoveAt(s.wait, e) else s.wait)
      && (forall i | 0 <= i < e :: Expire(s).tasks[s.wait[i]] == Older(s.tasks[s.wait[i]]))
      && (forall i | e < i < |s.wait| :: Expire(s).tasks[s.wait[i]] == s.tasks[s.wait[i]])
      && (e < |s.wait| ==>
            var t := s.wait[e];
            Expire(s).tasks[t] == s.tasks[t].(state := Ready, factor := NoFactor,
                                              err := if s.tasks[t].factor == Delay then 0 else -50))
  {
    var e := First(s, TimedOut, 0);
    AgeOnWaitQueue(s, e);
    assert e < |s.wait| ==> TaskOk(s, s.wait[e]);
    hide Age, First, Lists, TaskOk;
    if e < |s.wait| {
      forall i | 0 <= i < |s.wait| && i != e ensures s.wait[i] != s.wait[e] {
      }
    }
  }

  lemma AgeOnWaitQueue(s: State, e: nat)
    requires Lists(s) && e <= |s.wait|
    ensures Age(s, e) == s.(tasks := Age(s, e).tasks) && Distinct(s.wait)
    ensures forall i | 0 <= i < e :: Age(s, e).tasks[s.wait[i]] == Older(s.tasks[s.wait[i]])
    ensures forall i | e <= i < |s.wait| :: Age(s, e).tasks[s.wait[i]] == s.tasks[s.wait[i]]
  {
    forall i | 0 <= i < |s.wait|
      ensures s.wait[i] in s.wait[..e] <==> i < e
    {
      if i < e {
        assert s.wait[..e][i] == s.wait[i];
      }
    }
  }

  lemma TickOnWaitQueue(s: State)
    requires Inv(s)
    ensures TickStep(s).wait == Expire(s).wait && TickStep(s).tasks == Expire(s).tasks
  {
    ExpireKeepsPriorities(s);
  }

  /** What one step can do to the time and place of a waiter. */
  ghost predicate WaiterStep(s: State, step: Step, s': State, t: TaskId)
    requires Inv(s) && Inv(s') && t in s.wait
  {
    var (task, task') := (s.tasks[t], s'.tasks[t]);
    var (i, i') := (IndexOf(s.wait, t), IndexOf(s'.wait, t));
    if t in s'.wait then
      && task'.factor == task.factor
      && i' <= i
      && (step != Tick ==> task'.time == task.time)
      && (step == Tick && task.time == FOREVER ==> task'.time == FOREVER)
      && (step == Tick && task.time != FOREVER ==>
            || (task.time > TIMER_PERIOD && task'.time == task.time - TIMER_PERIOD && i' == i)
            || (task'.time == task.time && i' + 1 == i))
    else
      || (step == Tick && task.time != FOREVER && task.time <= TIMER_PERIOD &&
          task'.err == if task.factor == Delay then 0 else -50)
      || (step.Invoke? && Ends(step.call, t, task))
  }

  lemma StepOnWaiter(s: State, step: Step, t: TaskId)
    requires Inv(s) && Enabled(s, step) && t in s.wait
    ensures WaiterStep(s, step, Exec(s, step), t)
  {
    match step
    case Dispatch =>
    case Tick =>
      TickOnWaitQueue(s);
      ExpireOnWaitQueue(s);
      var e := First(s, TimedOut, 0);
      if e < |s.wait| && t != s.wait[e] {
        PositionAfterRemoval(s.wait, e, t);
      }
    case Invoke(call) =>
      var k := CallOnWaitQueue(s, call);
      assert TaskOk(s, t);
      if k == |s.wait| {
        AppendKeepsPosition(s.wait, Perform(s, call).s.wait, t);
      } else if t != s.wait[k] {
        PositionAfterRemoval(s.wait, k, t);
      } else {
        RemoveAtElements(s.wait, k);
      }
  }

  lemma AppendKeepsPosition(q: seq<TaskId>, q': seq<TaskId>, t: TaskId)
    requires t in q && q <= q' && Distinct(q')
    ensures IndexOf(q', t) == IndexOf(q, t)
  {}

  // -------------------------------------------------------------------- runs

  /** Every tick of a finite wait either ages the waiter or moves it up. */
  lemma {:induction false} WaiterProgress(s: State, steps: seq<Step>, t: TaskId) returns (aged: nat)
    requires Inv(s) && Legal(s, steps) && WaitsThroughout(s, steps, t)
    requires s.tasks[t].time != FOREVER
    ensures var s' := Run(s, steps);
      && t in s'.wait
      && s'.tasks[t].factor == s.tasks[t].factor
      && s'.tasks[t].time == s.tasks[t].time - TIMER_PERIOD * aged
      && (aged > 0 ==> s'.tasks[t].time > 0)
      && aged <= Ticks(steps) <= aged + IndexOf(s.wait, t) - IndexOf(s'.wait, t)
    decreases |steps|
  {
    if steps == [] {
      aged := 0;
    } else {
      StepOnWaiter(s, steps[0], t);
      var s1 := Exec(s, steps[0]);
      assert TaskOk(s, t);
      var later := WaiterProgress(s1, steps[1..], t);
      aged := if s1.tasks[t].time == s.tasks[t].time then later else later + 1;
    }
  }

  // ------------------------------------------------------------------ delays

  /** The state just after the running task has called sk_delay_task(delay). */
  ghost function Delayed(s: State, delay: nat): (s': State)
    requires Inv(s) && CallEnabled(s, DelayTask(delay)) && delay > 0
    ensures Inv(s')
    ensures s'.wait == s.wait + [s.curr.value] && s.curr.value !in s.wait
    ensures s'.tasks[s.curr.value].factor == Delay
    ensures s'.tasks[s.curr.value].time == DelayTime(delay)
    ensures IndexOf(s'.wait, s.curr.value) == |s.wait|
  {
    RunningTaskHeadsItsQueue(s);
    var s' := Exec(s, Invoke(DelayTask(delay)));
    assert s'.wait[|s.wait|] == s.curr.value;
    s'
  }

  /** The largest delay that is neither wrapped nor turned into forever. */
  const LONGEST_DELAY := FOREVER - TIMER_PERIOD - 1

  /** The caller is still waiting at the end of a run that follows its call. */
  ghost predicate StillDelayed(s: State, delay: nat, steps: seq<Step>)
    requires Inv(s) && CallEnabled(s, DelayTask(delay)) && delay > 0
  {
    Legal(Delayed(s, delay), steps) && WaitsThroughout(Delayed(s, delay), steps, s.curr.value)
  }

  /** The step after that run is the one that ends the wait. */
  ghost predicate DelayEnds(s: State, delay: nat, steps: seq<Step>, last: Step)
    requires Inv(s) && CallEnabled(s, DelayTask(delay)) && delay > 0
  {
    && StillDelayed(s, delay, steps)
    && Enabled(Run(Delayed(s, delay), steps), last)
    && s.curr.value !in Exec(Run(Delayed(s, delay), steps), last).wait
  }

  /** A delay is not over too late: after ceil(delay / 10) + 1 ticks, and one more
    * for each waiter that was ahead of it, the task is no longer waiting.
    */
  lemma DelayLatenessIsBounded(s: State, delay: nat, steps: seq<Step>)
    requires Inv(s) && CallEnabled(s, DelayTask(delay)) && 0 < delay <= 0xFFFF_FFF4
    requires StillDelayed(s, delay, steps)
    ensures Ticks(steps) <= CeilDiv(delay, 10) + |s.wait|
  {
    var aged := WaiterProgress(Delayed(s, delay), steps, s.curr.value);
  }

  /** A delay is never cut short: what ends it is a tick, no earlier than tick
    * ceil(delay / 10) + 1, and the call then returns E_OK.
    */
  lemma DelayIsNeverEarly(s: State, delay: nat, steps: seq<Step>, last: Step)
    requires Inv(s) && CallEnabled(s, DelayTask(delay)) && 0 < delay <= 0xFFFF_FFF4
    requires DelayEnds(s, delay, steps, last)
    ensures last == Tick
    ensures CeilDiv(delay, 10) + 1 <= Ticks(steps) + 1
                                             <= CeilDiv(delay, 10) + 1 + |s.wait|
    ensures Exec(Run(Delayed(s, delay), steps), last).tasks[s.curr.value].err == 0
  {
    var t := s.curr.value;
    var aged := WaiterProgress(Delayed(s, delay), steps, t);
    StepOnWaiter(Run(Delayed(s, delay), steps), last, t);
  }

  // ------------------------------------------------- delays that do not fit

  /** The bounds of the two lemmas above, over all runs that follow the call. */
  ghost predicate DelayIsKept(s: State, delay: nat)
    requires Inv(s) && CallEnabled(s, DelayTask(delay)) && delay > 0
  {
    && (forall steps: seq<Step> | StillDelayed(s, delay, steps) ::
          Ticks(steps) <= CeilDiv(delay, 10) + |s.wait|)
    && (forall steps: seq<Step>, last: Step | DelayEnds(s, delay, steps, last) ::
          CeilDiv(delay, 10) <= Ticks(steps))
  }

  /** A wait that is forever stays so, and only a call can end it. */
  lemma {:induction false} ForeverStays(s: State, steps: seq<Step>, t: TaskId)
    requires Inv(s) && Legal(s, steps) && t in s.wait
    requires s.tasks[t].time == FOREVER && s.tasks[t].factor == Delay
    ensures WaitsThroughout(s, steps, t)
    decreases |steps|
  {
    if steps != [] {
      StepOnWaiter(s, steps[0], t);
      ForeverStays(Exec(s, steps[0]), steps[1..], t);
    }
  }

  /** Time can always go on: there is a legal run of ticks and dispatches with any
    * number of ticks, at whose end no dispatch is due.
    */
  lemma {:induction false} TicksGoOn(s: State, n: nat) returns (steps: seq<Step>)
    requires Inv(s)
    ensures Legal(s, steps) && Ticks(steps) == n
    ensures !Run(s, steps).pending && forall step | step in steps :: !step.Invoke?
    decreases n, s.pending
  {
    if n == 0 && !s.pending {
      steps := [];
    } else {
      var step := if s.pending then Dispatch else Tick;
      if !s.pending {
        TickIsSafeUnlessDispatchIsDue(s);
      }
      var rest := TicksGoOn(Exec(s, step), if s.pending then n else n - 1);
      steps := [step] + rest;
      assert steps[1..] == rest;
    }
  }

  /** A run over which a waiter does not wait throughout has a step that ends the
    * wait.
    */
  lemma {:induction false} WaitHasAnEnd(s: State, steps: seq<Step>, t: TaskId)
    returns (before: seq<Step>, last: Step)
    requires Inv(s) && Legal(s, steps) && t in s.wait && !WaitsThroughout(s, steps, t)
    ensures Legal(s, before) && WaitsThroughout(s, before, t) && last in steps
    ensures Enabled(Run(s, before), last) && t !in Exec(Run(s, before), last).wait
    decreases |steps|
  {
    var s1 := Exec(s, steps[0]);
    if t in s1.wait {
      var rest;
      rest, last := WaitHasAnEnd(s1, steps[1..], t);
      before := [steps[0]] + rest;
      assert before[1..] == rest;
    } else {
      before, last := [], steps[0];
    }
  }

  /** The delay taken for forever: some run waits longer than any bound. */
  lemma ForeverDelayIsTooLate(s: State, delay: nat)
    requires Inv(s) && CallEnabled(s, DelayTask(delay)) && delay == LONGEST_DELAY + 1
    ensures !DelayIsKept(s, delay)
  {
    var steps := TicksGoOn(Delayed(s, delay), CeilDiv(delay, 10) + |s.wait| + 1);
    ForeverStays(Delayed(s, delay), steps, s.curr.value);
    assert StillDelayed(s, delay, steps);
  }

  lemma WrappedDelayTime(delay: nat)
    requires LONGEST_DELAY + 1 < delay < 0x1_0000_0000
    ensures DelayTime(delay) < TIMER_PERIOD && MAX_TASKS < CeilDiv(delay, 10)
  {
    assert delay + TIMER_PERIOD - 0x1_0000_0000 < TIMER_PERIOD;
  }

  /** A wrapped delay is not aged even once. */
  lemma WrappedDelayIsShort(s: State, delay: nat, steps: seq<Step>)
    requires Inv(s) && CallEnabled(s, DelayTask(delay)) && delay > LONGEST_DELAY + 1
    requires StillDelayed(s, delay, steps)
    ensures Ticks(steps) <= |s.wait| < CeilDiv(delay, 10)
  {
    WrappedDelayTime(delay);
    var aged := WaiterProgress(Delayed(s, delay), steps, s.curr.value);
    assert aged == 0;
    DistinctBelow(s.wait, MAX_TASKS);
  }

  lemma WrappedDelayIsEarly(s: State, delay: nat)
    requires Inv(s) && CallEnabled(s, DelayTask(delay)) && delay > LONGEST_DELAY + 1
    ensures !DelayIsKept(s, delay)
  {
    var s1 := Delayed(s, delay);
    var steps := TicksGoOn(s1, |s.wait| + 1);
    if WaitsThroughout(s1, steps, s.curr.value) {
      WrappedDelayIsShort(s, delay, steps);
    } else {
      var before, last := WaitHasAnEnd(s1, steps, s.curr.value);
      WrappedDelayIsShort(s, delay, before);
      assert DelayEnds(s, delay, before, last);
    }
  }

  /** sk_delay_task keeps its promise on every run for exactly the delays up to
    * LONGEST_DELAY: the next one is taken for forever, and longer ones wrap.
    */
  lemma DelayIsKeptIffItFits(s: State, delay: nat)
    requires Inv(s) && CallEnabled(s, DelayTask(delay)) && delay > 0
    ensures DelayIsKept(s, delay) <==> delay <= 0xFFFF_FFF4
  {
    if delay <= LONGEST_DELAY {
      forall steps: seq<Step> | StillDelayed(s, delay, steps)
        ensures Ticks(steps) <= CeilDiv(delay, 10) + |s.wait|
      {
        DelayLatenessIsBounded(s, delay, steps);
      }
      forall steps: seq<Step>, last: Step | DelayEnds(s, delay, steps, last)
        ensures CeilDiv(delay, 10) <= Ticks(steps)
      {
        DelayIsNeverEarly(s, delay, steps, last);
      }
    } else {
      if delay == LONGEST_DELAY + 1 {
        ForeverDelayIsTooLate(s, delay);
      } else {
        WrappedDelayIsEarly(s, delay);
      }
    }
  }
}
