/** Counting semaphores over whole runs: conservation of units, no unit idle
  * while a task waits for one, grants in the order of blocking, and mutual
  * exclusion.
  */
module Semaphores {
  import opened Counting
  import opened Wrappers
  import opened KernelTypes
  import opened KernelSpec
  import opened KernelInvariant
  import opened KernelRuns
  import opened DelayBounds

  ghost predicate WaitsForUnits(s: State, t: TaskId)
    requires Shape(s)
  {
    t in s.wait && s.tasks[t].factor == Semaphore
  }

  // --------------------------------------------------------- effects of steps

  lemma CallOnSemaphores(s: State, call: Call)
    requires Inv(s) && CallEnabled(s, call)
    requires !call.CreateSemaphore? && !call.SignalSemaphore? && !call.WaitSemaphore?
    ensures Perform(s, call).s.sems == s.sems
  {}

  /** Only a call of sk_wait_semaphore that finds too few units adds a waiter for
    * units.
    */
  lemma NewWaiter(s: State, call: Call)
    requires Inv(s) && CallEnabled(s, call)
    requires Perform(s, call).s.wait == s.wait + [s.curr.value]
    ensures Shape(Perform(s, call).s)
    ensures var task := Perform(s, call).s.tasks[s.curr.value];
      task.factor == Semaphore ==>
        call.WaitSemaphore? && task.request == call.units && ValidId(call.id, MAX_SEMAPHORES) &&
        s.sems[call.id - 1].inUse && s.sems[call.id - 1].value < call.units &&
        Perform(s, call).s.sems == s.sems
  {
    CallKeepsInv(s, call);
    RunningTaskHeadsItsQueue(s);
    var k := CallOnWaitQueue(s, call);
    assert |Perform(s, call).s.wait| == |s.wait| + 1;
  }

  /** The task a call takes out of the wait queue, if any. */
  ghost function Leaver(s: State, s': State): Option<TaskId> {
    if w: TaskId :| w in s.wait && w !in s'.wait then Some(w) else None
  }

  lemma LeaverOfRelease(s: State, s': State, k: nat)
    requires Lists(s) && k < |s.wait| && s'.wait == RemoveAt(s.wait, k)
    ensures Leaver(s, s') == Some(s.wait[k])
  {
    RemoveAtElements(s.wait, k);
    assert s.wait[k] in s.wait && s.wait[k] !in s'.wait;
  }

  /** An accepted signal adds its units and hands the first task waiting for units
    * what it asked for, if there is enough; no other task gets any.
    */
  lemma SignalEffect(s: State, id: int, units: int)
    requires Inv(s)
    ensures var o := SignalSemaphoreStep(s, id, units);
      var w := Leaver(s, o.s);
      && Inv(o.s)
      && (o.ret != E_OK ==> o.s == s)
      && (o.ret == E_OK ==>
            && ValidId(id, MAX_SEMAPHORES) && s.sems[id - 1].inUse
            && s.sems[id - 1].value + units <= s.sems[id - 1].max
            && o.s.sems == s.sems[id - 1 := s.sems[id - 1].(value :=
                 s.sems[id - 1].value + units - (if w.Some? then s.tasks[w.value].request else 0))])
      && (w.Some? ==>
            && o.ret == E_OK
            && WaitsForUnits(s, w.value)
            && s.tasks[w.value].request <= s.sems[id - 1].value + units
            && (forall i | 0 <= i < IndexOf(s.wait, w.value) :: s.tasks[s.wait[i]].factor != Semaphore)
            && o.s.wait == RemoveAt(s.wait, IndexOf(s.wait, w.value)))
      && (w.None? ==> o.s.wait == s.wait)
  {
    SignalSemaphoreKeepsInv(s, id, units);
    var o := SignalSemaphoreStep(s, id, units);
    if o.ret == E_OK {
      var e := First(s, UnitsBack, 0);
      var value := s.sems[id - 1].value + units;
      if e < |s.wait| && value >= s.tasks[s.wait[e]].request {
        LeaverOfRelease(s, o.s, e);
        assert IndexOf(s.wait, s.wait[e]) == e;
      }
    }
  }

  /** An accepted signal that hands over nothing: no task waits for units, or one
    * that does asks for more than there now are.
    */
  lemma SignalWithoutHandOver(s: State, id: int, units: int, t: TaskId) returns (f: TaskId)
    requires Inv(s) && SignalSemaphoreStep(s, id, units).ret == E_OK
    requires Leaver(s, SignalSemaphoreStep(s, id, units).s) == None
    requires WaitsForUnits(s, t)
    ensures ValidId(id, MAX_SEMAPHORES)
    ensures WaitsForUnits(s, f) && s.tasks[f].request > s.sems[id - 1].value + units
  {
    assert Matches(s.tasks[s.wait[IndexOf(s.wait, t)]], UnitsBack);
    var e := First(s, UnitsBack, 0);
    f := s.wait[e];
    if s.tasks[f].request <= s.sems[id - 1].value + units {
      LeaverOfRelease(s, SignalSemaphoreStep(s, id, units).s, e);
    }
  }

  // ------------------------------------------------------------ conservation

  /** The units a signal gives to semaphore k, if that exists and can hold them. */
  ghost function Accepted(s: State, step: Step, k: nat): int
    requires Inv(s) && Enabled(s, step)
  {
    match step
    case Invoke(SignalSemaphore(id, units)) =>
      if id == k + 1 && k < 8 && s.sems[k].inUse && s.sems[k].value + units <= s.sems[k].max then units else 0
    case _ => 0
  }

  /** The units a task takes from semaphore k, at once or by hand-over. */
  ghost function Taken(s: State, step: Step, k: nat): int
    requires Inv(s) && Enabled(s, step)
  {
    match step
    case Invoke(WaitSemaphore(id, units, timeout)) =>
      if id == k + 1 && Perform(s, step.call).ret == E_OK && s.curr.value !in Exec(s, step).wait then units else 0
    case Invoke(SignalSemaphore(id, units)) =>
      var w := Leaver(s, Exec(s, step));
      if id == k + 1 && w.Some? then s.tasks[w.value].request else 0
    case _ => 0
  }

  /** A wait takes its units at once, or leaves every semaphore as it is. */
  lemma WaitEffect(s: State, id: int, units: int, timeout: int)
    requires Inv(s) && CallEnabled(s, WaitSemaphore(id, units, timeout))
    ensures var o := WaitSemaphoreStep(s, id, units, timeout);
      && Inv(o.s)
      && (o.ret == E_OK && s.curr.value !in o.s.wait ==>
            && ValidId(id, MAX_SEMAPHORES) && s.sems[id - 1].inUse && units <= s.sems[id - 1].value
            && o.s.sems == s.sems[id - 1 := s.sems[id - 1].(value := s.sems[id - 1].value - units)]
            && o.s.wait == s.wait && o.s.tasks == s.tasks)
      && (o.ret != E_OK ==> o.s == s)
      && (o.ret == E_OK && s.curr.value in o.s.wait ==> o.s.sems == s.sems)
  {
    WaitSemaphoreKeepsInv(s, id, units, timeout);
    RunningTaskHeadsItsQueue(s);
  }

  /** Steps that neither signal nor wait change a semaphore only by creating it. */
  lemma OtherStepOnSemaphores(s: State, step: Step, k: nat)
    requires Inv(s) && Enabled(s, step) && k < MAX_SEMAPHORES
    requires step.Invoke? ==> !step.call.SignalSemaphore? && !step.call.WaitSemaphore?
    ensures || Exec(s, step).sems[k] == s.sems[k]
            || (!s.sems[k].inUse && step.Invoke? && step.call.CreateSemaphore? &&
                Exec(s, step).sems[k] == SemBlock(true, step.call.initialValue, step.call.maxValue))
  {
    if step.Invoke? && !step.call.CreateSemaphore? {
      CallOnSemaphores(s, step.call);
    } else if step.Tick? {
      ExpireKeepsPriorities(s);
    }
  }

  lemma SignalConservesUnits(s: State, id: int, units: int, k: nat)
    requires Inv(s) && Enabled(s, Invoke(SignalSemaphore(id, units))) && k < MAX_SEMAPHORES
    ensures var step := Invoke(SignalSemaphore(id, units));
      Exec(s, step).sems[k] == s.sems[k].(value := s.sems[k].value + Accepted(s, step, k) - Taken(s, step, k))
  {
    SignalEffect(s, id, units);
  }

  lemma WaitConservesUnits(s: State, id: int, units: int, timeout: int, k: nat)
    requires Inv(s) && Enabled(s, Invoke(WaitSemaphore(id, units, timeout))) && k < MAX_SEMAPHORES
    ensures var step := Invoke(WaitSemaphore(id, units, timeout));
      Exec(s, step).sems[k] == s.sems[k].(value := s.sems[k].value + Accepted(s, step, k) - Taken(s, step, k))
  {
    WaitEffect(s, id, units, timeout);
  }

  lemma StepConservesUnits(s: State, step: Step, k: nat)
    requires Inv(s) && Enabled(s, step) && k < MAX_SEMAPHORES && s.sems[k].inUse
    ensures Exec(s, step).sems[k] ==
            s.sems[k].(value := s.sems[k].value + Accepted(s, step, k) - Taken(s, step, k))
  {
    if step.Invoke? && step.call.SignalSemaphore? {
      SignalConservesUnits(s, step.call.id, step.call.units, k);
    } else if step.Invoke? && step.call.WaitSemaphore? {
      WaitConservesUnits(s, step.call.id, step.call.units, step.call.timeout, k);
    } else {
      OtherStepOnSemaphores(s, step, k);
    }
  }

  ghost function AllAccepted(s: State, steps: seq<Step>, k: nat): int
    requires Inv(s) && Legal(s, steps)
    decreases |steps|
  {
    if steps == [] then 0
    else Accepted(s, steps[0], k) + AllAccepted(Exec(s, steps[0]), steps[1..], k)
  }

  ghost function AllTaken(s: State, steps: seq<Step>, k: nat): int
    requires Inv(s) && Legal(s, steps)
    decreases |steps|
  {
    if steps == [] then 0
    else Taken(s, steps[0], k) + AllTaken(Exec(s, steps[0]), steps[1..], k)
  }

  /** Over every run, a semaphore's value is what it was, plus the units of the
    * accepted signals, minus the units tasks have taken.
    */
  lemma {:induction false} UnitsAreConserved(s: State, steps: seq<Step>, k: nat)
    requires Inv(s) && Legal(s, steps) && k < MAX_SEMAPHORES && s.sems[k].inUse
    ensures Run(s, steps).sems[k].inUse && Run(s, steps).sems[k].max == s.sems[k].max
    ensures Run(s, steps).sems[k].value ==
            s.sems[k].value + AllAccepted(s, steps, k) - AllTaken(s, steps, k)
    decreases |steps|
  {
    if steps != [] {
      StepConservesUnits(s, steps[0], k);
      UnitsAreConserved(Exec(s, steps[0]), steps[1..], k);
    }
  }

  // ---------------------------------------------------- tasks that wait for units

  /** Who waits for units after a step waited before, for as many; or is the caller
    * of a wait that found too few.
    */
  lemma StepOnUnitWaiters(s: State, step: Step, t: TaskId)
    requires Inv(s) && Enabled(s, step) && WaitsForUnits(Exec(s, step), t)
    ensures var s' := Exec(s, step);
      || (WaitsForUnits(s, t) && s'.tasks[t].request == s.tasks[t].request)
      || (step.Invoke? && step.call.WaitSemaphore? && s.curr == Some(t) &&
          s'.tasks[t].request == step.call.units && ValidId(step.call.id, MAX_SEMAPHORES) &&
          s.sems[step.call.id - 1].inUse && s.sems[step.call.id - 1].value < step.call.units &&
          s'.sems == s.sems)
  {
    var s' := Exec(s, step);
    match step
    case Dispatch =>
    case Tick =>
      StepOnUnitWaitersInTick(s, t);
    case Invoke(call) =>
      CallOnUnitWaiters(s, call, t);
  }

  lemma CallOnUnitWaiters(s: State, call: Call, t: TaskId)
    requires Inv(s) && CallEnabled(s, call)
    ensures Shape(Perform(s, call).s)
    ensures var s' := Perform(s, call).s;
      WaitsForUnits(s', t) ==>
        || (WaitsForUnits(s, t) && s'.tasks[t].request == s.tasks[t].request)
        || (call.WaitSemaphore? && s.curr == Some(t) &&
            s'.tasks[t].request == call.units && ValidId(call.id, MAX_SEMAPHORES) &&
            s.sems[call.id - 1].inUse && s.sems[call.id - 1].value < call.units &&
            s'.sems == s.sems)
  {
    hide Perform;
    var k := CallOnWaitQueue(s, call);
    if k < |s.wait| {
      RemoveAtElements(s.wait, k);
    } else if t !in s.wait && t in Perform(s, call).s.wait {
      NewWaiter(s, call);
    }
  }

  lemma StepOnUnitWaitersInTick(s: State, t: TaskId)
    requires Inv(s) && t in TickStep(s).wait
    ensures t in s.wait && TickStep(s).tasks[t].factor == s.tasks[t].factor
    ensures TickStep(s).tasks[t].request == s.tasks[t].request
  {
    TickOnWaitQueue(s);
    ExpireOnWaitQueue(s);
    var e := First(s, TimedOut, 0);
    if e < |s.wait| {
      RemoveAtElements(s.wait, e);
    }
    var i := IndexOf(s.wait, t);
    assert i != e;
  }

  // ------------------------------------------------------------------- bounds

  /** Calls with non-negative counts, and semaphores created within their bounds. */
  predicate Sensible(step: Step) {
    match step
    case Invoke(SignalSemaphore(_, units)) => units >= 0
    case Invoke(WaitSemaphore(_, units, _)) => units >= 0
    case Invoke(CreateSemaphore(initialValue, maxValue)) => 0 <= initialValue <= maxValue
    case _ => true
  }

  ghost predicate WithinBounds(s: State)
    requires Shape(s)
  {
    && (forall k | 0 <= k < MAX_SEMAPHORES && s.sems[k].inUse :: 0 <= s.sems[k].value <= s.sems[k].max)
    && (forall t: TaskId | WaitsForUnits(s, t) :: s.tasks[t].request >= 0)
  }

  lemma StepKeepsBounds(s: State, step: Step)
    requires Inv(s) && Enabled(s, step) && Sensible(step) && WithinBounds(s)
    ensures WithinBounds(Exec(s, step))
  {
    var s' := Exec(s, step);
    forall t: TaskId | WaitsForUnits(s', t)
      ensures s'.tasks[t].request >= 0
    {
      StepOnUnitWaiters(s, step, t);
    }
    if step.Invoke? {
      StepKeepsValues(s, step.call);
    } else if step.Tick? {
      ExpireKeepsPriorities(s);
    }
  }

  lemma StepKeepsValues(s: State, call: Call)
    requires Inv(s) && CallEnabled(s, call) && Sensible(Invoke(call)) && WithinBounds(s)
    ensures var s' := Perform(s, call).s;
      Shape(s') &&
      forall k | 0 <= k < MAX_SEMAPHORES && s'.sems[k].inUse :: 0 <= s'.sems[k].value <= s'.sems[k].max
  {
    CallKeepsInv(s, call);
    if call.SignalSemaphore? {
      SignalEffect(s, call.id, call.units);
    } else if call.WaitSemaphore? {
      WaitEffect(s, call.id, call.units, call.timeout);
    } else if !call.CreateSemaphore? {
      CallOnSemaphores(s, call);
    }
  }

  /** 0 <= value <= max_value at every step boundary of every such run. */
  lemma {:induction false} ValuesStayWithinBounds(s: State, steps: seq<Step>)
    requires Inv(s) && Legal(s, steps) && WithinBounds(s)
    requires forall step | step in steps :: Sensible(step)
    ensures WithinBounds(Run(s, steps))
    decreases |steps|
  {
    if steps != [] {
      StepKeepsBounds(s, steps[0]);
      ValuesStayWithinBounds(Exec(s, steps[0]), steps[1..]);
    }
  }

  // ------------------------------------------------------- one unit at a time

  /** Semaphore k is the only one in use, one unit at a time. */
  predicate SingleUnit(step: Step, k: nat) {
    match step
    case Invoke(SignalSemaphore(id, units)) => id == k + 1 && units == 1
    case Invoke(WaitSemaphore(id, units, _)) => id == k + 1 && units == 1
    case Invoke(CreateSemaphore(initialValue, maxValue)) => 0 <= initialValue <= maxValue
    case _ => true
  }

  /** No unit is idle while a task waits for one. */
  ghost predicate NoIdleUnit(s: State, k: nat)
    requires Shape(s) && k < MAX_SEMAPHORES
  {
    forall t: TaskId | WaitsForUnits(s, t) ::
      s.sems[k].inUse && s.sems[k].value == 0 && s.tasks[t].request == 1
  }

  lemma SignalLeavesNoIdleUnit(s: State, k: nat)
    requires Inv(s) && Enabled(s, Invoke(SignalSemaphore(k + 1, 1))) && k < MAX_SEMAPHORES
    requires NoIdleUnit(s, k) && (s.sems[k].inUse ==> s.sems[k].value >= 0)
    ensures var s' := Exec(s, Invoke(SignalSemaphore(k + 1, 1)));
      NoIdleUnit(s', k) && (s'.sems[k].inUse ==> s'.sems[k].value >= 0)
  {
    var s' := Exec(s, Invoke(SignalSemaphore(k + 1, 1)));
    SignalEffect(s, k + 1, 1);
    forall t: TaskId | WaitsForUnits(s', t)
      ensures s'.sems[k].inUse && s'.sems[k].value == 0 && s'.tasks[t].request == 1
    {
      StepOnUnitWaiters(s, Invoke(SignalSemaphore(k + 1, 1)), t);
      if SignalSemaphoreStep(s, k + 1, 1).ret == E_OK && Leaver(s, s').None? {
        var f := SignalWithoutHandOver(s, k + 1, 1, t);
      }
    }
  }

  lemma WaitLeavesNoIdleUnit(s: State, k: nat, timeout: int)
    requires Inv(s) && Enabled(s, Invoke(WaitSemaphore(k + 1, 1, timeout))) && k < MAX_SEMAPHORES
    requires NoIdleUnit(s, k) && (s.sems[k].inUse ==> s.sems[k].value >= 0)
    ensures var s' := Exec(s, Invoke(WaitSemaphore(k + 1, 1, timeout)));
      NoIdleUnit(s', k) && (s'.sems[k].inUse ==> s'.sems[k].value >= 0)
  {
    var s' := Exec(s, Invoke(WaitSemaphore(k + 1, 1, timeout)));
    WaitEffect(s, k + 1, 1, timeout);
    forall t: TaskId | WaitsForUnits(s', t)
      ensures s'.sems[k].inUse && s'.sems[k].value == 0 && s'.tasks[t].request == 1
    {
      StepOnUnitWaiters(s, Invoke(WaitSemaphore(k + 1, 1, timeout)), t);
    }
  }

  lemma StepLeavesNoIdleUnit(s: State, step: Step, k: nat)
    requires Inv(s) && Enabled(s, step) && k < MAX_SEMAPHORES && SingleUnit(step, k)
    requires NoIdleUnit(s, k) && (s.sems[k].inUse ==> s.sems[k].value >= 0)
    ensures var s' := Exec(s, step);
      NoIdleUnit(s', k) && (s'.sems[k].inUse ==> s'.sems[k].value >= 0)
  {
    if step.Invoke? && step.call.SignalSemaphore? {
      SignalLeavesNoIdleUnit(s, k);
    } else if step.Invoke? && step.call.WaitSemaphore? {
      WaitLeavesNoIdleUnit(s, k, step.call.timeout);
    } else {
      var s' := Exec(s, step);
      OtherStepOnSemaphores(s, step, k);
      forall t: TaskId | WaitsForUnits(s', t)
        ensures s'.sems[k].inUse && s'.sems[k].value == 0 && s'.tasks[t].request == 1
      {
        StepOnUnitWaiters(s, step, t);
      }
    }
  }

  /** With one semaphore in use, one unit at a time, a positive value means that no
    * task waits for it, in every reachable state, timeouts included.
    */
  lemma {:induction false} PositiveValueMeansNoWaiter(s: State, steps: seq<Step>, k: nat)
    requires Inv(s) && Legal(s, steps) && k < MAX_SEMAPHORES
    requires forall step | step in steps :: SingleUnit(step, k)
    requires NoIdleUnit(s, k) && (s.sems[k].inUse ==> s.sems[k].value >= 0)
    ensures Run(s, steps).sems[k].value > 0 ==> forall t: TaskId :: !WaitsForUnits(Run(s, steps), t)
    ensures Run(s, steps).sems[k].inUse ==> Run(s, steps).sems[k].value >= 0
    decreases |steps|
  {
    if steps != [] {
      StepLeavesNoIdleUnit(s, steps[0], k);
      PositiveValueMeansNoWaiter(Exec(s, steps[0]), steps[1..], k);
    }
  }

  // ----------------------------------------------------------- order of grants

  /** Two waiters keep their order for as long as both wait. */
  lemma {:induction false} WaitersKeepTheirOrder(s: State, steps: seq<Step>, a: TaskId, b: TaskId)
    requires Inv(s) && Legal(s, steps)
    requires WaitsThroughout(s, steps, a) && WaitsThroughout(s, steps, b)
    requires IndexOf(s.wait, a) < IndexOf(s.wait, b)
    ensures var s' := Run(s, steps);
      && a in s'.wait && b in s'.wait
      && IndexOf(s'.wait, a) < IndexOf(s'.wait, b)
      && s'.tasks[a].factor == s.tasks[a].factor && s'.tasks[b].factor == s.tasks[b].factor
    decreases |steps|
  {
    if steps != [] {
      StepKeepsOrder(s, steps[0], a, b);
      WaitersKeepTheirOrder(Exec(s, steps[0]), steps[1..], a, b);
    }
  }

  lemma StepKeepsOrder(s: State, step: Step, a: TaskId, b: TaskId)
    requires Inv(s) && Enabled(s, step)
    requires a in s.wait && b in s.wait && IndexOf(s.wait, a) < IndexOf(s.wait, b)
    requires a in Exec(s, step).wait && b in Exec(s, step).wait
    ensures IndexOf(Exec(s, step).wait, a) < IndexOf(Exec(s, step).wait, b)
    ensures Exec(s, step).tasks[a].factor == s.tasks[a].factor
    ensures Exec(s, step).tasks[b].factor == s.tasks[b].factor
  {
    StepOnWaiter(s, step, a);
    StepOnWaiter(s, step, b);
    match step
    case Dispatch =>
    case Tick =>
      TickOnWaitQueue(s);
      ExpireOnWaitQueue(s);
      var e := First(s, TimedOut, 0);
      if e < |s.wait| {
        OrderAfterRemoval(s.wait, e, a, b);
      }
    case Invoke(call) =>
      var k := CallOnWaitQueue(s, call);
      if k < |s.wait| {
        OrderAfterRemoval(s.wait, k, a, b);
      } else {
        AppendKeepsPosition(s.wait, Perform(s, call).s.wait, a);
        AppendKeepsPosition(s.wait, Perform(s, call).s.wait, b);
      }
  }

  lemma OrderAfterRemoval(q: seq<TaskId>, k: nat, a: TaskId, b: TaskId)
    requires Distinct(q) && k < |q| && a in q && b in q && IndexOf(q, a) < IndexOf(q, b)
    requires a in RemoveAt(q, k) && b in RemoveAt(q, k)
    ensures IndexOf(RemoveAt(q, k), a) < IndexOf(RemoveAt(q, k), b)
  {
    RemoveAtElements(q, k);
    PositionAfterRemoval(q, k, a);
    PositionAfterRemoval(q, k, b);
  }

  /** Tasks that wait for units are granted them in the order they blocked: no
    * signal takes a task while one that blocked before it still waits.
    */
  lemma GrantsFollowBlockingOrder(s: State, steps: seq<Step>, a: TaskId, b: TaskId, id: int, units: int)
    requires Inv(s) && Legal(s, steps)
    requires WaitsForUnits(s, a) && WaitsForUnits(s, b) && IndexOf(s.wait, a) < IndexOf(s.wait, b)
    requires WaitsThroughout(s, steps, a) && WaitsThroughout(s, steps, b)
    requires Enabled(Run(s, steps), Invoke(SignalSemaphore(id, units)))
    ensures b in Exec(Run(s, steps), Invoke(SignalSemaphore(id, units))).wait
  {
    WaitersKeepTheirOrder(s, steps, a, b);
    var s' := Run(s, steps);
    SignalEffect(s', id, units);
    var w := Leaver(s', SignalSemaphoreStep(s', id, units).s);
    assert s'.wait[IndexOf(s'.wait, a)] == a;
    if w.Some? {
      RemoveAtElements(s'.wait, IndexOf(s'.wait, w.value));
    }
  }

  // --------------------------------------------------------- mutual exclusion

  /** Who holds a unit of semaphore k after a step: a signal gives its caller's
    * back and a hand-over or an immediate wait gives the taker one.
    */
  ghost function Holders(s: State, step: Step, k: nat, held: set<TaskId>): set<TaskId>
    requires Inv(s) && Enabled(s, step)
  {
    match step
    case Invoke(SignalSemaphore(id, units)) =>
      var w := Leaver(s, Exec(s, step));
      if id != k + 1 || Perform(s, step.call).ret != E_OK then held
      else held - {s.curr.value} + (if w.Some? then {w.value} else {})
    case Invoke(WaitSemaphore(id, units, timeout)) =>
      if id == k + 1 && Perform(s, step.call).ret == E_OK && s.curr.value !in Exec(s, step).wait
      then held + {s.curr.value} else held
    case _ => held
  }

  ghost function HoldersAfter(s: State, steps: seq<Step>, k: nat, held: set<TaskId>): set<TaskId>
    requires Inv(s) && Legal(s, steps)
    decreases |steps|
  {
    if steps == [] then held
    else HoldersAfter(Exec(s, steps[0]), steps[1..], k, Holders(s, steps[0], k, held))
  }

  /** Only holders signal, and all calls are for one unit of semaphore k. */
  ghost predicate Disciplined(s: State, steps: seq<Step>, k: nat, held: set<TaskId>)
    requires Inv(s) && Legal(s, steps)
    decreases |steps|
  {
    steps == [] || (
      && SingleUnit(steps[0], k)
      && (steps[0].Invoke? && steps[0].call.SignalSemaphore? ==> s.curr.Some? && s.curr.value in held)
      && Disciplined(Exec(s, steps[0]), steps[1..], k, Holders(s, steps[0], k, held)))
  }

  /** A binary semaphore whose unit is either free or held by one task. */
  ghost predicate Guarded(s: State, k: nat, held: set<TaskId>)
    requires Shape(s) && k < MAX_SEMAPHORES
  {
    && s.sems[k].inUse && s.sems[k].max == 1 && 0 <= s.sems[k].value
    && s.sems[k].value + |held| == 1
    && (forall t: TaskId | WaitsForUnits(s, t) :: s.tasks[t].request == 1)
  }

  lemma OnlyElement<T>(held: set<T>, t: T)
    requires t in held && |held| <= 1
    ensures held == {t}
  {
    assert |held - {t}| == 0;
    assert held == held - {t} + {t};
  }

  /** The signal of a holder frees its unit or hands it on. */
  lemma SignalKeepsUnit(s: State, k: nat, held: set<TaskId>)
    requires Inv(s) && k < MAX_SEMAPHORES && Enabled(s, Invoke(SignalSemaphore(k + 1, 1)))
    requires s.curr.Some? && s.curr.value in held && Guarded(s, k, held)
    ensures var step := Invoke(SignalSemaphore(k + 1, 1));
      var (s', held') := (Exec(s, step), Holders(s, step, k, held));
      && s'.sems[k].inUse && s'.sems[k].max == 1 && 0 <= s'.sems[k].value
      && s'.sems[k].value + |held'| == 1
  {
    SignalEffect(s, k + 1, 1);
    OnlyElement(held, s.curr.value);
    assert held - {s.curr.value} == {};
  }

  lemma StepKeepsGuard(s: State, step: Step, k: nat, held: set<TaskId>)
    requires Inv(s) && Enabled(s, step) && k < MAX_SEMAPHORES && SingleUnit(step, k)
    requires step.Invoke? && step.call.SignalSemaphore? ==> s.curr.Some? && s.curr.value in held
    requires Guarded(s, k, held)
    ensures Guarded(Exec(s, step), k, Holders(s, step, k, held))
  {
    var s' := Exec(s, step);
    forall t: TaskId | WaitsForUnits(s', t)
      ensures s'.tasks[t].request == 1
    {
      StepOnUnitWaiters(s, step, t);
    }
    if step.Invoke? && step.call.SignalSemaphore? {
      SignalKeepsUnit(s, k, held);
    } else if step.Invoke? && step.call.WaitSemaphore? {
      WaitEffect(s, k + 1, 1, step.call.timeout);
    } else {
      OtherStepOnSemaphores(s, step, k);
    }
  }

  /** A semaphore of max_value 1 that only its holders signal is a mutex: on every
    * run its unit is either free or held by exactly one task, and never lost.
    */
  lemma {:induction false} AtMostOneHolder(s: State, steps: seq<Step>, k: nat, held: set<TaskId>)
    requires Inv(s) && Legal(s, steps) && k < MAX_SEMAPHORES
    requires Guarded(s, k, held) && Disciplined(s, steps, k, held)
    ensures Guarded(Run(s, steps), k, HoldersAfter(s, steps, k, held))
    ensures Run(s, steps).sems[k].value + |HoldersAfter(s, steps, k, held)| == 1
    decreases |steps|
  {
    if steps != [] {
      StepKeepsGuard(s, steps[0], k, held);
      AtMostOneHolder(Exec(s, steps[0]), steps[1..], k, Holders(s, steps[0], k, held));
    }
  }
}
