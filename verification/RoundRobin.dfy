/** Round robin among the tasks of one priority: a ready task's turn comes after
  * as many departures of the head as there are tasks before it.
  */
module RoundRobin {
  import opened Counting
  import opened Wrappers
  import opened KernelTypes
  import opened KernelSpec
  import opened KernelInvariant
  import opened KernelRuns
  import opened DelayBounds

  /** A step that lets go of at most the head of a ready queue (which then is the
    * running task) and otherwise only appends.
    */
  ghost predicate ReadyQueueEffect(s: State, s': State, q: nat, h: nat)
    requires Shape(s) && Shape(s') && q < MAX_TASK_PRI
  {
    && h <= 1 && h <= |s.ready[q]|
    && s.ready[q][h..] <= s'.ready[q]
    && (h == 1 ==> Some(s.ready[q][0]) == s.curr)
  }

  lemma ReleaseOnReadyQueue(s: State, k: nat, q: nat)
    requires Lists(s) && k < |s.wait| && q < MAX_TASK_PRI
    ensures TaskOk(s, s.wait[k]) && s.ready[q] <= Release(s, k).ready[q]
  {
    assert TaskOk(s, s.wait[k]);
  }

  lemma TakePatternOnReadyQueue(s: State, id: int, pattern: Bits, q: nat)
    requires Inv(s) && ValidId(id, MAX_FLAGS) && q < MAX_TASK_PRI
    ensures Shape(TakePattern(s, id, pattern)) && s.ready[q] <= TakePattern(s, id, pattern).ready[q]
  {
    TakePatternKeepsInv(s, id, pattern);
    var e := First(s, PatternSet(pattern), 0);
    if e < |s.wait| {
      ReleaseOnReadyQueue(s, e, q);
    }
  }

  lemma SetFlagOnReadyQueue(s: State, id: int, bits: Bits, q: nat)
    requires Inv(s) && q < MAX_TASK_PRI
    ensures Shape(SetFlagStep(s, id, bits).s) && s.ready[q] <= SetFlagStep(s, id, bits).s.ready[q]
  {
    if ValidId(id, MAX_FLAGS) {
      TakePatternOnReadyQueue(s, id, With(s.flags[id - 1].pattern, bits), q);
    }
  }

  lemma SignalOnReadyQueue(s: State, id: int, units: int, q: nat)
    requires Inv(s) && q < MAX_TASK_PRI
    ensures Shape(SignalSemaphoreStep(s, id, units).s)
    ensures s.ready[q] <= SignalSemaphoreStep(s, id, units).s.ready[q]
  {
    SignalSemaphoreKeepsInv(s, id, units);
    var e := First(s, UnitsBack, 0);
    if e < |s.wait| {
      ReleaseOnReadyQueue(s, e, q);
    }
  }

  lemma WakeupOnReadyQueue(s: State, id: int, q: nat)
    requires Inv(s) && q < MAX_TASK_PRI
    ensures Shape(WakeupTaskStep(s, id).s) && s.ready[q] <= WakeupTaskStep(s, id).s.ready[q]
  {
    WakeupTaskKeepsInv(s, id);
  }

  lemma ReleasingCallOnReadyQueue(s: State, call: Call, q: nat)
    requires Inv(s) && CallEnabled(s, call) && q < MAX_TASK_PRI
    requires call.WakeupTask? || call.SetFlag? || call.SignalSemaphore?
    ensures Shape(Perform(s, call).s) && s.ready[q] <= Perform(s, call).s.ready[q]
  {
    if call.SetFlag? {
      SetFlagOnReadyQueue(s, call.id, call.bits, q);
    } else if call.SignalSemaphore? {
      SignalOnReadyQueue(s, call.id, call.units, q);
    } else {
      WakeupOnReadyQueue(s, call.id, q);
    }
  }

  lemma CallOnReadyQueue(s: State, call: Call, q: nat) returns (h: nat)
    requires Inv(s) && CallEnabled(s, call) && q < MAX_TASK_PRI
    ensures Shape(Perform(s, call).s) && ReadyQueueEffect(s, Perform(s, call).s, q, h)
  {
    CallKeepsInv(s, call);
    RunningTaskHeadsItsQueue(s);
    h := 0;
    if call.WakeupTask? || call.SetFlag? || call.SignalSemaphore? {
      ReleasingCallOnReadyQueue(s, call, q);
    } else if |Perform(s, call).s.ready[q]| < |s.ready[q]| {
      h := 1;
    }
  }

  lemma TickOnReadyQueue(s: State, q: nat) returns (h: nat)
    requires Inv(s) && TickSafe(s) && q < MAX_TASK_PRI
    ensures Shape(TickStep(s)) && ReadyQueueEffect(s, TickStep(s), q, h)
    ensures h == 1 <==>
              && !s.dispatching
              && q == s.tasks[s.curr.value].pri
              && s.ready[q] != []
              && |Expire(s).ready[q]| >= 2
  {
    ExpireKeepsPriorities(s);
    var x := Expire(s);
    assert s.ready[q] <= x.ready[q];
    h := 0;
    if !s.dispatching && q == s.tasks[s.curr.value].pri && s.ready[q] != [] && |x.ready[q]| >= 2 {
      h := 1;
      assert x.ready[q][0] == s.ready[q][0];
    }
  }

  // --------------------------------------------------------- bounded waiting

  /** The head of ready queue q leaves it, or goes to its tail. */
  ghost predicate HeadMoves(s: State, step: Step, q: nat)
    requires Inv(s) && Enabled(s, step) && q < MAX_TASK_PRI
  {
    && s.ready[q] != []
    && (Exec(s, step).ready[q] == [] || Exec(s, step).ready[q][0] != s.ready[q][0])
  }

  ghost function Moves(s: State, steps: seq<Step>, q: nat): nat
    requires Inv(s) && Legal(s, steps) && q < MAX_TASK_PRI
    decreases |steps|
  {
    if steps == [] then 0
    else (if HeadMoves(s, steps[0], q) then 1 else 0) + Moves(Exec(s, steps[0]), steps[1..], q)
  }

  /** t is at no point of the run the running task. */
  ghost predicate NotRunning(s: State, steps: seq<Step>, t: TaskId)
    requires Inv(s) && Legal(s, steps)
    decreases |steps|
  {
    s.curr != Some(t) && (steps == [] || NotRunning(Exec(s, steps[0]), steps[1..], t))
  }

  /** A step moves a ready task that is not running one place up when the head of
    * its queue moves, and nowhere otherwise.
    */
  lemma StepOnPosition(s: State, step: Step, q: nat, t: TaskId)
    requires Inv(s) && Enabled(s, step) && q < MAX_TASK_PRI
    requires t in s.ready[q] && s.curr != Some(t)
    ensures t in Exec(s, step).ready[q]
    ensures IndexOf(s.ready[q], t) ==
            IndexOf(Exec(s, step).ready[q], t) + (if HeadMoves(s, step, q) then 1 else 0)
  {
    var s' := Exec(s, step);
    var h := 0;
    match step {
      case Invoke(call) => h := CallOnReadyQueue(s, call, q);
      case Tick => h := TickOnReadyQueue(s, q);
      case Dispatch =>
    }
    PositionInQueue(s.ready[q], s'.ready[q], h, t);
  }

  lemma PositionInQueue(r: seq<TaskId>, r': seq<TaskId>, h: nat, t: TaskId)
    requires Distinct(r) && Distinct(r') && h <= 1 && h <= |r| && r[h..] <= r'
    requires t in r && (h == 1 ==> r[0] != t)
    ensures t in r' && IndexOf(r, t) == IndexOf(r', t) + h
    ensures h == 1 <==> r' == [] || r'[0] != r[0]
  {
    var i := IndexOf(r, t);
    assert r'[i - h] == r[h..][i - h] == t;
    assert r'[0] == r[h..][0] == r[h];
  }

  /** Until it runs, a ready task moves up one place per departure of the head of
    * its queue, whatever else happens; so no more than its position departures
    * can pass it by.
    */
  lemma {:induction false} PositionCountsDown(s: State, steps: seq<Step>, q: nat, t: TaskId)
    requires Inv(s) && Legal(s, steps) && q < MAX_TASK_PRI
    requires t in s.ready[q] && NotRunning(s, steps, t)
    ensures t in Run(s, steps).ready[q]
    ensures IndexOf(Run(s, steps).ready[q], t) == IndexOf(s.ready[q], t) - Moves(s, steps, q)
    ensures Moves(s, steps, q) <= IndexOf(s.ready[q], t)
    decreases |steps|
  {
    if steps != [] {
      StepOnPosition(s, steps[0], q, t);
      PositionCountsDown(Exec(s, steps[0]), steps[1..], q, t);
    }
  }

  /** Once as many heads have left as there were tasks before it, and no task of
    * higher priority is ready, the next dispatch runs the task.
    */
  lemma TurnComes(s: State, steps: seq<Step>, q: nat, t: TaskId)
    requires Inv(s) && Legal(s, steps) && q < MAX_TASK_PRI
    requires t in s.ready[q] && NotRunning(s, steps, t)
    requires Moves(s, steps, q) == IndexOf(s.ready[q], t)
    requires forall h | 0 <= h < q :: Run(s, steps).ready[h] == []
    ensures Enabled(Run(s, steps), Dispatch)
    ensures Exec(Run(s, steps), Dispatch).curr == Some(t)
  {
    PositionCountsDown(s, steps, q, t);
    NotRunningAtEnd(s, steps, t);
    var s' := Run(s, steps);
    TopReadyIsFirst(s'.ready, 0);
    assert s'.ready[q][0] == t;
  }

  lemma {:induction false} NotRunningAtEnd(s: State, steps: seq<Step>, t: TaskId)
    requires Inv(s) && Legal(s, steps) && NotRunning(s, steps, t)
    ensures Run(s, steps).curr != Some(t)
    decreases |steps|
  {
    if steps != [] {
      NotRunningAtEnd(Exec(s, steps[0]), steps[1..], t);
    }
  }

  /** Heads do leave: with two tasks in the running task's queue, every tick that
    * finds no dispatch due rotates it.
    */
  lemma TickMovesTheHead(s: State)
    requires Inv(s) && !s.dispatching && !s.pending
    requires |s.ready[s.tasks[s.curr.value].pri]| >= 2
    ensures Enabled(s, Tick) && HeadMoves(s, Tick, s.tasks[s.curr.value].pri)
  {
    RunningTaskHeadsItsQueue(s);
    TickIsSafeUnlessDispatchIsDue(s);
    var q := s.tasks[s.curr.value].pri;
    ExpireKeepsPriorities(s);
    assert s.ready[q] <= Expire(s).ready[q];
    var h := TickOnReadyQueue(s, q);
    var t := s.ready[q][1];
    PositionInQueue(s.ready[q], Exec(s, Tick).ready[q], h, t);
  }

  /** Every tick of the run finds no dispatch due and no task of higher priority
    * than q ready.
    */
  ghost predicate PromptTicks(s: State, steps: seq<Step>, q: nat)
    requires Inv(s) && Legal(s, steps) && q < MAX_TASK_PRI
    decreases |steps|
  {
    steps == [] || (
      && (steps[0] == Tick ==> !s.dispatching && !s.pending && forall h | 0 <= h < q :: s.ready[h] == [])
      && PromptTicks(Exec(s, steps[0]), steps[1..], q))
  }

  /** Over such a run a ready task waits for no more ticks than there are tasks before
    * it.
    */
  lemma {:induction false} TurnComesWithinTicks(s: State, steps: seq<Step>, q: nat, t: TaskId)
    requires Inv(s) && Legal(s, steps) && q < MAX_TASK_PRI && PromptTicks(s, steps, q)
    requires t in s.ready[q] && NotRunning(s, steps, t)
    ensures Ticks(steps) <= IndexOf(s.ready[q], t)
    decreases |steps|
  {
    if steps != [] {
      StepOnPosition(s, steps[0], q, t);
      if steps[0] == Tick {
        RunningTaskHeadsItsQueue(s);
        assert s.tasks[t].pri == q;
        assert s.ready[q][0] == s.curr.value != t;
        TickMovesTheHead(s);
      }
      TurnComesWithinTicks(Exec(s, steps[0]), steps[1..], q, t);
    }
  }

  // ---------------------------------------------------------- full rounds

  /** The calls and the timeouts of a step leave the ready queues up to q alone: no
    * task of these priorities blocks, exits or becomes ready.
    */
  ghost predicate Leaves(s: State, step: Step, q: nat)
    requires Inv(s) && Enabled(s, step) && q < MAX_TASK_PRI
  {
    match step
    case Invoke(call) => Exec(s, step).ready[..q + 1] == s.ready[..q + 1]
    case Tick => Expire(s).ready[..q + 1] == s.ready[..q + 1]
    case Dispatch => true
  }

  ghost predicate Undisturbed(s: State, steps: seq<Step>, q: nat)
    requires Inv(s) && Legal(s, steps) && q < MAX_TASK_PRI
    decreases |steps|
  {
    steps == [] || (Leaves(s, steps[0], q) && Undisturbed(Exec(s, steps[0]), steps[1..], q))
  }

  /** r after k rotations. */
  function Turned(r: seq<TaskId>, k: nat): (r': seq<TaskId>)
    requires r != []
    ensures |r'| == |r|
  {
    r[k % |r|..] + r[..k % |r|]
  }

  lemma TurnedHead(r: seq<TaskId>, k: nat)
    requires r != []
    ensures Turned(r, k)[0] == r[k % |r|]
  {}

  lemma TurnedOnce(r: seq<TaskId>, k: nat)
    requires r != []
    ensures Turned(r, k)[1..] + [Turned(r, k)[0]] == Turned(r, k + 1)
    ensures |r| < 2 ==> Turned(r, k + 1) == Turned(r, k)
  {
    var (n, i) := (|r|, k % |r|);
    NextRemainder(k, n);
    if i + 1 < n {
      assert r[i..][1..] == r[i + 1..] && r[..i + 1] == r[..i] + [r[i]];
    } else {
      assert r[..i] + [r[i]] == r;
    }
  }

  lemma NextRemainder(k: nat, n: nat)
    requires n > 0
    ensures (k + 1) % n == if k % n + 1 < n then k % n + 1 else 0
  {
    var (q, i) := (k / n, k % n);
    assert k + 1 == n * q + (i + 1);
    if i + 1 < n {
      RemainderIs(k + 1, n, q, i + 1);
    } else {
      assert n * (q + 1) == n * q + n;
      RemainderIs(k + 1, n, q + 1, 0);
    }
  }

  lemma RemainderIs(x: nat, n: nat, q: nat, i: nat)
    requires i < n && x == n * q + i
    ensures x % n == i
  {
    var d := x / n - q;
    assert x == n * (x / n) + x % n;
    assert n * (x / n) == n * q + n * d;
    assert d > 0 ==> n * d >= n;
    assert d < 0 ==> n * d + n <= 0;
  }

  /** k ticks into the rounds over the tasks r of priority q: none of higher priority
    * is ready, the queue is r after k rotations, and its head runs, or is about to.
    */
  ghost predicate InTurn(s: State, q: nat, r: seq<TaskId>, k: nat)
    requires Inv(s) && q < MAX_TASK_PRI && r != []
  {
    && !s.dispatching && s.tasks[s.curr.value].pri == q
    && (forall h | 0 <= h < q :: s.ready[h] == [])
    && s.ready[q] == Turned(r, k)
    && (!s.pending ==> s.curr == Some(s.ready[q][0]))
  }

  lemma CallKeepsTurn(s: State, call: Call, q: nat, r: seq<TaskId>, k: nat)
    requires Inv(s) && Enabled(s, Invoke(call)) && q < MAX_TASK_PRI && r != []
    requires Leaves(s, Invoke(call), q) && InTurn(s, q, r, k)
    ensures InTurn(Exec(s, Invoke(call)), q, r, k)
  {
    var s' := Exec(s, Invoke(call));
    CallKeepsCurrent(s, call);
    assert forall h | 0 <= h <= q :: s'.ready[h] == s'.ready[..q + 1][h] && s.ready[h] == s.ready[..q + 1][h];
    assert s.curr.value in s'.ready[q];
  }

  lemma CallKeepsCurrent(s: State, call: Call)
    requires Inv(s) && CallEnabled(s, call)
    ensures Perform(s, call).s.curr == s.curr && Perform(s, call).s.dispatching == s.dispatching
  {}

  lemma {:induction false} TopReadyIs(ready: seq<seq<TaskId>>, q: nat, from: nat)
    requires from <= q < |ready| && ready[q] != [] && forall h | from <= h < q :: ready[h] == []
    ensures TopReady(ready, from) == Some(ready[q][0])
    decreases q - from
  {
    if from < q {
      TopReadyIs(ready, q, from + 1);
    }
  }

  /** What a tick that disturbs nothing does to the queues up to the running task's. */
  lemma TickTurnsTheQueue(s: State, q: nat)
    requires Inv(s) && Enabled(s, Tick) && q < MAX_TASK_PRI && Leaves(s, Tick, q)
    requires !s.dispatching && s.tasks[s.curr.value].pri == q
    ensures |Exec(s, Tick).tasks| == MAX_TASKS && |Exec(s, Tick).ready| == MAX_TASK_PRI
    ensures var (s', r) := (Exec(s, Tick), s.ready[q]);
      && (forall h | 0 <= h < q :: s'.ready[h] == s.ready[h])
      && s'.ready[q] == (if |r| < 2 then r else r[1..] + [r[0]])
      && s'.curr == s.curr && !s'.dispatching && s'.tasks[s.curr.value].pri == q
      && s'.scheduled == TopReady(s'.ready, 0) && (!s'.pending ==> s'.curr == s'.scheduled)
  {
    ExpireKeepsPriorities(s);
    var x := Expire(s);
    assert forall h | 0 <= h <= q :: x.ready[h] == x.ready[..q + 1][h] && s.ready[h] == s.ready[..q + 1][h];
  }

  lemma TickKeepsTurn(s: State, q: nat, r: seq<TaskId>, k: nat)
    requires Inv(s) && Enabled(s, Tick) && q < MAX_TASK_PRI && r != []
    requires Leaves(s, Tick, q) && InTurn(s, q, r, k)
    ensures InTurn(Exec(s, Tick), q, r, k + 1)
  {
    TickTurnsTheQueue(s, q);
    TurnedOnce(r, k);
    hide Exec, Turned, Enabled, Leaves, TopReady, Inv;
    TopReadyIs(Exec(s, Tick).ready, q, 0);
  }

  lemma DispatchKeepsTurn(s: State, q: nat, r: seq<TaskId>, k: nat)
    requires Inv(s) && Enabled(s, Dispatch) && q < MAX_TASK_PRI && r != [] && InTurn(s, q, r, k)
    ensures InTurn(Exec(s, Dispatch), q, r, k)
  {
    TopReadyIs(s.ready, q, 0);
    assert s.ready[q][0] in s.ready[q];
  }

  /** However calls, ticks and dispatches follow each other, as long as the queues up
    * to q are left alone, k ticks turn the queue by k.
    */
  lemma {:induction false} RoundsGoOn(s: State, steps: seq<Step>, q: nat, r: seq<TaskId>, k: nat)
    requires Inv(s) && Legal(s, steps) && q < MAX_TASK_PRI && r != []
    requires InTurn(s, q, r, k) && Undisturbed(s, steps, q)
    ensures InTurn(Run(s, steps), q, r, k + Ticks(steps))
    decreases |steps|
  {
    hide InTurn, Exec, Enabled, Leaves, Inv;
    if steps != [] {
      StepKeepsTurn(s, steps[0], q, r, k);
      RoundsGoOn(Exec(s, steps[0]), steps[1..], q, r, k + (if steps[0] == Tick then 1 else 0));
    }
  }

  lemma StepKeepsTurn(s: State, step: Step, q: nat, r: seq<TaskId>, k: nat)
    requires Inv(s) && Enabled(s, step) && q < MAX_TASK_PRI && r != []
    requires Leaves(s, step, q) && InTurn(s, q, r, k)
    ensures InTurn(Exec(s, step), q, r, k + (if step == Tick then 1 else 0))
  {
    hide InTurn, Exec, Enabled, Leaves;
    match step
    case Invoke(call) => CallKeepsTurn(s, call, q, r, k);
    case Tick => TickKeepsTurn(s, q, r, k);
    case Dispatch => DispatchKeepsTurn(s, q, r, k);
  }

  lemma FirstTurn(s: State)
    requires Inv(s) && !s.dispatching && !s.pending
    ensures var q := s.tasks[s.curr.value].pri;
      0 <= q < MAX_TASK_PRI && s.ready[q] != [] && InTurn(s, q, s.ready[q], 0)
  {
    RunningTaskHeadsItsQueue(s);
  }

  /** While the tasks of the running task's priority neither block nor exit, and none
    * of that or a higher priority becomes ready, the task that runs after k ticks is
    * the k-th of the queue, counted round and round.
    */
  lemma EveryTaskGetsItsTurn(s: State, steps: seq<Step>)
    requires Inv(s) && !s.dispatching && !s.pending && Legal(s, steps)
    requires Undisturbed(s, steps, s.tasks[s.curr.value].pri)
    ensures var (q, s') := (s.tasks[s.curr.value].pri, Run(s, steps));
      && s.ready[q] != []
      && s'.ready[q] == Turned(s.ready[q], Ticks(steps))
      && (!s'.pending ==> s'.curr == Some(s.ready[q][Ticks(steps) % |s.ready[q]|]))
  {
    hide Run, Legal, Undisturbed, Turned;
    FirstTurn(s);
    TurnedHead(s.ready[s.tasks[s.curr.value].pri], Ticks(steps));
    RoundsGoOn(s, steps, s.tasks[s.curr.value].pri, s.ready[s.tasks[s.curr.value].pri], 0);
  }

  lemma {:induction false} PrefixIsUndisturbed(s: State, steps: seq<Step>, i: nat, q: nat)
    requires Inv(s) && Legal(s, steps) && q < MAX_TASK_PRI && Undisturbed(s, steps, q) && i <= |steps|
    ensures Legal(s, steps[..i]) && Undisturbed(s, steps[..i], q)
    decreases i
  {
    if i > 0 {
      assert steps[..i][0] == steps[0] && steps[..i][1..] == steps[1..][..i - 1];
      PrefixIsUndisturbed(Exec(s, steps[0]), steps[1..], i - 1, q);
    }
  }

  /** So in n ticks over n tasks, at whatever points of the run they come, each task
    * runs in exactly one of the periods between them, in the order of the queue.
    */
  lemma OneRoundRunsEachTaskOnce(s: State, steps: seq<Step>, i: nat, k: nat)
    requires Inv(s) && !s.dispatching && !s.pending && Legal(s, steps)
    requires Undisturbed(s, steps, s.tasks[s.curr.value].pri)
    requires i <= |steps| && Ticks(steps[..i]) < |s.ready[s.tasks[s.curr.value].pri]|
    requires k < |s.ready[s.tasks[s.curr.value].pri]|
    ensures Legal(s, steps[..i])
    ensures var (r, x) := (s.ready[s.tasks[s.curr.value].pri], Run(s, steps[..i]));
      !x.pending ==> (x.curr == Some(r[k]) <==> k == Ticks(steps[..i]))
  {
    hide Run, Legal, Undisturbed;
    RunningTaskHeadsItsQueue(s);
    PrefixIsUndisturbed(s, steps, i, s.tasks[s.curr.value].pri);
    EveryTaskGetsItsTurn(s, steps[..i]);
    hide Exec, Enabled;
    RemainderIs(Ticks(steps[..i]), |s.ready[s.tasks[s.curr.value].pri]|, 0, Ticks(steps[..i]));
  }

  /** After them the queue is as it was, and so is the task that runs. */
  lemma RoundRestoresTheQueue(s: State, steps: seq<Step>)
    requires Inv(s) && !s.dispatching && !s.pending && Legal(s, steps)
    requires Undisturbed(s, steps, s.tasks[s.curr.value].pri)
    requires Ticks(steps) == |s.ready[s.tasks[s.curr.value].pri]|
    ensures var (q, s') := (s.tasks[s.curr.value].pri, Run(s, steps));
            s'.ready[q] == s.ready[q] && (!s'.pending ==> s'.curr == s.curr)
  {
    hide Run, Legal, Undisturbed;
    RunningTaskHeadsItsQueue(s);
    EveryTaskGetsItsTurn(s, steps);
    hide Exec, Enabled;
    RemainderIs(Ticks(steps), Ticks(steps), 1, 0);
  }

  // ------------------------------------------------- when nothing disturbs

  /** No task of priority q or higher waits with a finite time; others may. */
  ghost predicate NobodyDue(s: State, q: nat)
    requires Shape(s)
  {
    forall t: TaskId | t in s.wait && s.tasks[t].pri <= q :: s.tasks[t].time == FOREVER
  }

  /** A tick then leaves the queues up to q alone, and keeps it so. */
  lemma TickIsQuiet(s: State, q: nat)
    requires Inv(s) && Enabled(s, Tick) && q < MAX_TASK_PRI && NobodyDue(s, q)
    ensures Leaves(s, Tick, q) && NobodyDue(Exec(s, Tick), q)
  {
    TickOnWaitQueue(s);
    ExpireOnWaitQueue(s);
    ExpireKeepsPriorities(s);
    var e := First(s, TimedOut, 0);
    if e < |s.wait| {
      assert s.wait[e] in s.wait && TaskOk(s, s.wait[e]);
      RemoveAtElements(s.wait, e);
    }
    forall t: TaskId | t in Exec(s, Tick).wait && s.tasks[t].pri <= q
      ensures Exec(s, Tick).tasks[t].time == FOREVER
    {
      StepOnWaiter(s, Tick, t);
    }
  }

  /** So does a call that leaves these queues alone. */
  lemma CallIsQuiet(s: State, call: Call, q: nat)
    requires Inv(s) && CallEnabled(s, call) && q < MAX_TASK_PRI && NobodyDue(s, q)
    requires Leaves(s, Invoke(call), q)
    ensures NobodyDue(Exec(s, Invoke(call)), q)
  {
    var s' := Exec(s, Invoke(call));
    RunningTaskHeadsItsQueue(s);
    var p := s.tasks[s.curr.value].pri;
    var k := CallOnWaitQueue(s, call);
    if p <= q {
      assert s'.ready[p] == s'.ready[..q + 1][p] == s.ready[..q + 1][p] == s.ready[p];
      assert s.curr.value in s'.ready[p];
    }
    if k < |s.wait| {
      RemoveAtElements(s.wait, k);
    }
  }

  /** The calls of the run leave the queues up to q alone. */
  ghost predicate QuietCalls(s: State, steps: seq<Step>, q: nat)
    requires Inv(s) && Legal(s, steps) && q < MAX_TASK_PRI
    decreases |steps|
  {
    steps == [] || (
      && (steps[0].Invoke? ==> Leaves(s, steps[0], q))
      && QuietCalls(Exec(s, steps[0]), steps[1..], q))
  }

  /** It is then the calls alone that decide whether the rounds are undisturbed,
    * whatever timeouts tasks of lower priority wait with.
    */
  lemma {:induction false} CallsDecide(s: State, steps: seq<Step>, q: nat)
    requires Inv(s) && Legal(s, steps) && q < MAX_TASK_PRI && NobodyDue(s, q)
    ensures Undisturbed(s, steps, q) <==> QuietCalls(s, steps, q)
    decreases |steps|
  {
    if steps != [] {
      var step := steps[0];
      match step {
        case Invoke(call) =>
          if Leaves(s, step, q) {
            CallIsQuiet(s, call, q);
          }
        case Tick => TickIsQuiet(s, q);
        case Dispatch =>
      }
      if step.Invoke? ==> Leaves(s, step, q) {
        CallsDecide(Exec(s, step), steps[1..], q);
      }
    }
  }

  /** There are such runs with any number of ticks. */
  lemma {:induction false} PeriodsGoOn(s: State, n: nat, q: nat) returns (steps: seq<Step>)
    requires Inv(s) && q < MAX_TASK_PRI && NobodyDue(s, q)
    ensures Legal(s, steps) && Undisturbed(s, steps, q)
    ensures Ticks(steps) == n && !Run(s, steps).pending
  {
    steps := TicksGoOn(s, n);
    NoCallsAreQuiet(s, steps, q);
    CallsDecide(s, steps, q);
  }

  lemma {:induction false} NoCallsAreQuiet(s: State, steps: seq<Step>, q: nat)
    requires Inv(s) && Legal(s, steps) && q < MAX_TASK_PRI && forall step | step in steps :: !step.Invoke?
    ensures QuietCalls(s, steps, q)
    decreases |steps|
  {
    if steps != [] {
      NoCallsAreQuiet(Exec(s, steps[0]), steps[1..], q);
    }
  }
}
