/** The atomic steps of the kernel as functions on its value-level state.
  * The methods of class Kernel are proved equal to these functions; the
  * properties of the functions are proved in the other modules.
  */
module KernelSpec {
  import opened Bytes
  import opened Counting
  import opened Wrappers
  import opened KernelTypes

  // ---------------------------------------------------------------- queues

  function RemoveTop(q: seq<TaskId>): seq<TaskId> {
    if q == [] then [] else q[1..]
  }

  function RemoveAt(q: seq<TaskId>, k: nat): seq<TaskId>
    requires k < |q|
  {
    q[..k] + q[k + 1..]
  }

  /** The position of t in q, or |q|. */
  function IndexOf(q: seq<TaskId>, t: TaskId): (k: nat)
    ensures k <= |q|
    ensures t in q <==> k < |q|
    ensures k < |q| ==> q[k] == t
  {
    if q == [] || q[0] == t then 0 else 1 + IndexOf(q[1..], t)
  }

  // ------------------------------------------------------- state invariants

  ghost predicate Shape(s: State) {
    && |s.tasks| == MAX_TASKS
    && |s.ready| == MAX_TASK_PRI
    && |s.flags| == MAX_FLAGS
    && |s.sems| == MAX_SEMAPHORES
  }

  /** The queues partition the live tasks: READY is membership of the queue of
    * the task's priority, WAIT is membership of the wait queue, and every other
    * task is in no queue.
    */
  ghost predicate Lists(s: State) {
    && Shape(s)
    && Distinct(s.wait)
    && (forall p | 0 <= p < MAX_TASK_PRI :: Distinct(s.ready[p]))
    && (forall t: TaskId | t in s.wait :: s.tasks[t].state == Wait)
    && (forall p, t: TaskId | 0 <= p < MAX_TASK_PRI && t in s.ready[p] ::
          s.tasks[t].state == Ready && s.tasks[t].pri == p)
    && (forall t: TaskId :: TaskOk(s, t))
  }

  ghost predicate TaskOk(s: State, t: TaskId)
    requires Shape(s)
  {
    var task := s.tasks[t];
    && (task.state != NonExist ==> 1 <= task.pri <= MAX_TASK_PRI)
    && (task.state == Ready || task.state == Wait ==> task.pri < MAX_TASK_PRI)
    && (task.state == Ready ==> t in s.ready[task.pri])
    && (task.state == Wait ==> t in s.wait)
    && (task.state == Wait <==> task.factor != NoFactor)
    && task.time <= FOREVER
  }

  /** What the dispatcher's variables say about each other and the queues. */
  ghost predicate Dispatcher(s: State)
    requires Shape(s)
  {
    && s.scheduled == TopReady(s.ready, 0)
    && (if s.dispatching then
          s.curr == None && !s.pending
        else
          && s.curr.Some?
          && 1 <= s.tasks[s.curr.value].pri < MAX_TASK_PRI
          && s.tasks[s.curr.value].state != NonExist
          && (s.curr != s.scheduled ==> s.pending))
  }

  /** The invariant that holds between any two atomic steps. */
  ghost predicate Inv(s: State) {
    Lists(s) && Dispatcher(s)
  }

  // ---------------------------------------------------------- building blocks

  /** The head of the non-empty queue of the lowest index from p on. */
  function TopReady(ready: seq<seq<TaskId>>, p: nat): (top: Option<TaskId>)
    requires p <= |ready|
    decreases |ready| - p
  {
    if p == |ready| then None
    else if ready[p] != [] then Some(ready[p][0])
    else TopReady(ready, p + 1)
  }

  /** scheduler(): choose the next task and pend a dispatch when it differs. */
  function Schedule(s: State): State {
    var top := TopReady(s.ready, 0);
    s.(scheduled := top, pending := s.pending || (top != s.curr && !s.dispatching))
  }

  /** The running task leaves the ready queues for the wait queue. */
  function Block(s: State, factor: WaitFactor, time: nat): State
    requires Shape(s) && s.curr.Some? && 0 <= s.tasks[s.curr.value].pri < MAX_TASK_PRI
  {
    var t := s.curr.value;
    var p := s.tasks[t].pri;
    s.(ready := s.ready[p := RemoveTop(s.ready[p])],
       wait := s.wait + [t],
       tasks := s.tasks[t := s.tasks[t].(state := Wait, factor := factor, time := time, err := E_OK)])
  }

  /** The waiter at position k becomes ready, behind its equals. */
  function Release(s: State, k: nat): State
    requires Shape(s) && k < |s.wait| && 0 <= s.tasks[s.wait[k]].pri < MAX_TASK_PRI
  {
    var t := s.wait[k];
    var p := s.tasks[t].pri;
    s.(ready := s.ready[p := s.ready[p] + [t]],
       wait := RemoveAt(s.wait, k),
       tasks := s.tasks[t := s.tasks[t].(state := Ready, factor := NoFactor)])
  }

  /** What a traversal of the wait queue looks for. */
  datatype Event = TimedOut | PatternSet(pattern: Bits) | UnitsBack

  predicate CheckFlag(pattern: Bits, waitPattern: Bits, mode: Bits) {
    if mode.word & TWF_ORW != 0 then pattern.word & waitPattern.word != 0
    else pattern.word & waitPattern.word == waitPattern.word
  }

  predicate Matches(task: Task, event: Event) {
    match event
    case TimedOut => task.time != FOREVER && task.time <= TIMER_PERIOD
    case PatternSet(pattern) => task.factor == Flag && CheckFlag(pattern, task.pattern, task.mode)
    case UnitsBack => task.factor == Semaphore
  }

  /** The first position from k on whose waiter the event concerns, or |wait|. */
  function First(s: State, event: Event, k: nat): (e: nat)
    requires Shape(s) && k <= |s.wait|
    ensures k <= e <= |s.wait|
    ensures e < |s.wait| ==> Matches(s.tasks[s.wait[e]], event)
    ensures forall i | k <= i < e :: !Matches(s.tasks[s.wait[i]], event)
    decreases |s.wait| - k
  {
    if k == |s.wait| || Matches(s.tasks[s.wait[k]], event) then k else First(s, event, k + 1)
  }

  // -------------------------------------------------------------- timer tick

  function Older(task: Task): (r: Task) {
    if task.time != FOREVER && task.time > TIMER_PERIOD then task.(time := task.time - TIMER_PERIOD)
    else task
  }

  /** The first k waiters have been aged by one tick. */
  function Age(s: State, k: nat): (s': State)
    requires Shape(s) && k <= |s.wait|
    ensures Shape(s')
    ensures forall t: TaskId :: s'.tasks[t] == s.tasks[t].(time := s'.tasks[t].time)
  {
    s.(tasks := seq(MAX_TASKS, t requires 0 <= t < MAX_TASKS =>
      if t in s.wait[..k] then Older(s.tasks[t]) else s.tasks[t]))
  }

  /** The code the timer leaves in the blocked call it ends. */
  function TimeoutCode(factor: WaitFactor): int {
    if factor == Delay then E_OK else E_TMOUT
  }

  /** The timer's pass over the wait queue. Releasing a task clears its next
    * link, so the pass ends at the first task it releases.
    */
  function Expire(s: State): (s': State)
    requires Lists(s)
    ensures Shape(s')
  {
    var e := First(s, TimedOut, 0);
    var aged := Age(s, e);
    if e == |s.wait| then aged
    else
      var t := s.wait[e];
      assert TaskOk(s, t);
      Release(aged.(tasks := aged.tasks[t := aged.tasks[t].(err := TimeoutCode(aged.tasks[t].factor))]), e)
  }

  /** Round robin: the head of the running task's queue goes, the running task
    * joins the tail.
    */
  function Rotate(s: State): State
    requires Shape(s)
    requires !s.dispatching ==> s.curr.Some? && 0 <= s.tasks[s.curr.value].pri < MAX_TASK_PRI
  {
    if s.dispatching then s
    else
      var p := s.tasks[s.curr.value].pri;
      if |s.ready[p]| < 2 then s
      else s.(ready := s.ready[p := RemoveTop(s.ready[p]) + [s.curr.value]])
  }

  lemma ExpireKeepsPriorities(s: State)
    requires Lists(s)
    ensures forall t: TaskId :: Expire(s).tasks[t].pri == s.tasks[t].pri
    ensures Expire(s).curr == s.curr && Expire(s).dispatching == s.dispatching
  {}

  /** systimer_handler. */
  function TickStep(s: State): State
    requires Inv(s)
  {
    ExpireKeepsPriorities(s);
    Schedule(Rotate(Expire(s)))
  }

  /** The rotation takes the running task for the head of its queue. */
  ghost predicate TickSafe(s: State)
    requires Inv(s)
  {
    s.dispatching ||
    (ExpireKeepsPriorities(s);
     var q := Expire(s).ready[s.tasks[s.curr.value].pri];
     |q| < 2 || q[0] == s.curr.value)
  }

  // ---------------------------------------------------------------- dispatch

  ghost predicate DispatchEnabled(s: State) {
    if s.dispatching then s.scheduled.Some? else s.pending
  }

  /** One pass of dispatch_entry: take up the scheduled task, or go idle; and
    * the way out of the idle loop.
    */
  function DispatchStep(s: State): State {
    s.(curr := s.scheduled, pending := false, dispatching := s.scheduled.None?)
  }

  // ------------------------------------------------------------ system calls

  datatype Call =
    | CreateTask(attr: bv32, pri: int, stackSize: int)
    | StartTask(id: int)
    | ExitTask
    | DelayTask(delay: nat)
    | SleepTask(timeout: int)
    | WakeupTask(id: int)
    | CreateFlag(initial: Bits)
    | SetFlag(id: int, bits: Bits)
    | ClearFlag(id: int, bits: Bits)
    | WaitFlag(id: int, bits: Bits, mode: Bits, timeout: int)
    | CreateSemaphore(initialValue: int, maxValue: int)
    | SignalSemaphore(id: int, units: int)
    | WaitSemaphore(id: int, units: int, timeout: int)

  /** The state after a call, and the value of its err (or id) variable. For a
    * call that blocks, ret is what the variable holds when the task blocks;
    * the task reads tasks[t].err when it runs again.
    */
  datatype Outcome = Outcome(s: State, ret: int)

  /** The first index from i on of a table entry that is not in use. */
  function FreeTask(s: State, i: nat): (k: nat)
    requires i <= |s.tasks|
    ensures i <= k <= |s.tasks|
    ensures k < |s.tasks| ==> s.tasks[k].state == NonExist
    ensures forall j | i <= j < k :: s.tasks[j].state != NonExist
    decreases |s.tasks| - i
  {
    if i == |s.tasks| || s.tasks[i].state == NonExist then i else FreeTask(s, i + 1)
  }

  function FreeFlag(s: State, i: nat): (k: nat)
    requires i <= |s.flags|
    ensures i <= k <= |s.flags|
    ensures k < |s.flags| ==> !s.flags[k].inUse
    ensures forall j | i <= j < k :: s.flags[j].inUse
    decreases |s.flags| - i
  {
    if i == |s.flags| || !s.flags[i].inUse then i else FreeFlag(s, i + 1)
  }

  function FreeSemaphore(s: State, i: nat): (k: nat)
    requires i <= |s.sems|
    ensures i <= k <= |s.sems|
    ensures k < |s.sems| ==> !s.sems[k].inUse
    ensures forall j | i <= j < k :: s.sems[j].inUse
    decreases |s.sems| - i
  {
    if i == |s.sems| || !s.sems[i].inUse then i else FreeSemaphore(s, i + 1)
  }

  predicate ValidId(id: int, n: int) {
    0 < id <= n
  }

  /** delay_time + TIMER_PERIOD in a RELTIME. */
  function DelayTime(delay: nat): nat {
    U32(delay + TIMER_PERIOD)
  }

  function WaitTime(timeout: int): nat {
    if timeout == TMO_FEVR then FOREVER else U32(timeout + TIMER_PERIOD)
  }

  /** A TIMEOUT whose sum with TIMER_PERIOD does not overflow a signed word. */
  predicate TimeoutInRange(timeout: int) {
    INT_MIN <= timeout <= INT_MAX - TIMER_PERIOD
  }

  /** What the source demands of a caller: no access past the end of a table, and
    * no signed overflow of a time or of a semaphore's value by a signal.
    */
  ghost predicate Permitted(s: State, call: Call)
    requires Shape(s)
  {
    match call
    case StartTask(id) =>
      ValidId(id, MAX_TASKS) && s.tasks[id - 1].state == Dormant ==> s.tasks[id - 1].pri < MAX_TASK_PRI
    case DelayTask(delay) => delay < 0x1_0000_0000
    case SleepTask(timeout) => TimeoutInRange(timeout)
    case CreateFlag(_) => FreeFlag(s, 0) < MAX_FLAGS
    case WaitFlag(_, _, _, timeout) => TimeoutInRange(timeout)
    case CreateSemaphore(_, _) => FreeSemaphore(s, 0) < MAX_SEMAPHORES
    case SignalSemaphore(id, units) =>
      ValidId(id, MAX_SEMAPHORES) ==> INT_MIN <= s.sems[id - 1].value + units <= INT_MAX
    case WaitSemaphore(_, _, timeout) => TimeoutInRange(timeout)
    case _ => true
  }

  /** Between steps a call is made by the running task, with no dispatch due. */
  ghost predicate CallEnabled(s: State, call: Call)
    requires Shape(s)
  {
    !s.dispatching && !s.pending && Permitted(s, call)
  }

  function CreateTaskStep(s: State, attr: bv32, pri: int, stackSize: int): Outcome
    requires Shape(s)
  {
    if attr & !(TA_RNG3 | TA_HLNG | TA_USERBUF) != 0 then Outcome(s, E_RSATR)
    else if pri <= 0 || pri > MAX_TASK_PRI then Outcome(s, E_PAR)
    else if attr & TA_USERBUF != 0 && stackSize == 0 then Outcome(s, E_PAR)
    else
      var i := FreeTask(s, 0);
      if i == MAX_TASKS then Outcome(s, E_LIMIT)
      else Outcome(s.(tasks := s.tasks[i := s.tasks[i].(state := Dormant, pri := pri)]), i + 1)
  }

  function StartTaskStep(s: State, id: int): Outcome
    requires Lists(s) && Permitted(s, StartTask(id))
  {
    if !ValidId(id, MAX_TASKS) then Outcome(s, E_ID)
    else if s.tasks[id - 1].state != Dormant then Outcome(s, E_OBJ)
    else
      var t: TaskId := id - 1;
      assert TaskOk(s, t);
      var p := s.tasks[t].pri;
      Outcome(Schedule(s.(tasks := s.tasks[t := s.tasks[t].(state := Ready)],
                          ready := s.ready[p := s.ready[p] + [t]])), E_OK)
  }

  function ExitTaskStep(s: State): Outcome
    requires Shape(s) && s.curr.Some? && 0 <= s.tasks[s.curr.value].pri < MAX_TASK_PRI
  {
    var t := s.curr.value;
    var p := s.tasks[t].pri;
    Outcome(Schedule(s.(tasks := s.tasks[t := s.tasks[t].(state := Dormant)],
                        ready := s.ready[p := RemoveTop(s.ready[p])])), E_OK)
  }

  function DelayTaskStep(s: State, delay: nat): Outcome
    requires Shape(s) && s.curr.Some? && 0 <= s.tasks[s.curr.value].pri < MAX_TASK_PRI
  {
    if delay == 0 then Outcome(s, E_OK)
    else Outcome(Schedule(Block(s, Delay, DelayTime(delay))), E_OK)
  }

  function SleepTaskStep(s: State, timeout: int): Outcome
    requires Shape(s) && s.curr.Some? && 0 <= s.tasks[s.curr.value].pri < MAX_TASK_PRI
  {
    var t := s.curr.value;
    if s.tasks[t].wakeups > 0 then
      Outcome(s.(tasks := s.tasks[t := s.tasks[t].(wakeups := s.tasks[t].wakeups - 1)]), E_OK)
    else
      Outcome(Schedule(Block(s, Sleep, WaitTime(timeout))), E_OK)
  }

  function WakeupTaskStep(s: State, id: int): Outcome
    requires Lists(s)
  {
    if !ValidId(id, MAX_TASKS) then Outcome(s, E_ID)
    else
      var t: TaskId := id - 1;
      assert TaskOk(s, t);
      if s.tasks[t].state == Wait && s.tasks[t].factor == Sleep then
        Outcome(Schedule(Release(s, IndexOf(s.wait, t))), E_OK)
      else if s.tasks[t].state == Ready || s.tasks[t].state == Wait then
        Outcome(s.(tasks := s.tasks[t := s.tasks[t].(wakeups := s.tasks[t].wakeups + 1)]), E_OK)
      else Outcome(s, E_OBJ)
  }

  function CreateFlagStep(s: State, initial: Bits): Outcome
    requires Shape(s)
  {
    var i := FreeFlag(s, 0);
    if i == MAX_FLAGS then Outcome(s, E_LIMIT)
    else Outcome(s.(flags := s.flags[i := FlagBlock(true, initial)]), i + 1)
  }

  /** The pattern a flag keeps once a wait with this mode has consumed it. */
  function Consumed(pattern: Bits, waitPattern: Bits, mode: Bits): Bits {
    if mode.word & TWF_CLR != 0 then NoBits
    else if mode.word & TWF_BITCLR != 0 then Bits(pattern.word & !waitPattern.word)
    else pattern
  }

  /** The flag waiter at position k becomes ready and is given the pattern. */
  function Delivered(s: State, k: nat, pattern: Bits): State
    requires Shape(s) && k < |s.wait| && 0 <= s.tasks[s.wait[k]].pri < MAX_TASK_PRI
  {
    var t := s.wait[k];
    var released := Release(s, k);
    released.(tasks := released.tasks[t := released.tasks[t].(delivered := pattern)])
  }

  function With(pattern: Bits, bits: Bits): Bits {
    Bits(pattern.word | bits.word)
  }

  /** A flag takes a new pattern. The first waiter in queue order whose condition
    * the pattern meets gets it; no other does, since the walk ends there.
    */
  function TakePattern(s: State, id: int, pattern: Bits): State
    requires Lists(s) && ValidId(id, MAX_FLAGS)
  {
    var e := First(s, PatternSet(pattern), 0);
    if e == |s.wait| then s.(flags := s.flags[id - 1 := FlagBlock(true, pattern)])
    else
      var t := s.wait[e];
      assert TaskOk(s, t);
      var kept := Consumed(pattern, s.tasks[t].pattern, s.tasks[t].mode);
      Schedule(Delivered(s, e, pattern).(flags := s.flags[id - 1 := FlagBlock(true, kept)]))
  }

  function SetFlagStep(s: State, id: int, bits: Bits): Outcome
    requires Lists(s)
  {
    if !ValidId(id, MAX_FLAGS) then Outcome(s, E_ID)
    else if !s.flags[id - 1].inUse then Outcome(s, E_NOEXS)
    else Outcome(TakePattern(s, id, With(s.flags[id - 1].pattern, bits)), E_OK)
  }

  function Common(pattern: Bits, bits: Bits): Bits {
    Bits(pattern.word & bits.word)
  }

  function ClearFlagStep(s: State, id: int, bits: Bits): Outcome
    requires Shape(s)
  {
    if !ValidId(id, MAX_FLAGS) then Outcome(s, E_ID)
    else if !s.flags[id - 1].inUse then Outcome(s, E_NOEXS)
    else Outcome(s.(flags := s.flags[id - 1 := FlagBlock(true, Common(s.flags[id - 1].pattern, bits))]), E_OK)
  }

  function WaitFlagStep(s: State, id: int, bits: Bits, mode: Bits, timeout: int): Outcome
    requires Shape(s) && s.curr.Some? && 0 <= s.tasks[s.curr.value].pri < MAX_TASK_PRI
  {
    var t := s.curr.value;
    if !ValidId(id, MAX_FLAGS) then Outcome(s, E_ID)
    else if !s.flags[id - 1].inUse then Outcome(s, E_NOEXS)
    else
      var pattern := s.flags[id - 1].pattern;
      if CheckFlag(pattern, bits, mode) then
        Outcome(s.(tasks := s.tasks[t := s.tasks[t].(delivered := pattern)],
                   flags := s.flags[id - 1 := FlagBlock(true, Consumed(pattern, bits, mode))]), E_OK)
      else if timeout == TMO_POL then Outcome(s, E_TMOUT)
      else
        var asked := s.(tasks := s.tasks[t := s.tasks[t].(pattern := bits, mode := mode)]);
        Outcome(Schedule(Block(asked, Flag, WaitTime(timeout))), E_OK)
  }

  function CreateSemaphoreStep(s: State, initialValue: int, maxValue: int): Outcome
    requires Shape(s)
  {
    var i := FreeSemaphore(s, 0);
    if i == MAX_SEMAPHORES then Outcome(s, E_LIMIT)
    else Outcome(s.(sems := s.sems[i := SemBlock(true, initialValue, maxValue)]), i + 1)
  }

  function WithValue(s: State, id: int, value: int): (s': State)
    requires Shape(s) && ValidId(id, MAX_SEMAPHORES)
    ensures Shape(s')
  {
    s.(sems := s.sems[id - 1 := s.sems[id - 1].(value := value)])
  }

  /** A semaphore has taken units back. The first task that waits for units gets
    * what it asked for, if there is enough; no other task does.
    */
  function HandOver(s: State, id: int, value: int): State
    requires Lists(s) && ValidId(id, MAX_SEMAPHORES)
  {
    var e := First(s, UnitsBack, 0);
    if e < |s.wait| && value >= s.tasks[s.wait[e]].request then
      assert TaskOk(s, s.wait[e]);
      Schedule(Release(WithValue(s, id, value - s.tasks[s.wait[e]].request), e))
    else WithValue(s, id, value)
  }

  function SignalSemaphoreStep(s: State, id: int, units: int): Outcome
    requires Lists(s)
  {
    if !ValidId(id, MAX_SEMAPHORES) then Outcome(s, E_ID)
    else if !s.sems[id - 1].inUse then Outcome(s, E_NOEXS)
    else
      var value := s.sems[id - 1].value + units;
      if value > s.sems[id - 1].max then Outcome(s, E_QOVR)
      else Outcome(HandOver(s, id, value), E_OK)
  }

  function WaitSemaphoreStep(s: State, id: int, units: int, timeout: int): Outcome
    requires Shape(s) && s.curr.Some? && 0 <= s.tasks[s.curr.value].pri < MAX_TASK_PRI
  {
    var t := s.curr.value;
    if !ValidId(id, MAX_SEMAPHORES) then Outcome(s, E_ID)
    else if !s.sems[id - 1].inUse then Outcome(s, E_NOEXS)
    else if s.sems[id - 1].value >= units then
      Outcome(WithValue(s, id, s.sems[id - 1].value - units), E_OK)
    else if timeout == TMO_POL then Outcome(s, E_TMOUT)
    else
      var asked := s.(tasks := s.tasks[t := s.tasks[t].(request := units)]);
      Outcome(Schedule(Block(asked, Semaphore, WaitTime(timeout))), E_OK)
  }

  function Perform(s: State, call: Call): Outcome
    requires Inv(s) && CallEnabled(s, call)
  {
    match call
    case CreateTask(attr, pri, stackSize) => CreateTaskStep(s, attr, pri, stackSize)
    case StartTask(id) => StartTaskStep(s, id)
    case ExitTask => ExitTaskStep(s)
    case DelayTask(delay) => DelayTaskStep(s, delay)
    case SleepTask(timeout) => SleepTaskStep(s, timeout)
    case WakeupTask(id) => WakeupTaskStep(s, id)
    case CreateFlag(initial) => CreateFlagStep(s, initial)
    case SetFlag(id, bits) => SetFlagStep(s, id, bits)
    case ClearFlag(id, bits) => ClearFlagStep(s, id, bits)
    case WaitFlag(id, bits, mode, timeout) => WaitFlagStep(s, id, bits, mode, timeout)
    case CreateSemaphore(initialValue, maxValue) => CreateSemaphoreStep(s, initialValue, maxValue)
    case SignalSemaphore(id, units) => SignalSemaphoreStep(s, id, units)
    case WaitSemaphore(id, units, timeout) => WaitSemaphoreStep(s, id, units, timeout)
  }
}
