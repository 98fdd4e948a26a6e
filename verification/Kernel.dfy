/** The kernel's tables and queues as heap objects. Every entry point is proved to
  * do to them what the step of the same name does to the value-level state.
  */
module Kernel {
  import opened Counting
  import opened Wrappers
  import opened KernelTypes
  import opened KernelSpec
  import opened KernelInvariant
  import opened TaskQueue
  import opened KernelRuns

  method NewTable() returns (table: seq<Tcb>, ghost tcbs: set<Tcb>)
    ensures IsTable(table) && fresh(table)
    ensures forall t: TaskId :: table[t] in tcbs
    ensures forall t: TaskId :: table[t].Data() == UnusedTask
  {
    table, tcbs := [], {};
    while |table| < MAX_TASKS
      invariant |table| <= MAX_TASKS && fresh(table)
      invariant forall i | 0 <= i < |table| :: table[i] in tcbs
      invariant forall i | 0 <= i < |table| :: table[i].id == i && table[i].Data() == UnusedTask
    {
      var tcb := new Tcb(|table|);
      table, tcbs := table + [tcb], tcbs + {tcb};
    }
  }

  method NewQueues() returns (queues: seq<TaskQueue>, ghost all: set<TaskQueue>)
    ensures |queues| == MAX_TASK_PRI && fresh(queues)
    ensures forall p | 0 <= p < MAX_TASK_PRI :: queues[p] in all
    ensures forall p, q | 0 <= p < q < MAX_TASK_PRI :: queues[p] != queues[q]
    ensures forall p | 0 <= p < MAX_TASK_PRI :: queues[p].head == null && queues[p].ids == []
  {
    queues, all := [], {};
    while |queues| < MAX_TASK_PRI
      invariant |queues| <= MAX_TASK_PRI && fresh(queues)
      invariant forall p | 0 <= p < |queues| :: queues[p] in all
      invariant forall p, q | 0 <= p < q < |queues| :: queues[p] != queues[q]
      invariant forall p | 0 <= p < |queues| :: queues[p].head == null && queues[p].ids == []
    {
      var queue := new TaskQueue();
      queues, all := queues + [queue], all + {queue};
    }
  }

  /** The initial task is created and started. */
  method StartFirst(table: seq<Tcb>, queues: seq<TaskQueue>)
    requires IsTable(table) && |queues| == MAX_TASK_PRI
    requires forall p, q | 0 <= p < q < MAX_TASK_PRI :: queues[p] != queues[q]
    requires forall p | 0 <= p < MAX_TASK_PRI :: queues[p].head == null && queues[p].ids == []
    requires forall t: TaskId :: table[t].Data() == UnusedTask
    modifies table, queues
    ensures forall p | 0 <= p < MAX_TASK_PRI ::
              queues[p].Linked(table) && queues[p].ids == if p == 1 then [0] else []
    ensures forall t: TaskId ::
              table[t].Data() == if t == 0 then UnusedTask.(state := Ready, pri := 1) else UnusedTask
  {
    var first := table[0];
    first.state := Ready;
    first.taskPri := 1;
    queues[1].AddEntry(first, table);
  }

  lemma BootState()
    ensures var s := Boot();
      && Shape(s)
      && (forall p | 0 <= p < MAX_TASK_PRI :: s.ready[p] == if p == 1 then [0] else [])
      && (forall t: TaskId :: s.tasks[t] == if t == 0 then UnusedTask.(state := Ready, pri := 1) else UnusedTask)
      && s.wait == [] && s.curr == Some(0) && s.scheduled == Some(0) && !s.dispatching && !s.pending
      && s.flags == seq(MAX_FLAGS, _ => FlagBlock(false, NoBits))
      && s.sems == seq(MAX_SEMAPHORES, _ => SemBlock(false, 0, 0))
  {}

  /** No task is in two queues. */
  ghost predicate Apart(ready: seq<seq<TaskId>>, wait: seq<TaskId>)
    requires |ready| == MAX_TASK_PRI
  {
    && (forall p, q, t: TaskId | 0 <= p < MAX_TASK_PRI && 0 <= q < MAX_TASK_PRI && p != q ::
          t in ready[p] ==> t !in ready[q])
    && (forall p, t: TaskId | 0 <= p < MAX_TASK_PRI && t in ready[p] :: t !in wait)
  }

  /** A set that finds a satisfied waiter, in the order in which the source does it. */
  lemma TakePatternReleases(s: State, i: nat, pattern: Bits, k: nat)
    requires Lists(s) && i < MAX_FLAGS && k == First(s, PatternSet(pattern), 0) < |s.wait|
    ensures var t := s.wait[k];
      var given := s.(flags := s.flags[i := FlagBlock(true, pattern)],
                      tasks := s.tasks[t := s.tasks[t].(delivered := pattern)]);
      && Lists(given) && TaskOk(given, t)
      && var r := Schedule(Release(given, k));
      && |r.flags| == MAX_FLAGS
      && TakePattern(s, i + 1, pattern)
         == r.(flags := r.flags[i := FlagBlock(true, Consumed(pattern, s.tasks[t].pattern, s.tasks[t].mode))])
  {
    var t := s.wait[k];
    assert t in s.wait && TaskOk(s, t);
    var given := s.(flags := s.flags[i := FlagBlock(true, pattern)],
                    tasks := s.tasks[t := s.tasks[t].(delivered := pattern)]);
    SameStructure(s, given);
    assert TaskOk(given, t);
  }

  /** A signal that can serve the first task waiting for units, likewise. */
  lemma HandOverReleases(s: State, i: nat, value: int, k: nat)
    requires Lists(s) && i < MAX_SEMAPHORES && k == First(s, UnitsBack, 0) < |s.wait|
    requires value >= s.tasks[s.wait[k]].request
    ensures var (t, left) := (s.wait[k], value - s.tasks[s.wait[k]].request);
      var taken := WithValue(WithValue(s, i + 1, value), i + 1, left);
      && Lists(taken) && taken.wait == s.wait && TaskOk(taken, t)
      && HandOver(s, i + 1, value) == Schedule(Release(taken, k))
  {
    var (t, left) := (s.wait[k], value - s.tasks[s.wait[k]].request);
    assert t in s.wait && TaskOk(s, t);
    var taken := WithValue(s, i + 1, left);
    ValueTwice(s, i + 1, value, left);
    SameStructure(s, taken);
    assert TaskOk(taken, t);
  }

  lemma ValueTwice(s: State, id: int, a: int, b: int)
    requires Shape(s) && ValidId(id, MAX_SEMAPHORES)
    ensures WithValue(WithValue(s, id, a), id, b) == WithValue(s, id, b)
    ensures b == s.sems[id - 1].value ==> WithValue(s, id, b) == s
  {
    assert WithValue(WithValue(s, id, a), id, b).sems == WithValue(s, id, b).sems;
    assert b == s.sems[id - 1].value ==> WithValue(s, id, b).sems == s.sems;
  }

  class Kernel {
    const tcbTable: seq<Tcb>
    const readyQueue: seq<TaskQueue>
    const waitQueue: TaskQueue

    ghost const tcbs: set<Tcb>
    ghost const queues: set<TaskQueue>

    const fcbTable: array<FlagBlock>
    const scbTable: array<SemBlock>

    var currTask: Tcb?
    var scheduledTask: Tcb?
    var dispatchRunning: bool
    var pendSv: bool

    ghost var model: State

    ghost function Ptr(t: Option<TaskId>): Tcb?
      requires |tcbTable| == MAX_TASKS
    {
      match t
      case None => null
      case Some(id) => tcbTable[id]
    }

    /** The tables have their sizes and share no object. */
    ghost predicate Layout() {
      && IsTable(tcbTable)
      && (forall t: TaskId :: tcbTable[t] in tcbs)
      && |readyQueue| == MAX_TASK_PRI
      && (forall p | 0 <= p < MAX_TASK_PRI :: readyQueue[p] in queues)
      && (forall p, q | 0 <= p < q < MAX_TASK_PRI :: readyQueue[p] != readyQueue[q])
      && (forall p | 0 <= p < MAX_TASK_PRI :: readyQueue[p] != waitQueue)
      && fcbTable.Length == MAX_FLAGS
      && scbTable.Length == MAX_SEMAPHORES
    }

    /** Every queue is a well-formed doubly linked list. */
    ghost predicate Linkage()
      requires Layout()
      reads tcbs`prev, tcbs`next, queues, waitQueue
    {
      && waitQueue.Linked(tcbTable)
      && forall p | 0 <= p < MAX_TASK_PRI :: readyQueue[p].Linked(tcbTable)
    }

    ghost predicate QueuesHold(ready: seq<seq<TaskId>>, wait: seq<TaskId>)
      requires Layout() && |ready| == MAX_TASK_PRI
      reads queues, waitQueue
    {
      && waitQueue.ids == wait
      && forall p | 0 <= p < MAX_TASK_PRI :: readyQueue[p].ids == ready[p]
    }

    ghost predicate TasksHold(tasks: seq<Task>)
      requires Layout() && |tasks| == MAX_TASKS
      reads tcbs`state, tcbs`taskPri, tcbs`wakeupCount
      reads tcbs`waitFactor, tcbs`waitTime, tcbs`waitErr, tcbs`waitPattern
      reads tcbs`waitMode, tcbs`delivered, tcbs`waitSemaphore
    {
      forall t: TaskId :: tcbTable[t].Data() == tasks[t]
    }

    ghost predicate BlocksHold(flags: seq<FlagBlock>, sems: seq<SemBlock>)
      reads fcbTable, scbTable
    {
      fcbTable[..] == flags && scbTable[..] == sems
    }

    ghost predicate DispatcherHolds(s: State)
      requires Layout()
      reads `currTask, `scheduledTask, `dispatchRunning, `pendSv
    {
      && currTask == Ptr(s.curr)
      && scheduledTask == Ptr(s.scheduled)
      && dispatchRunning == s.dispatching
      && pendSv == s.pending
    }

    /** The heap is in the state the model says. */
    ghost predicate Holds()
      reads this, tcbs, queues, waitQueue, fcbTable, scbTable
    {
      && Layout()
      && Shape(model)
      && Linkage()
      && QueuesHold(model.ready, model.wait)
      && TasksHold(model.tasks)
      && BlocksHold(model.flags, model.sems)
      && DispatcherHolds(model)
    }

    ghost predicate Valid()
      reads this, tcbs, queues, waitQueue, fcbTable, scbTable
    {
      Holds() && Inv(model)
    }

    /** The state after main() and the first dispatch: the initial task runs alone. */
    constructor ()
      ensures Valid() && model == Boot()
    {
      hide Inv, Boot, Holds, Valid, TaskQueue.Linked, Tcb.Data;
      var table, tcbSet := NewTable();
      var queueSeq, queueSet := NewQueues();
      var waiters := new TaskQueue();
      var flags := new FlagBlock[MAX_FLAGS](_ => FlagBlock(false, NoBits));
      var sems := new SemBlock[MAX_SEMAPHORES](_ => SemBlock(false, 0, 0));
      StartFirst(table, queueSeq);
      tcbTable, readyQueue, waitQueue, fcbTable, scbTable := table, queueSeq, waiters, flags, sems;
      tcbs, queues := tcbSet, queueSet;
      currTask, scheduledTask := table[0], table[0];
      dispatchRunning, pendSv := false, false;
      model := Boot();
      new;
      Booted();
    }

    lemma Booted()
      requires Layout() && model == Boot()
      requires forall p | 0 <= p < MAX_TASK_PRI ::
                 readyQueue[p].Linked(tcbTable) && readyQueue[p].ids == if p == 1 then [0] else []
      requires forall t: TaskId ::
                 tcbTable[t].Data() == if t == 0 then UnusedTask.(state := Ready, pri := 1) else UnusedTask
      requires waitQueue.ids == [] && waitQueue.head == null
      requires fcbTable[..] == seq(MAX_FLAGS, _ => FlagBlock(false, NoBits))
      requires scbTable[..] == seq(MAX_SEMAPHORES, _ => SemBlock(false, 0, 0))
      requires currTask == tcbTable[0] == scheduledTask && !dispatchRunning && !pendSv
      ensures Valid()
    {
      hide Inv, Boot;
      BootState();
    }

    // ------------------------------------------------------------ scheduling

    /** scheduler's search of the ready queues */
    method FirstReady() returns (i: nat)
      requires Layout() && Shape(model) && Linkage() && QueuesHold(model.ready, model.wait)
      ensures i <= MAX_TASK_PRI
      ensures i < MAX_TASK_PRI ==> readyQueue[i].head != null
      ensures Ptr(TopReady(model.ready, 0)) == if i < MAX_TASK_PRI then readyQueue[i].head else null
    {
      i := 0;
      while i < MAX_TASK_PRI && readyQueue[i].head == null
        invariant i <= MAX_TASK_PRI
        invariant TopReady(model.ready, 0) == TopReady(model.ready, i)
      {
        assert readyQueue[i].Linked(tcbTable);
        i := i + 1;
      }
      assert i < MAX_TASK_PRI ==> readyQueue[i].Linked(tcbTable);
    }

    /** scheduler's choice */
    method PickTask()
      requires Layout() && Shape(model) && Linkage() && QueuesHold(model.ready, model.wait)
      modifies this`scheduledTask
      ensures scheduledTask == Ptr(TopReady(model.ready, 0))
    {
      hide Linkage, QueuesHold, TopReady, Ptr, IsTable;
      var i := FirstReady();
      if i < MAX_TASK_PRI {
        scheduledTask := readyQueue[i].head;
      } else {
        scheduledTask := null;
      }
    }

    /** scheduler */
    method Scheduler()
      requires Holds()
      modifies this`scheduledTask, this`pendSv, this`model
      ensures Holds() && model == Schedule(old(model))
    {
      hide Linkage, QueuesHold, TasksHold, BlocksHold, IsTable, TopReady, Ptr;
      PickTask();
      SameTask(TopReady(model.ready, 0), model.curr);
      hide Layout;
      if scheduledTask != currTask && !dispatchRunning {
        pendSv := true;
      }
      model := Schedule(model);
    }

    lemma SameTask(a: Option<TaskId>, b: Option<TaskId>)
      requires Layout()
      ensures Ptr(a) == Ptr(b) <==> a == b
    {
      if a.Some? && b.Some? && Ptr(a) == Ptr(b) {
        assert tcbTable[a.value].id == tcbTable[b.value].id;
      }
    }

    // ------------------------------------------------------ queue primitives

    ghost predicate QueuesOk()
      reads `model, tcbs`prev, tcbs`next, queues, waitQueue
    {
      && Layout() && Shape(model) && Apart(model.ready, model.wait)
      && Linkage() && QueuesHold(model.ready, model.wait)
    }

    method Dequeue(p: nat)
      requires p < MAX_TASK_PRI && QueuesOk()
      modifies this`model, readyQueue[p], tcbs`prev
      ensures QueuesOk()
      ensures model == old(model).(ready := old(model.ready)[p := KernelSpec.RemoveTop(old(model.ready[p]))])
    {
      readyQueue[p].RemoveTop(tcbTable);
      model := model.(ready := model.ready[p := KernelSpec.RemoveTop(model.ready[p])]);
      forall q | 0 <= q < MAX_TASK_PRI && q != p
        ensures readyQueue[q].Linked(tcbTable)
      {
        assert old(readyQueue[q].Linked(tcbTable));
        forall i | 0 <= i < |readyQueue[q].ids|
          ensures LinkOk(tcbTable, readyQueue[q].ids, i)
        {
          assert old(LinkOk(tcbTable, readyQueue[q].ids, i));
        }
      }
      forall i | 0 <= i < |waitQueue.ids|
        ensures LinkOk(tcbTable, waitQueue.ids, i)
      {
        assert waitQueue.ids[i] in model.wait;
        assert old(LinkOk(tcbTable, waitQueue.ids, i));
      }
    }

    method EnqueueReady(tcb: Tcb, p: nat)
      requires p < MAX_TASK_PRI && QueuesOk() && tcb == tcbTable[tcb.id]
      requires tcb.id !in model.wait && forall q | 0 <= q < MAX_TASK_PRI :: tcb.id !in model.ready[q]
      modifies this`model, readyQueue[p], tcbs`prev, tcbs`next
      ensures QueuesOk() && tcb.next == null
      ensures model == old(model).(ready := old(model.ready)[p := old(model.ready[p]) + [tcb.id]])
    {
      readyQueue[p].AddEntry(tcb, tcbTable);
      model := model.(ready := model.ready[p := model.ready[p] + [tcb.id]]);
      forall q | 0 <= q < MAX_TASK_PRI && q != p
        ensures readyQueue[q].Linked(tcbTable)
      {
        assert old(readyQueue[q].Linked(tcbTable));
        forall i | 0 <= i < |readyQueue[q].ids|
          ensures LinkOk(tcbTable, readyQueue[q].ids, i)
        {
          assert old(LinkOk(tcbTable, readyQueue[q].ids, i));
        }
      }
      forall i | 0 <= i < |waitQueue.ids|
        ensures LinkOk(tcbTable, waitQueue.ids, i)
      {
        assert waitQueue.ids[i] in model.wait;
        assert old(LinkOk(tcbTable, waitQueue.ids, i));
      }
    }

    method EnqueueWait(tcb: Tcb)
      requires QueuesOk() && tcb == tcbTable[tcb.id]
      requires tcb.id !in model.wait && forall q | 0 <= q < MAX_TASK_PRI :: tcb.id !in model.ready[q]
      modifies this`model, waitQueue, tcbs`prev, tcbs`next
      ensures QueuesOk()
      ensures model == old(model).(wait := old(model.wait) + [tcb.id])
    {
      waitQueue.AddEntry(tcb, tcbTable);
      model := model.(wait := model.wait + [tcb.id]);
      forall q | 0 <= q < MAX_TASK_PRI
        ensures readyQueue[q].Linked(tcbTable)
      {
        assert old(readyQueue[q].Linked(tcbTable));
        forall i | 0 <= i < |readyQueue[q].ids|
          ensures LinkOk(tcbTable, readyQueue[q].ids, i)
        {
          assert old(LinkOk(tcbTable, readyQueue[q].ids, i));
        }
      }
    }

    method DequeueWait(tcb: Tcb, ghost k: nat)
      requires QueuesOk() && k < |model.wait| && tcb == tcbTable[model.wait[k]]
      modifies this`model, waitQueue, tcbs`prev, tcbs`next
      ensures QueuesOk()
      ensures model == old(model).(wait := RemoveAt(old(model.wait), k))
    {
      assert waitQueue.Linked(tcbTable);
      RemoveAtElements(model.wait, k);
      hide RemoveAt;
      waitQueue.RemoveEntry(tcb, k, tcbTable);
      model := model.(wait := RemoveAt(model.wait, k));
      forall q | 0 <= q < MAX_TASK_PRI
        ensures readyQueue[q].Linked(tcbTable)
      {
        assert old(readyQueue[q].Linked(tcbTable));
        forall i | 0 <= i < |readyQueue[q].ids|
          ensures LinkOk(tcbTable, readyQueue[q].ids, i)
        {
          assert old(LinkOk(tcbTable, readyQueue[q].ids, i));
        }
      }
    }

    // ------------------------------------------------------- common passages

    lemma ListsAreApart(s: State)
      requires Lists(s)
      ensures Apart(s.ready, s.wait) && Distinct(s.wait)
      ensures forall p | 0 <= p < MAX_TASK_PRI :: Distinct(s.ready[p])
    {
      forall p, q, t: TaskId | 0 <= p < MAX_TASK_PRI && 0 <= q < MAX_TASK_PRI && p != q && t in s.ready[p]
        ensures t !in s.ready[q]
      {
        assert s.tasks[t].pri == p;
      }
    }

    /** Without its head, a ready queue holds that task no longer, nor does any other. */
    lemma HeadLeaves(s: State, p: nat)
      requires Shape(s) && p < MAX_TASK_PRI && s.ready[p] != []
      requires Apart(s.ready, s.wait) && Distinct(s.ready[p])
      ensures KernelSpec.RemoveTop(s.ready[p]) == s.ready[p][1..]
      ensures s.ready[p][0] !in s.wait && s.ready[p][0] !in s.ready[p][1..]
      ensures forall q | 0 <= q < MAX_TASK_PRI && q != p :: s.ready[p][0] !in s.ready[q]
    {
      assert s.ready[p] == [s.ready[p][0]] + s.ready[p][1..];
    }

    lemma WaiterIsLive(s: State, k: nat)
      requires Lists(s) && k < |s.wait|
      ensures TaskOk(s, s.wait[k]) && s.tasks[s.wait[k]].state == Wait
    {
      assert s.wait[k] in s.wait;
      assert TaskOk(s, s.wait[k]);
    }

    // Changes of one task's data. They leave every link alone, so that what is known of
    // the queues carries over.

    method SetState(tcb: Tcb, state: TaskState)
      requires Layout() && Shape(model) && TasksHold(model.tasks) && tcb == tcbTable[tcb.id]
      modifies `model, tcb`state
      ensures Shape(model) && TasksHold(model.tasks)
      ensures model == old(model).(tasks :=
                old(model).tasks[tcb.id := old(model).tasks[tcb.id].(state := state)])
    {
      tcb.state := state;
      model := model.(tasks := model.tasks[tcb.id := tcb.Data()]);
    }

    method FillBlock(tcb: Tcb, pri: int)
      requires Layout() && Shape(model) && TasksHold(model.tasks) && tcb == tcbTable[tcb.id]
      modifies `model, tcb`state, tcb`taskPri
      ensures Shape(model) && TasksHold(model.tasks)
      ensures model == old(model).(tasks :=
                old(model).tasks[tcb.id := old(model).tasks[tcb.id].(state := Dormant, pri := pri)])
    {
      tcb.state := Dormant;
      tcb.taskPri := pri;
      model := model.(tasks := model.tasks[tcb.id := tcb.Data()]);
    }

    method MarkReady(tcb: Tcb)
      requires Layout() && Shape(model) && TasksHold(model.tasks) && tcb == tcbTable[tcb.id]
      modifies `model, tcb`state, tcb`waitFactor
      ensures Shape(model) && TasksHold(model.tasks)
      ensures model == old(model).(tasks :=
                old(model).tasks[tcb.id := old(model).tasks[tcb.id].(state := Ready, factor := NoFactor)])
    {
      tcb.state := Ready;
      tcb.waitFactor := NoFactor;
      model := model.(tasks := model.tasks[tcb.id := tcb.Data()]);
    }

    method SetWaitTime(tcb: Tcb, time: nat)
      requires Layout() && Shape(model) && TasksHold(model.tasks) && tcb == tcbTable[tcb.id]
      modifies `model, tcb`waitTime
      ensures Shape(model) && TasksHold(model.tasks)
      ensures model == old(model).(tasks :=
                old(model).tasks[tcb.id := old(model).tasks[tcb.id].(time := time)])
    {
      tcb.waitTime := time;
      model := model.(tasks := model.tasks[tcb.id := tcb.Data()]);
    }

    /** Leave a code in the blocked call of a task, through its wait_err. */
    method GiveCode(tcb: Tcb, code: int)
      requires Layout() && Shape(model) && TasksHold(model.tasks) && tcb == tcbTable[tcb.id]
      modifies `model, tcb`waitErr
      ensures Shape(model) && TasksHold(model.tasks)
      ensures model == old(model).(tasks :=
                old(model).tasks[tcb.id := old(model).tasks[tcb.id].(err := code)])
    {
      tcb.waitErr := code;
      model := model.(tasks := model.tasks[tcb.id := tcb.Data()]);
    }

    method MarkWaiting(tcb: Tcb, factor: WaitFactor, time: nat)
      requires Layout() && Shape(model) && TasksHold(model.tasks) && tcb == tcbTable[tcb.id]
      modifies `model, tcb`state, tcb`waitFactor, tcb`waitTime, tcb`waitErr
      ensures Shape(model) && TasksHold(model.tasks)
      ensures var task := old(model.tasks[tcb.id]);
        model == old(model).(tasks := old(model.tasks)[tcb.id :=
          task.(state := Wait, factor := factor, time := time, err := E_OK)])
    {
      tcb.state := Wait;
      tcb.waitFactor := factor;
      tcb.waitTime := time;
      tcb.waitErr := E_OK;
      model := model.(tasks := model.tasks[tcb.id := tcb.Data()]);
    }

    /** A task in no queue becomes ready and joins the tail of its queue. */
    method MakeReady(tcb: Tcb)
      requires QueuesOk() && TasksHold(model.tasks) && tcb == tcbTable[tcb.id]
      requires 0 <= model.tasks[tcb.id].pri < MAX_TASK_PRI
      requires tcb.id !in model.wait && forall q | 0 <= q < MAX_TASK_PRI :: tcb.id !in model.ready[q]
      modifies `model, tcbs, queues
      ensures QueuesOk() && TasksHold(model.tasks) && tcb.next == null
      ensures var (s, task) := (old(model), old(model.tasks[tcb.id]));
        model == s.(tasks := s.tasks[tcb.id := task.(state := Ready, factor := NoFactor)],
                    ready := s.ready[task.pri := s.ready[task.pri] + [tcb.id]])
    {
      hide Linkage, QueuesHold, Apart;
      assert tcb.Data() == model.tasks[tcb.id];
      hide TasksHold, IsTable;
      MarkReady(tcb);
      EnqueueReady(tcb, tcb.taskPri);
    }

    /** What every blocking call does with the running task. */
    method BlockCurrent(factor: WaitFactor, time: nat)
      requires Holds() && Lists(model)
      requires model.curr.Some? && model.tasks[model.curr.value].state == Ready
      requires var p := model.tasks[model.curr.value].pri;
               0 <= p < MAX_TASK_PRI && model.ready[p] != [] && model.ready[p][0] == model.curr.value
      modifies this`model, tcbs, queues, waitQueue
      ensures Holds() && model == Block(old(model), factor, time)
    {
      hide Linkage, QueuesHold, BlocksHold, Lists;
      ghost var t := model.curr.value;
      ListsAreApart(model);
      assert currTask.Data() == model.tasks[t];
      var p := currTask.taskPri;
      HeadLeaves(model, p);
      hide TasksHold, IsTable, Apart, Distinct, RemoveTop;
      Dequeue(p);
      MarkWaiting(currTask, factor, time);
      EnqueueWait(currTask);
    }

    /** What every release of a waiter does with it. */
    method ReleaseWaiter(tcb: Tcb, ghost k: nat)
      requires Holds() && Lists(model) && k < |model.wait| && tcb == tcbTable[model.wait[k]]
      modifies this`model, tcbs, queues, waitQueue
      ensures TaskOk(old(model), old(model.wait[k]))
      ensures Holds() && model == Release(old(model), k) && tcb.next == null
    {
      hide Linkage, QueuesHold, BlocksHold, TasksHold, Lists;
      WaiterIsLive(model, k);
      ListsAreApart(model);
      RemoveAtElements(model.wait, k);
      hide RemoveAt, Distinct;
      DequeueWait(tcb, k);
      MakeReady(tcb);
    }

    method ReleaseAndSchedule(tcb: Tcb, ghost k: nat)
      requires Holds() && Lists(model) && k < |model.wait| && tcb == tcbTable[model.wait[k]]
      modifies this, tcbs, queues, waitQueue
      ensures TaskOk(old(model), old(model.wait[k]))
      ensures Holds() && model == Schedule(Release(old(model), k)) && tcb.next == null
    {
      hide Linkage, QueuesHold, BlocksHold, TasksHold, Lists, DispatcherHolds, IsTable;
      ReleaseWaiter(tcb, k);
      Scheduler();
    }

    // ------------------------------------------------------- task management

    /** sk_delay_task */
    method DelayTask(delayTime: nat) returns (err: int)
      requires Valid() && CallEnabled(model, Call.DelayTask(delayTime))
      modifies this, tcbs, queues, waitQueue
      ensures Valid() && Outcome(model, err) == DelayTaskStep(old(model), delayTime)
    {
      hide Linkage, QueuesHold, TasksHold, BlocksHold;
      err := E_OK;
      if delayTime > 0 {
        BlockingKeepsInv(model, Delay, DelayTime(delayTime));
        RunningTaskHeadsItsQueue(model);
        BlockCurrent(Delay, DelayTime(delayTime));
        Scheduler();
      }
    }

    /** sk_sleep_task */
    method SleepTask(timeout: int) returns (err: int)
      requires Valid() && CallEnabled(model, Call.SleepTask(timeout))
      modifies this, tcbs, queues, waitQueue
      ensures Valid() && Outcome(model, err) == SleepTaskStep(old(model), timeout)
    {
      hide Linkage, QueuesHold, BlocksHold;
      err := E_OK;
      SleepTaskKeepsInv(model, timeout);
      ghost var t := model.curr.value;
      assert currTask.Data() == model.tasks[t];
      if currTask.wakeupCount > 0 {
        currTask.wakeupCount := currTask.wakeupCount - 1;
        model := model.(tasks := model.tasks[t := currTask.Data()]);
      } else {
        RunningTaskHeadsItsQueue(model);
        BlockCurrent(Sleep, WaitTime(timeout));
        Scheduler();
      }
    }

    /** sk_create_task */
    method CreateTask(attr: bv32, pri: int, stackSize: int) returns (id: int)
      requires Valid()
      modifies this, tcbs
      ensures Valid() && Outcome(model, id) == CreateTaskStep(old(model), attr, pri, stackSize)
    {
      hide QueuesHold, BlocksHold;
      CreateTaskKeepsInv(model, attr, pri, stackSize);
      if attr & !(TA_RNG3 | TA_HLNG | TA_USERBUF) != 0 {
        return E_RSATR;
      }
      if pri <= 0 || pri > MAX_TASK_PRI {
        return E_PAR;
      }
      if attr & TA_USERBUF != 0 && stackSize == 0 {
        return E_PAR;
      }
      var i := FindUnusedTask();
      if i < MAX_TASKS {
        UseTask(tcbTable[i], pri);
        id := i + 1;
      } else {
        id := E_LIMIT;
      }
    }

    /** sk_create_task's search of the table */
    method FindUnusedTask() returns (i: nat)
      requires Holds()
      ensures i == FreeTask(model, 0)
    {
      i := 0;
      while i < MAX_TASKS && tcbTable[i].state != NonExist
        invariant i <= MAX_TASKS
        invariant FreeTask(model, 0) == FreeTask(model, i)
      {
        assert tcbTable[i].Data() == model.tasks[i];
        i := i + 1;
      }
      assert i < MAX_TASKS ==> tcbTable[i].Data() == model.tasks[i];
    }

    /** A control block leaves the pool of unused ones. */
    method UseTask(tcb: Tcb, pri: int)
      requires Holds() && Lists(model)
      requires tcb == tcbTable[tcb.id] && model.tasks[tcb.id].state == NonExist
      modifies `model, tcb`state, tcb`taskPri, tcb`prev, tcb`next
      ensures Holds()
      ensures model == old(model).(tasks :=
                old(model).tasks[tcb.id := old(model).tasks[tcb.id].(state := Dormant, pri := pri)])
    {
      hide Linkage, QueuesHold, BlocksHold, Lists;
      IdleTaskIsInNoQueue(model, tcb.id);
      hide TasksHold, IsTable;
      FillBlock(tcb, pri);
      ClearLinks(tcb);
    }

    method ClearLinks(tcb: Tcb)
      requires Layout() && Shape(model) && Linkage() && QueuesHold(model.ready, model.wait)
      requires tcb == tcbTable[tcb.id]
      requires tcb.id !in model.wait && forall q | 0 <= q < MAX_TASK_PRI :: tcb.id !in model.ready[q]
      modifies tcb`prev, tcb`next
      ensures Linkage() && QueuesHold(model.ready, model.wait)
    {
      tcb.prev := null;
      tcb.next := null;
      forall q | 0 <= q < MAX_TASK_PRI
        ensures readyQueue[q].Linked(tcbTable)
      {
        assert old(readyQueue[q].Linked(tcbTable));
        forall i | 0 <= i < |readyQueue[q].ids|
          ensures LinkOk(tcbTable, readyQueue[q].ids, i)
        {
          assert old(LinkOk(tcbTable, readyQueue[q].ids, i));
        }
      }
      forall i | 0 <= i < |waitQueue.ids|
        ensures LinkOk(tcbTable, waitQueue.ids, i)
      {
        assert old(LinkOk(tcbTable, waitQueue.ids, i));
      }
    }

    /** A dormant task becomes ready. */
    method Activate(tcb: Tcb)
      requires Holds() && Lists(model) && tcb == tcbTable[tcb.id]
      requires model.tasks[tcb.id].state == Dormant && 0 <= model.tasks[tcb.id].pri < MAX_TASK_PRI
      modifies `model, tcbs, queues
      ensures Holds()
      ensures var (s, task) := (old(model), old(model.tasks[tcb.id]));
        model == s.(tasks := s.tasks[tcb.id := task.(state := Ready)],
                    ready := s.ready[task.pri := s.ready[task.pri] + [tcb.id]])
    {
      hide Linkage, QueuesHold, BlocksHold, Lists;
      ListsAreApart(model);
      IdleTaskIsInNoQueue(model, tcb.id);
      assert tcb.Data() == model.tasks[tcb.id];
      hide TasksHold, IsTable;
      SetState(tcb, Ready);
      EnqueueReady(tcb, tcb.taskPri);
    }

    /** sk_start_task */
    method StartTask(id: int) returns (err: int)
      requires Valid() && CallEnabled(model, Call.StartTask(id))
      modifies this, tcbs, queues
      ensures Valid() && Outcome(model, err) == StartTaskStep(old(model), id)
    {
      hide Linkage, QueuesHold, BlocksHold;
      err := E_OK;
      if id <= 0 || id > MAX_TASKS {
        return E_ID;
      }
      StartTaskKeepsInv(model, id);
      var tcb := tcbTable[id - 1];
      assert tcb.Data() == model.tasks[tcb.id] && TaskOk(model, tcb.id);
      hide Inv, Lists, TasksHold, DispatcherHolds;
      if tcb.state == Dormant {
        Activate(tcb);
        Scheduler();
      } else {
        err := E_OBJ;
      }
    }

    lemma IdleTaskIsInNoQueue(s: State, t: TaskId)
      requires Lists(s) && s.tasks[t].state != Ready && s.tasks[t].state != Wait
      ensures t !in s.wait && forall q | 0 <= q < MAX_TASK_PRI :: t !in s.ready[q]
    {}

    /** sk_exit_task */
    method ExitTask()
      requires Valid() && CallEnabled(model, Call.ExitTask)
      modifies this, tcbs, queues
      ensures Valid() && model == ExitTaskStep(old(model)).s
    {
      hide Linkage, QueuesHold, BlocksHold;
      ExitTaskKeepsInv(model);
      ghost var t := model.curr.value;
      assert currTask.Data() == model.tasks[t];
      ListsAreApart(model);
      SetState(currTask, Dormant);
      Dequeue(currTask.taskPri);
      Scheduler();
    }

    /** sk_wakeup_task */
    method WakeupTask(id: int) returns (err: int)
      requires Valid()
      modifies this, tcbs, queues, waitQueue
      ensures Valid() && Outcome(model, err) == WakeupTaskStep(old(model), id)
    {
      hide Linkage, QueuesHold, BlocksHold, Dispatcher, TopReady, Ptr;
      err := E_OK;
      if id <= 0 || id > MAX_TASKS {
        return E_ID;
      }
      WakeupTaskKeepsInv(model, id);
      var tcb := tcbTable[id - 1];
      assert tcb.Data() == model.tasks[tcb.id] && TaskOk(model, tcb.id);
      if tcb.state == Wait && tcb.waitFactor == Sleep {
        ReleaseAndSchedule(tcb, IndexOf(model.wait, tcb.id));
      } else if tcb.state == Ready || tcb.state == Wait {
        tcb.wakeupCount := tcb.wakeupCount + 1;
        model := model.(tasks := model.tasks[tcb.id := tcb.Data()]);
      } else {
        err := E_OBJ;
      }
    }

    // ----------------------------------------------------------- event flags

    /** sk_create_flag */
    method CreateFlag(initial: Bits) returns (flgid: int)
      requires Valid() && CallEnabled(model, Call.CreateFlag(initial))
      modifies `model, fcbTable
      ensures Valid() && Outcome(model, flgid) == CreateFlagStep(old(model), initial)
    {
      hide Linkage, QueuesHold, TasksHold;
      CreateFlagKeepsInv(model, initial);
      flgid := 0;
      while fcbTable[flgid].inUse
        invariant 0 <= flgid < MAX_FLAGS
        invariant FreeFlag(model, 0) == FreeFlag(model, flgid)
        decreases MAX_FLAGS - flgid
      {
        assert fcbTable[..][flgid].inUse;
        flgid := flgid + 1;
      }
      assert !fcbTable[..][flgid].inUse;
      PutFlag(flgid, FlagBlock(true, initial));
      flgid := flgid + 1;
    }

    /** Store a flag control block. */
    method PutFlag(i: nat, block: FlagBlock)
      requires Holds() && i < MAX_FLAGS
      modifies `model, fcbTable
      ensures Holds() && model == old(model).(flags := old(model).flags[i := block])
    {
      hide Linkage, QueuesHold, TasksHold;
      fcbTable[i] := block;
      model := model.(flags := model.flags[i := block]);
    }

    /** Store a semaphore control block. */
    method PutSemaphore(i: nat, block: SemBlock)
      requires Holds() && i < MAX_SEMAPHORES
      modifies `model, scbTable
      ensures Holds() && model == old(model).(sems := old(model).sems[i := block])
    {
      hide Linkage, QueuesHold, TasksHold;
      scbTable[i] := block;
      model := model.(sems := model.sems[i := block]);
    }

    /** Store a semaphore's value. */
    method SetValue(i: nat, value: int)
      requires Holds() && i < MAX_SEMAPHORES
      modifies `model, scbTable
      ensures Holds() && model == WithValue(old(model), i + 1, value)
    {
      hide Linkage, QueuesHold, TasksHold;
      assert scbTable[i] == scbTable[..][i];
      PutSemaphore(i, scbTable[i].(value := value));
    }

    /** sk_clear_flag */
    method ClearFlag(flgid: int, clearPattern: Bits) returns (err: int)
      requires Valid()
      modifies `model, fcbTable
      ensures Valid() && Outcome(model, err) == ClearFlagStep(old(model), flgid, clearPattern)
    {
      hide Linkage, QueuesHold, TasksHold;
      err := E_OK;
      if flgid <= 0 || flgid > MAX_FLAGS {
        return E_ID;
      }
      ClearFlagKeepsInv(model, flgid, clearPattern);
      var block := fcbTable[flgid - 1];
      assert block == fcbTable[..][flgid - 1];
      if block.inUse {
        PutFlag(flgid - 1, block.(pattern := Common(block.pattern, clearPattern)));
      } else {
        err := E_NOEXS;
      }
    }

    /** The flag already meets the condition: hand its pattern out and clear what
      * the mode says.
      */
    method GrantFlag(i: nat, waitPattern: Bits, waitMode: Bits)
      requires Valid() && i < MAX_FLAGS && model.curr.Some?
      modifies `model, currTask`delivered, fcbTable
      ensures Holds()
      ensures var (s, t) := (old(model), old(model).curr.value);
        model == s.(tasks := s.tasks[t := s.tasks[t].(delivered := s.flags[i].pattern)],
                    flags := s.flags[i := s.flags[i].(pattern :=
                      Consumed(s.flags[i].pattern, waitPattern, waitMode))])
    {
      hide Linkage, QueuesHold, Inv;
      ghost var t := model.curr.value;
      var block := fcbTable[i];
      assert block == fcbTable[..][i];
      currTask.delivered := block.pattern;
      model := model.(tasks := model.tasks[t := currTask.Data()]);
      var kept := Clear(block.pattern, waitPattern, waitMode);
      PutFlag(i, block.(pattern := kept));
    }

    /** The two clearing steps that follow a satisfied wait. */
    static method Clear(pattern: Bits, waitPattern: Bits, waitMode: Bits) returns (kept: Bits)
      ensures kept == Consumed(pattern, waitPattern, waitMode)
    {
      kept := pattern;
      if waitMode.word & TWF_BITCLR != 0 {
        kept := Bits(kept.word & !waitPattern.word);
      }
      if waitMode.word & TWF_CLR != 0 {
        kept := NoBits;
      }
    }

    /** The running task goes to wait for a flag. */
    method BlockOnFlag(waitPattern: Bits, waitMode: Bits, time: nat)
      requires Valid() && !model.dispatching && !model.pending && time <= FOREVER
      modifies `model, tcbs, queues, waitQueue
      ensures Holds()
      ensures var (s, t) := (old(model), old(model).curr.value);
        model == Block(s.(tasks := s.tasks[t := s.tasks[t].(pattern := waitPattern, mode := waitMode)]), Flag, time)
    {
      hide Linkage, QueuesHold, BlocksHold;
      RunningTaskHeadsItsQueue(model);
      ghost var t := model.curr.value;
      currTask.waitPattern := waitPattern;
      currTask.waitMode := waitMode;
      model := model.(tasks := model.tasks[t := currTask.Data()]);
      SameStructure(old(model), model);
      BlockCurrent(Flag, time);
    }

    /** sk_wait_flag */
    method WaitFlag(flgid: int, waitPattern: Bits, waitMode: Bits, timeout: int) returns (err: int)
      requires Valid() && CallEnabled(model, Call.WaitFlag(flgid, waitPattern, waitMode, timeout))
      modifies this, tcbs, queues, waitQueue, fcbTable
      ensures Valid()
      ensures Outcome(model, err) == WaitFlagStep(old(model), flgid, waitPattern, waitMode, timeout)
    {
      hide Linkage, QueuesHold, TasksHold;
      err := E_OK;
      if flgid <= 0 || flgid > MAX_FLAGS {
        return E_ID;
      }
      WaitFlagKeepsInv(model, flgid, waitPattern, waitMode, timeout);
      var block := fcbTable[flgid - 1];
      assert block == fcbTable[..][flgid - 1];
      hide Inv, BlocksHold;
      if !block.inUse {
        err := E_NOEXS;
      } else if CheckFlag(block.pattern, waitPattern, waitMode) {
        GrantFlag(flgid - 1, waitPattern, waitMode);
      } else if timeout == TMO_POL {
        err := E_TMOUT;
      } else {
        BlockOnFlag(waitPattern, waitMode, WaitTime(timeout));
        Scheduler();
      }
    }

    /** Hand a pattern to a task through its p_flag_pattern. */
    method GivePattern(tcb: Tcb, pattern: Bits)
      requires Layout() && Shape(model) && TasksHold(model.tasks) && tcb == tcbTable[tcb.id]
      modifies `model, tcb`delivered
      ensures Shape(model) && TasksHold(model.tasks)
      ensures model == old(model).(tasks :=
                old(model).tasks[tcb.id := old(model).tasks[tcb.id].(delivered := pattern)])
    {
      tcb.delivered := pattern;
      model := model.(tasks := model.tasks[tcb.id := tcb.Data()]);
    }

    /** The release of the waiter at position k by sk_set_flag. */
    method ReleaseForFlag(tcb: Tcb, ghost k: nat, i: nat, pattern: Bits, ghost s: State)
      requires i < MAX_FLAGS && Lists(s) && Holds()
      requires model == s.(flags := s.flags[i := FlagBlock(true, pattern)])
      requires k < |s.wait| && k == First(s, PatternSet(pattern), 0) && tcb == tcbTable[s.wait[k]]
      modifies this, tcbs, queues, waitQueue, fcbTable
      ensures Holds() && model == TakePattern(s, i + 1, pattern) && tcb.next == null
    {
      hide Linkage, QueuesHold, BlocksHold, First;
      assert tcb.Data() == s.tasks[s.wait[k]];
      TakePatternReleases(s, i, pattern, k);
      hide TasksHold, IsTable, Ptr, DispatcherHolds, TakePattern, Release, Schedule, Consumed, Lists, TaskOk;
      GivePattern(tcb, pattern);
      var (waitPattern, waitMode) := (tcb.waitPattern, tcb.waitMode);
      ReleaseAndSchedule(tcb, k);
      var kept := Clear(pattern, waitPattern, waitMode);
      PutFlag(i, FlagBlock(true, kept));
    }

    /** sk_set_flag's walk of the wait queue, once the flag has taken a pattern. A
      * release clears the released task's next link, so that the walk ends there.
      */
    method NotifyFlag(i: nat, pattern: Bits, ghost s: State)
      requires i < MAX_FLAGS && Lists(s) && Holds()
      requires model == s.(flags := s.flags[i := FlagBlock(true, pattern)])
      modifies this, tcbs, queues, waitQueue, fcbTable
      ensures Holds() && model == TakePattern(s, i + 1, pattern)
    {
      hide Linkage, QueuesHold, BlocksHold;
      ghost var (k, released) := (0, false);
      var tcb := waitQueue.head;
      HeadOfWaitQueue();
      while tcb != null
        invariant Holds()
        invariant released ==> tcb == null && model == TakePattern(s, i + 1, pattern)
        invariant !released ==>
                    && k <= |s.wait| && tcb == At(tcbTable, s.wait, k)
                    && model == s.(flags := s.flags[i := FlagBlock(true, pattern)])
                    && First(s, PatternSet(pattern), 0) == First(s, PatternSet(pattern), k)
        decreases |s.wait| - k, tcb != null
      {
        assert tcb.Data() == s.tasks[s.wait[k]];
        if tcb.waitFactor == Flag && CheckFlag(pattern, tcb.waitPattern, tcb.waitMode) {
          ReleaseForFlag(tcb, k, i, pattern, s);
          released := true;
        } else {
          NextOfWaiter(k);
          k := k + 1;
        }
        tcb := tcb.next;
      }
    }

    lemma HeadOfWaitQueue()
      requires Holds()
      ensures waitQueue.head == At(tcbTable, model.wait, 0)
    {}

    lemma NextOfWaiter(k: nat)
      requires Holds() && k < |model.wait|
      ensures tcbTable[model.wait[k]].next == At(tcbTable, model.wait, k + 1)
    {
      assert LinkOk(tcbTable, waitQueue.ids, k);
    }

    /** sk_set_flag */
    method SetFlag(flgid: int, setPattern: Bits) returns (err: int)
      requires Valid()
      modifies this, tcbs, queues, waitQueue, fcbTable
      ensures Valid() && Outcome(model, err) == SetFlagStep(old(model), flgid, setPattern)
    {
      hide Linkage, QueuesHold, TasksHold;
      err := E_OK;
      if flgid <= 0 || flgid > MAX_FLAGS {
        return E_ID;
      }
      SetFlagKeepsInv(model, flgid, setPattern);
      var block := fcbTable[flgid - 1];
      assert block == fcbTable[..][flgid - 1];
      if block.inUse {
        var pattern := With(block.pattern, setPattern);
        PutFlag(flgid - 1, block.(pattern := pattern));
        NotifyFlag(flgid - 1, pattern, old(model));
      } else {
        err := E_NOEXS;
      }
    }

    // ------------------------------------------------------------ semaphores

    /** sk_create_semaphore */
    method CreateSemaphore(initialValue: int, maxValue: int) returns (semid: int)
      requires Valid() && CallEnabled(model, Call.CreateSemaphore(initialValue, maxValue))
      modifies `model, scbTable
      ensures Valid() && Outcome(model, semid) == CreateSemaphoreStep(old(model), initialValue, maxValue)
    {
      hide Linkage, QueuesHold, TasksHold;
      CreateSemaphoreKeepsInv(model, initialValue, maxValue);
      semid := 0;
      while scbTable[semid].inUse
        invariant 0 <= semid < MAX_SEMAPHORES
        invariant FreeSemaphore(model, 0) == FreeSemaphore(model, semid)
        decreases MAX_SEMAPHORES - semid
      {
        assert scbTable[..][semid].inUse;
        semid := semid + 1;
      }
      assert !scbTable[..][semid].inUse;
      PutSemaphore(semid, SemBlock(true, initialValue, maxValue));
      semid := semid + 1;
    }

    /** The hand-over to the waiter at position k by sk_signal_semaphore. */
    method GrantUnits(tcb: Tcb, ghost k: nat, i: nat, value: int, ghost s: State)
      requires i < MAX_SEMAPHORES && Lists(s) && Holds() && model == WithValue(s, i + 1, value)
      requires k < |s.wait| && k == First(s, UnitsBack, 0) && tcb == tcbTable[s.wait[k]]
      requires value >= s.tasks[s.wait[k]].request
      modifies this, tcbs, queues, waitQueue, scbTable
      ensures Holds() && model == HandOver(s, i + 1, value) && tcb.next == null
    {
      hide Linkage, QueuesHold, BlocksHold, First;
      assert tcb.Data() == s.tasks[s.wait[k]];
      HandOverReleases(s, i, value, k);
      hide TasksHold, IsTable, DispatcherHolds, HandOver, Release, Schedule, WithValue, Lists;
      SetValue(i, value - tcb.waitSemaphore);
      ReleaseAndSchedule(tcb, k);
    }

    /** sk_signal_semaphore's walk of the wait queue, once the units have been added.
      * It ends at the first task that waits for units, granted or not.
      */
    method OfferUnits(i: nat, value: int, ghost s: State)
      requires i < MAX_SEMAPHORES && Lists(s) && Holds() && model == WithValue(s, i + 1, value)
      modifies this, tcbs, queues, waitQueue, scbTable
      ensures Holds() && model == HandOver(s, i + 1, value)
    {
      hide Linkage, QueuesHold, BlocksHold;
      ghost var (k, ended) := (0, false);
      var tcb := waitQueue.head;
      HeadOfWaitQueue();
      while tcb != null
        invariant Holds()
        invariant ended ==> tcb == null && model == HandOver(s, i + 1, value)
        invariant !ended ==>
                    && k <= |s.wait| && tcb == At(tcbTable, s.wait, k)
                    && model == WithValue(s, i + 1, value)
                    && First(s, UnitsBack, 0) == First(s, UnitsBack, k)
        decreases |s.wait| - k, tcb != null
      {
        assert tcb.Data() == s.tasks[s.wait[k]];
        if tcb.waitFactor == Semaphore {
          if value >= tcb.waitSemaphore {
            GrantUnits(tcb, k, i, value, s);
            ended := true;
          } else {
            break;
          }
        } else {
          NextOfWaiter(k);
          k := k + 1;
        }
        tcb := tcb.next;
      }
    }

    /** sk_signal_semaphore */
    method SignalSemaphore(semid: int, cnt: int) returns (err: int)
      requires Valid()
      modifies this, tcbs, queues, waitQueue, scbTable
      ensures Valid() && Outcome(model, err) == SignalSemaphoreStep(old(model), semid, cnt)
    {
      hide Linkage, QueuesHold, TasksHold;
      err := E_OK;
      if semid <= 0 || semid > MAX_SEMAPHORES {
        return E_ID;
      }
      SignalSemaphoreKeepsInv(model, semid, cnt);
      var block := scbTable[semid - 1];
      assert block == scbTable[..][semid - 1];
      hide BlocksHold, DispatcherHolds, HandOver, Inv;
      if block.inUse {
        ValueTwice(model, semid, block.value + cnt, block.value);
        hide WithValue;
        SetValue(semid - 1, block.value + cnt);
        if block.value + cnt <= block.max {
          OfferUnits(semid - 1, block.value + cnt, old(model));
        } else {
          SetValue(semid - 1, block.value);
          err := E_QOVR;
        }
      } else {
        err := E_NOEXS;
      }
    }

    /** sk_wait_semaphore */
    method WaitSemaphore(semid: int, cnt: int, timeout: int) returns (err: int)
      requires Valid() && CallEnabled(model, Call.WaitSemaphore(semid, cnt, timeout))
      modifies this, tcbs, queues, waitQueue, scbTable
      ensures Valid() && Outcome(model, err) == WaitSemaphoreStep(old(model), semid, cnt, timeout)
    {
      hide Linkage, QueuesHold, TasksHold;
      err := E_OK;
      if semid <= 0 || semid > MAX_SEMAPHORES {
        return E_ID;
      }
      WaitSemaphoreKeepsInv(model, semid, cnt, timeout);
      var block := scbTable[semid - 1];
      assert block == scbTable[..][semid - 1];
      hide Inv, BlocksHold;
      if !block.inUse {
        err := E_NOEXS;
      } else if block.value >= cnt {
        SetValue(semid - 1, block.value - cnt);
      } else if timeout == TMO_POL {
        err := E_TMOUT;
      } else {
        BlockOnSemaphore(cnt, WaitTime(timeout));
        Scheduler();
      }
    }

    /** The running task goes to wait for units. */
    method BlockOnSemaphore(cnt: int, time: nat)
      requires Valid() && !model.dispatching && !model.pending && time <= FOREVER
      modifies `model, tcbs, queues, waitQueue
      ensures Holds()
      ensures var (s, t) := (old(model), old(model).curr.value);
        model == Block(s.(tasks := s.tasks[t := s.tasks[t].(request := cnt)]), Semaphore, time)
    {
      hide Linkage, QueuesHold, BlocksHold;
      RunningTaskHeadsItsQueue(model);
      ghost var t := model.curr.value;
      currTask.waitSemaphore := cnt;
      model := model.(tasks := model.tasks[t := currTask.Data()]);
      SameStructure(old(model), model);
      BlockCurrent(Semaphore, time);
    }

    // ------------------------------------------------- timer and dispatcher

    /** The timer takes one period off a waiter's time. */
    method AgeWaiter(tcb: Tcb, ghost k: nat, ghost s: State)
      requires Lists(s) && k < |s.wait| && Holds() && model == Age(s, k) && tcb == tcbTable[s.wait[k]]
      requires tcb.waitTime != FOREVER && tcb.waitTime > TIMER_PERIOD
      modifies `model, tcb`waitTime
      ensures Holds() && model == Age(s, k + 1)
    {
      hide Linkage, QueuesHold, BlocksHold;
      assert tcb.Data() == model.tasks[tcb.id];
      NextAge(s, k);
      hide TasksHold, IsTable, Age, Lists;
      SetWaitTime(tcb, tcb.waitTime - TIMER_PERIOD);
    }

    lemma NextAge(s: State, k: nat)
      requires Lists(s) && k < |s.wait|
      ensures var t := s.wait[k];
        && Age(s, k).tasks[t] == s.tasks[t]
        && Age(s, k + 1) == Age(s, k).(tasks := Age(s, k).tasks[t := Older(s.tasks[t])])
    {
      assert s.wait[..k + 1] == s.wait[..k] + [s.wait[k]];
    }

    /** What the walk knows of the task at position k, and when it is over. */
    lemma AgedSoFar(s: State, k: nat)
      requires Lists(s) && k <= |s.wait|
      ensures k < |s.wait| ==> Age(s, k).tasks[s.wait[k]] == s.tasks[s.wait[k]]
      ensures k < |s.wait| && s.tasks[s.wait[k]].time == FOREVER ==> Age(s, k + 1) == Age(s, k)
      ensures k == |s.wait| == First(s, TimedOut, 0) ==> Expire(s) == Age(s, k)
      ensures k == 0 ==> Age(s, k) == s
      ensures Age(s, k) == s.(tasks := Age(s, k).tasks)
    {
      if k < |s.wait| {
        NextAge(s, k);
        assert s.tasks[s.wait[k]].time == FOREVER ==> Age(s, k + 1).tasks == Age(s, k).tasks;
      }
      assert k == 0 ==> Age(s, k).tasks == s.tasks;
    }

    /** What the timer does at the first waiter whose time has run out. */
    lemma ExpireReleases(s: State, k: nat)
      requires Lists(s) && k == First(s, TimedOut, 0) < |s.wait|
      ensures var (t, aged) := (s.wait[k], Age(s, k));
        var s' := aged.(tasks := aged.tasks[t := aged.tasks[t].(err := TimeoutCode(aged.tasks[t].factor))]);
        && Lists(s') && s'.wait == s.wait && TaskOk(s', t) && Expire(s) == Release(s', k)
    {
      NextAge(s, k);
      var (t, aged) := (s.wait[k], Age(s, k));
      var s' := aged.(tasks := aged.tasks[t := aged.tasks[t].(err := TimeoutCode(aged.tasks[t].factor))]);
      SameStructure(s, s');
      WaiterIsLive(s', k);
    }

    /** The timer ends the wait of the task at position k. */
    method TimeOut(tcb: Tcb, ghost k: nat, ghost s: State)
      requires Lists(s) && k < |s.wait| && Holds() && model == Age(s, k) && tcb == tcbTable[s.wait[k]]
      requires k == First(s, TimedOut, 0)
      modifies `model, tcbs, queues, waitQueue
      ensures Holds() && model == Expire(s) && tcb.next == null
    {
      hide Linkage, QueuesHold, BlocksHold;
      assert tcb.Data() == model.tasks[tcb.id];
      ExpireReleases(s, k);
      hide TasksHold, IsTable, DispatcherHolds, First, Release, Expire, Age, Lists;
      if tcb.waitFactor == Delay {
        GiveCode(tcb, E_OK);
      } else {
        GiveCode(tcb, E_TMOUT);
      }
      ReleaseWaiter(tcb, k);
    }

    /** One round of the timer's pass: whether the waiter's time has run out. */
    method PassOne(tcb: Tcb, ghost k: nat, ghost s: State) returns (ghost out: bool)
      requires Shape(s) && Lists(s) && k < |s.wait| && Holds() && model == Age(s, k) && tcb == tcbTable[s.wait[k]]
      requires First(s, TimedOut, 0) == First(s, TimedOut, k)
      modifies `model, tcbs, queues, waitQueue
      ensures Holds()
      ensures out ==> model == Expire(s) && tcb.next == null
      ensures !out ==>
                && model == Age(s, k + 1) && tcb.next == At(tcbTable, s.wait, k + 1)
                && First(s, TimedOut, 0) == First(s, TimedOut, k + 1)
    {
      hide Linkage, QueuesHold, BlocksHold, Age, Expire, Lists, Ptr, Distinct, TaskQueue.Linked;
      AgedSoFar(s, k);
      NextOfWaiter(k);
      assert tcb.Data() == s.tasks[s.wait[k]];
      out := false;
      if tcb.waitTime == FOREVER {
      } else if tcb.waitTime > TIMER_PERIOD {
        AgeWaiter(tcb, k, s);
      } else {
        TimeOut(tcb, k, s);
        out := true;
      }
    }

    /** systimer_handler's pass over the wait queue. A release clears the released
      * task's next link, so that the pass ends there.
      */
    method PassWaiters()
      requires Holds() && Lists(model)
      modifies `model, tcbs, queues, waitQueue
      ensures Holds() && model == Expire(old(model))
    {
      hide Linkage, QueuesHold, BlocksHold, TasksHold, Age, Expire, Lists, Ptr, First;
      ghost var s := model;
      ghost var (k, released) := (0, false);
      var tcb := waitQueue.head;
      HeadOfWaitQueue();
      AgedSoFar(s, 0);
      while tcb != null
        invariant Holds()
        invariant released ==> tcb == null && model == Expire(s)
        invariant !released ==>
                    && k <= |s.wait| && tcb == At(tcbTable, s.wait, k) && model == Age(s, k)
                    && First(s, TimedOut, 0) == First(s, TimedOut, k)
        decreases |s.wait| - k, tcb != null
      {
        AgedSoFar(s, k);
        ghost var out := PassOne(tcb, k, s);
        if out {
          released := true;
        } else {
          k := k + 1;
        }
        tcb := tcb.next;
      }
      if !released {
        AgedSoFar(s, k);
      }
    }

    /** The running task goes from the head of its queue to the tail. */
    method RotateQueue(p: nat)
      requires Holds() && Lists(model) && model.curr.Some? && p < MAX_TASK_PRI
      requires model.ready[p] != [] && model.ready[p][0] == model.curr.value
      modifies `model, tcbs`prev, tcbs`next, queues
      ensures Holds()
      ensures var q := old(model).ready[p];
              model == old(model).(ready := old(model).ready[p := q[1..] + [q[0]]])
    {
      hide QueuesHold, BlocksHold, Linkage, TasksHold, Lists;
      ListsAreApart(model);
      assert model.ready[p] == [model.curr.value] + model.ready[p][1..];
      Dequeue(p);
      EnqueueReady(currTask, p);
    }

    /** The forced switch among tasks of the running task's priority */
    method RotateReady()
      requires Holds() && Lists(model)
      requires !model.dispatching ==> model.curr.Some? && 0 <= model.tasks[model.curr.value].pri < MAX_TASK_PRI
      requires !model.dispatching ==>
                 var q := model.ready[model.tasks[model.curr.value].pri];
                 |q| < 2 || q[0] == model.curr.value
      modifies `model, tcbs, queues
      ensures Holds() && model == Rotate(old(model))
    {
      hide QueuesHold, BlocksHold;
      if !dispatchRunning {
        ghost var t := model.curr.value;
        assert currTask.Data() == model.tasks[t];
        var p := currTask.taskPri;
        HeadOfReadyQueue(p);
        hide TasksHold, Lists, Linkage, Ptr;
        if readyQueue[p].head != null && readyQueue[p].head.next != null {
          RotateQueue(p);
        }
      }
    }

    lemma HeadOfReadyQueue(p: nat)
      requires Holds() && p < MAX_TASK_PRI
      ensures readyQueue[p].head == At(tcbTable, model.ready[p], 0)
      ensures model.ready[p] != [] ==> readyQueue[p].head.next == At(tcbTable, model.ready[p], 1)
    {
      assert readyQueue[p].Linked(tcbTable);
      if model.ready[p] != [] {
        assert LinkOk(tcbTable, readyQueue[p].ids, 0);
      }
    }

    /** systimer_handler */
    method SystimerHandler()
      requires Valid() && TickSafe(model)
      modifies this, tcbs, queues, waitQueue
      ensures Valid() && model == TickStep(old(model))
    {
      hide Linkage, QueuesHold, BlocksHold, TasksHold;
      TickKeepsInvIffSafe(model);
      ExpireKeepsLists(model);
      ExpireKeepsPriorities(model);
      PassWaiters();
      RotateReady();
      Scheduler();
    }

    /** dispatch_entry, up to the idle loop or to the switch; and the way out of the
      * idle loop once a task has been scheduled
      */
    method DispatchEntry()
      requires Valid() && DispatchEnabled(model)
      modifies this
      ensures Valid() && model == DispatchStep(old(model))
    {
      hide Linkage, QueuesHold, BlocksHold, TasksHold;
      DispatchKeepsInv(model);
      pendSv := false;
      if scheduledTask == null {
        dispatchRunning := true;
        currTask := null;
      } else {
        currTask := scheduledTask;
        dispatchRunning := false;
      }
      model := DispatchStep(model);
    }
  }
}
