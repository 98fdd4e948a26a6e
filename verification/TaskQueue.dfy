/** The intrusive doubly linked task queues. A queue is a pointer to its head; the
  * links live in the task control blocks, head.prev is the tail, and the tail's
  * next is null.
  */
module TaskQueue {
  import opened Counting
  import opened KernelTypes
  import opened KernelSpec

  /** A task control block. waitErr and delivered stand for the variables of the
    * blocked call that wait_err and p_flag_pattern point to.
    */
  class Tcb {
    ghost const id: TaskId

    var prev: Tcb?
    var next: Tcb?

    var state: TaskState
    var taskPri: int
    var wakeupCount: int

    var waitFactor: WaitFactor
    var waitTime: nat
    var waitErr: int

    var waitPattern: Bits
    var waitMode: Bits
    var delivered: Bits

    var waitSemaphore: int

    constructor (ghost id: TaskId)
      ensures this.id == id
      ensures Data() == Task(NonExist, 0, 0, NoFactor, 0, 0, NoBits, NoBits, NoBits, 0)
    {
      this.id := id;
      prev, next := null, null;
      state, taskPri, wakeupCount := NonExist, 0, 0;
      waitFactor, waitTime, waitErr := NoFactor, 0, 0;
      waitPattern, waitMode, delivered := NoBits, NoBits, NoBits;
      waitSemaphore := 0;
    }

    ghost function Data(): Task
      reads `state, `taskPri, `wakeupCount, `waitFactor, `waitTime, `waitErr
      reads `waitPattern, `waitMode, `delivered, `waitSemaphore
    {
      Task(state, taskPri, wakeupCount, waitFactor, waitTime, waitErr,
           waitPattern, waitMode, delivered, waitSemaphore)
    }
  }

  /** tcb_table: distinct control blocks, each at its own index. */
  ghost predicate IsTable(table: seq<Tcb>) {
    && |table| == MAX_TASKS
    && forall i: TaskId :: table[i].id == i
  }

  /** One TaskControlBlock* variable that heads a queue. */
  class TaskQueue {
    var head: Tcb?
    ghost var ids: seq<TaskId>

    constructor ()
      ensures head == null && ids == []
    {
      head, ids := null, [];
    }

    ghost predicate Linked(table: seq<Tcb>)
      requires IsTable(table)
      reads this, table`prev, table`next
    {
      && Distinct(ids)
      && head == At(table, ids, 0)
      && (forall i | 0 <= i < |ids| :: LinkOk(table, ids, i))
    }

    /** task_queue_add_entry */
    method AddEntry(tcb: Tcb, ghost table: seq<Tcb>)
      requires IsTable(table) && Linked(table)
      requires tcb == table[tcb.id] && tcb.id !in ids
      modifies this, table`prev, table`next
      ensures Linked(table) && ids == old(ids) + [tcb.id]
      ensures LinksKept(table, old(ids) + [tcb.id])
      ensures tcb.next == null
    {
      if head == null {
        head := tcb;
        tcb.prev := tcb;
      } else {
        assert LinkOk(table, ids, 0) && LinkOk(table, ids, |ids| - 1);
        var queueEnd := head.prev;
        queueEnd.next := tcb;
        tcb.prev := queueEnd;
        head.prev := tcb;
      }
      tcb.next := null;
      ids := ids + [tcb.id];
      forall i | 0 <= i < |ids|
        ensures LinkOk(table, ids, i)
      {
        if i < |old(ids)| {
          assert old(LinkOk(table, ids, i));
        }
      }
    }

    /** task_queue_remove_top */
    method RemoveTop(ghost table: seq<Tcb>)
      requires IsTable(table) && Linked(table)
      modifies this, table`prev
      ensures Linked(table) && ids == KernelSpec.RemoveTop(old(ids))
      ensures LinksKept(table, old(ids))
    {
      if head == null {
        return;
      }
      var top := head;
      assert LinkOk(table, ids, 0);
      head := top.next;
      if head != null {
        head.prev := top.prev;
      }
      ids := ids[1..];
      forall i | 0 <= i < |ids|
        ensures LinkOk(table, ids, i)
      {
        assert old(LinkOk(table, ids, i + 1));
      }
    }

    /** task_queue_remove_entry, for the entry at position k */
    method RemoveEntry(tcb: Tcb, ghost k: nat, ghost table: seq<Tcb>)
      requires IsTable(table) && Linked(table)
      requires k < |ids| && tcb == table[ids[k]]
      modifies this, table`prev, table`next
      ensures Linked(table) && ids == RemoveAt(old(ids), k)
      ensures LinksKept(table, old(ids))
    {
      if head == tcb {
        RemoveTop(table);
        assert old(ids)[0] == old(ids)[k];
        assert RemoveAt(old(ids), 0) == old(ids)[1..];
      } else {
        assert LinkOk(table, ids, k);
        tcb.prev.next := tcb.next;
        if tcb.next != null {
          tcb.next.prev := tcb.prev;
        } else {
          head.prev := tcb.prev;
        }
        ids := RemoveAt(ids, k);
        forall i | 0 <= i < |ids|
          ensures LinkOk(table, ids, i)
        {
          var j := if i < k then i else i + 1;
          assert ids[i] == old(ids)[j];
          assert old(LinkOk(table, ids, j));
        }
      }
    }
  }

  /** The links of the entry at position i of a queue. */
  ghost predicate LinkOk(table: seq<Tcb>, ids: seq<TaskId>, i: nat)
    requires |table| == MAX_TASKS && i < |ids|
    reads table`prev, table`next
  {
    && table[ids[i]].next == At(table, ids, i + 1)
    && table[ids[i]].prev == table[ids[if i == 0 then |ids| - 1 else i - 1]]
  }

  /** The control block at position i of a queue, or null past its end. */
  ghost function At(table: seq<Tcb>, ids: seq<TaskId>, i: nat): Tcb?
    requires |table| == MAX_TASKS
  {
    if i < |ids| then table[ids[i]] else null
  }

  /** Control blocks that were not touched keep their links. */
  twostate predicate LinksKept(table: seq<Tcb>, touched: seq<TaskId>)
    requires |table| == MAX_TASKS
    reads table
  {
    forall i: TaskId | i !in touched ::
      table[i].prev == old(table[i].prev) && table[i].next == old(table[i].next)
  }
}
