/** The constants and the value-level state of the preemptive kernel. */
module KernelTypes {
  import opened Wrappers

  const MAX_TASKS := 16
  const MAX_TASK_PRI := 16
  const MAX_FLAGS := 8
  const MAX_SEMAPHORES := 8

  /** Length of one timer tick, in milliseconds. */
  const TIMER_PERIOD := 10

  const INT_MIN := -0x8000_0000
  const INT_MAX := 0x7FFF_FFFF

  const TMO_POL := 0
  const TMO_FEVR := -1

  /** (RELTIME)TMO_FEVR: a waiter with this wait time is never aged. */
  const FOREVER := 0xFFFF_FFFF

  const E_OK := 0
  const E_RSATR := -11
  const E_PAR := -17
  const E_ID := -18
  const E_LIMIT := -34
  const E_OBJ := -41
  const E_NOEXS := -42
  const E_QOVR := -43
  const E_TMOUT := -50

  const TA_HLNG: bv32 := 0x0000_0001
  const TA_USERBUF: bv32 := 0x0000_0020
  const TA_RNG3: bv32 := 0x0000_0300

  const TWF_ORW: bv32 := 0x0000_0001
  const TWF_CLR: bv32 := 0x0000_0010
  const TWF_BITCLR: bv32 := 0x0000_0020

  /** An unsigned word that is used bit by bit: a flag pattern or a wait mode. */
  datatype Bits = Bits(word: bv32)

  const NoBits := Bits(0)

  /** An index into tcb_table. */
  type TaskId = i: nat | i < MAX_TASKS witness 0

  datatype TaskState = NonExist | Ready | Wait | Dormant

  datatype WaitFactor = NoFactor | Delay | Sleep | Flag | Semaphore

  /** Everything a task control block holds besides its queue links.
    * err and delivered are the variables of the blocked call that the source
    * reaches through wait_err and p_flag_pattern.
    */
  datatype Task = Task(
    state: TaskState,
    pri: int,
    wakeups: int,
    factor: WaitFactor,
    time: nat,
    err: int,
    pattern: Bits,
    mode: Bits,
    delivered: Bits,
    request: int)

  datatype FlagBlock = FlagBlock(inUse: bool, pattern: Bits)

  datatype SemBlock = SemBlock(inUse: bool, value: int, max: int)

  /** The kernel between two atomic steps. dispatching is dispatch_running,
    * which is seen set only in the idle loop; pending is the PendSV bit.
    */
  datatype State = State(
    tasks: seq<Task>,
    ready: seq<seq<TaskId>>,
    wait: seq<TaskId>,
    curr: Option<TaskId>,
    scheduled: Option<TaskId>,
    dispatching: bool,
    pending: bool,
    flags: seq<FlagBlock>,
    sems: seq<SemBlock>)
}
