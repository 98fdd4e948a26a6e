/** What each system call answers, and when: the codes are given as the numbers that a
  * caller sees, and the conditions by what the caller can know of the kernel.
  */
module CallResults {
  import opened Wrappers
  import opened Counting
  import opened KernelTypes
  import opened KernelSpec
  import opened KernelInvariant
  import opened KernelRuns
  import opened WordBits
  import opened EventFlags

  /** A call that could be answered at once left its caller running. */
  ghost predicate Blocked(s: State, s': State)
    requires Shape(s) && s.curr.Some?
  {
    s.curr.value !in s.wait && s.curr.value in s'.wait
  }

  // ------------------------------------------------------------------ tasks

  /** An attribute word has a bit besides 0, 5, 8 and 9. */
  ghost predicate UnknownAttribute(attr: bv32) {
    exists i: nat :: HasBit(Bits(attr), i) && i !in {0, 5, 8, 9}
  }

  lemma AttributeTest(attr: bv32)
    ensures UnknownAttribute(attr) <==> attr & !(TA_RNG3 | TA_HLNG | TA_USERBUF) != 0
  {
    hide HasBit;
    var (a, known) := (Bits(attr), Bits(0x321));
    UnknownWord(attr);
    CoversIff(known, a);
    NothingMissing(known, a);
    forall i: nat ensures HasBit(known, i) <==> i in {0, 5, 8, 9} {
      KnownAttributes(i);
    }
    hide Common, Without;
  }

  lemma UnknownWord(attr: bv32)
    ensures attr & !(TA_RNG3 | TA_HLNG | TA_USERBUF) == 0 <==> Without(Bits(attr), Bits(0x321)) == NoBits
  {}

  lemma UserBuffer(attr: bv32)
    ensures HasBit(Bits(attr), 5) <==> attr & TA_USERBUF != 0
  {
    ModeBits(Bits(attr));
  }

  /** sk_create_task answers E_RSATR for unknown attributes, E_PAR for a priority outside
    * 1 to 16 or a user stack without a size, E_LIMIT when every control block is in use,
    * and otherwise the number of the one it takes.
    */
  lemma CreateTaskAnswers(s: State, attr: bv32, pri: int, stackSize: int)
    requires Inv(s)
    ensures var ret := CreateTaskStep(s, attr, pri, stackSize).ret;
      && (ret == -11 <==> UnknownAttribute(attr))
      && (ret == -17 <==>
            && !UnknownAttribute(attr)
            && !(1 <= pri <= 16 && (HasBit(Bits(attr), 5) ==> stackSize != 0)))
      && (ret == -34 <==>
            && !UnknownAttribute(attr) && 1 <= pri <= 16 && (HasBit(Bits(attr), 5) ==> stackSize != 0)
            && forall t: TaskId :: s.tasks[t].state != NonExist)
      && (ret in {-11, -17, -34} || 1 <= ret <= 16)
      && (ret < 0 ==> CreateTaskStep(s, attr, pri, stackSize).s == s)
      && (ret > 0 ==>
            && s.tasks[ret - 1].state == NonExist && (forall i | 0 <= i < ret - 1 :: s.tasks[i].state != NonExist)
            && CreateTaskStep(s, attr, pri, stackSize).s
               == s.(tasks := s.tasks[ret - 1 := s.tasks[ret - 1].(state := Dormant, pri := pri)]))
  {
    AttributeTest(attr);
    UserBuffer(attr);
    hide UnknownAttribute, HasBit;
    assert FreeTask(s, 0) == MAX_TASKS <==> forall t: TaskId :: s.tasks[t].state != NonExist;
  }

  /** sk_start_task starts exactly the dormant tasks: they become READY at the tail of the
    * queue of their priority.
    */
  lemma StartTaskAnswers(s: State, id: int)
    requires Inv(s) && CallEnabled(s, StartTask(id))
    ensures var (ret, s') := (StartTaskStep(s, id).ret, StartTaskStep(s, id).s);
      && (ret == -18 <==> !(1 <= id <= 16))
      && (ret == -41 <==> 1 <= id <= 16 && s.tasks[id - 1].state != Dormant)
      && (ret == 0 <==> 1 <= id <= 16 && s.tasks[id - 1].state == Dormant)
      && (ret == 0 ==>
            var p := s.tasks[id - 1].pri;
            && 1 <= p < |s.ready|
            && s'.ready == s.ready[p := s.ready[p] + [id - 1]]
            && s'.tasks == s.tasks[id - 1 := s.tasks[id - 1].(state := Ready)]
            && s'.wait == s.wait)
  {
    if 1 <= id <= 16 {
      assert TaskOk(s, id - 1);
    }
  }

  /** sk_exit_task makes its caller dormant and takes it out of its queue. */
  lemma ExitTaskAnswers(s: State)
    requires Inv(s) && CallEnabled(s, ExitTask)
    ensures var (t, s') := (s.curr.value, ExitTaskStep(s).s);
      && s'.tasks == s.tasks[t := s.tasks[t].(state := Dormant)]
      && s'.wait == s.wait && t !in s'.wait
      && forall p | 0 <= p < |s'.ready| :: t !in s'.ready[p]
  {
    ExitTaskKeepsInv(s);
    RunningTaskHeadsItsQueue(s);
  }

  /** sk_delay_task answers 0 at once, and changes nothing, for no delay; it blocks for any
    * other.
    */
  lemma DelayTaskAnswers(s: State, delay: nat)
    requires Inv(s) && CallEnabled(s, DelayTask(delay))
    ensures var (ret, s') := (DelayTaskStep(s, delay).ret, DelayTaskStep(s, delay).s);
      && ret == 0
      && (delay == 0 ==> s' == s)
      && (Blocked(s, s') <==> delay > 0)
      && (delay > 0 ==> s'.wait == s.wait + [s.curr.value] && s'.tasks[s.curr.value].err == 0)
  {
    RunningTaskHeadsItsQueue(s);
  }

  /** sk_sleep_task blocks exactly when no wakeup is counted; otherwise it uses one up. */
  lemma SleepTaskAnswers(s: State, timeout: int)
    requires Inv(s) && CallEnabled(s, SleepTask(timeout))
    ensures var (t, ret, s') := (s.curr.value, SleepTaskStep(s, timeout).ret, SleepTaskStep(s, timeout).s);
      && ret == 0
      && (Blocked(s, s') <==> s.tasks[t].wakeups <= 0)
      && (s.tasks[t].wakeups > 0 ==>
            s' == s.(tasks := s.tasks[t := s.tasks[t].(wakeups := s.tasks[t].wakeups - 1)]))
      && (Blocked(s, s') ==> s'.wait == s.wait + [t] && s'.tasks[t].factor == Sleep && s'.tasks[t].err == 0)
  {
    RunningTaskHeadsItsQueue(s);
  }

  /** sk_wakeup_task is accepted exactly for tasks that are READY or wait. One that sleeps
    * leaves the wait queue and is READY at the tail of the queue of its priority; any other
    * is credited with a wakeup.
    */
  lemma WakeupTaskAnswers(s: State, id: int)
    requires Inv(s)
    ensures var (ret, s') := (WakeupTaskStep(s, id).ret, WakeupTaskStep(s, id).s);
      && (ret == -18 <==> !(1 <= id <= 16))
      && (ret == -41 <==> 1 <= id <= 16 && s.tasks[id - 1].state in {NonExist, Dormant})
      && (ret == 0 <==> 1 <= id <= 16 && s.tasks[id - 1].state in {Ready, Wait})
      && (ret == 0 && s.tasks[id - 1].factor != Sleep ==>
            s' == s.(tasks := s.tasks[id - 1 := s.tasks[id - 1].(wakeups := s.tasks[id - 1].wakeups + 1)]))
      && (ret == 0 && s.tasks[id - 1].factor == Sleep ==>
            var (t, p) := (id - 1, s.tasks[id - 1].pri);
            && t in s.wait && t !in s'.wait && |s'.wait| == |s.wait| - 1
            && 1 <= p < |s.ready|
            && s'.ready == s.ready[p := s.ready[p] + [t]]
            && s'.tasks == s.tasks[t := s.tasks[t].(state := Ready, factor := NoFactor)])
  {
    if 1 <= id <= 16 {
      assert TaskOk(s, id - 1);
      if s.tasks[id - 1].factor == Sleep {
        RemoveAtElements(s.wait, IndexOf(s.wait, id - 1));
      }
    }
  }

  // ------------------------------------------------------------ event flags

  /** sk_create_flag puts the pattern it is given into the first free control block. */
  lemma CreateFlagAnswers(s: State, initial: Bits)
    requires Inv(s) && CallEnabled(s, CreateFlag(initial))
    ensures var (ret, s') := (CreateFlagStep(s, initial).ret, CreateFlagStep(s, initial).s);
      && 1 <= ret <= 8 && !s.flags[ret - 1].inUse
      && (forall i | 0 <= i < ret - 1 :: s.flags[i].inUse)
      && s' == s.(flags := s.flags[ret - 1 := s'.flags[ret - 1]])
      && s'.flags[ret - 1].inUse && s'.flags[ret - 1].pattern == initial
  {}

  /** sk_set_flag and sk_clear_flag are accepted exactly for flags that exist. A set joins
    * the bits for the waiters to see; what they see and leave is the subject of
    * FirstSatisfiedWaiterIsReleased. A clear keeps the bits that its pattern has.
    */
  lemma SetFlagAnswers(s: State, id: int, bits: Bits)
    requires Inv(s)
    ensures var (ret, s') := (SetFlagStep(s, id, bits).ret, SetFlagStep(s, id, bits).s);
      && (ret == -18 <==> !(1 <= id <= 8))
      && (ret == -42 <==> 1 <= id <= 8 && !s.flags[id - 1].inUse)
      && (ret == 0 <==> 1 <= id <= 8 && s.flags[id - 1].inUse)
      && (ret == 0 ==>
            exists seen: Bits ::
              && (forall i: nat :: HasBit(seen, i) <==> HasBit(s.flags[id - 1].pattern, i) || HasBit(bits, i))
              && s' == TakePattern(s, id, seen))
  {
    if 1 <= id <= 8 && s.flags[id - 1].inUse {
      var seen := With(s.flags[id - 1].pattern, bits);
      forall i: nat ensures HasBit(seen, i) <==> HasBit(s.flags[id - 1].pattern, i) || HasBit(bits, i) {
        BitsOf(s.flags[id - 1].pattern, bits, i);
      }
      assert SetFlagStep(s, id, bits).s == TakePattern(s, id, seen);
    }
  }

  lemma ClearFlagAnswers(s: State, id: int, bits: Bits)
    requires Inv(s)
    ensures var (ret, s') := (ClearFlagStep(s, id, bits).ret, ClearFlagStep(s, id, bits).s);
      && (ret == -18 <==> !(1 <= id <= 8))
      && (ret == -42 <==> 1 <= id <= 8 && !s.flags[id - 1].inUse)
      && (ret == 0 <==> 1 <= id <= 8 && s.flags[id - 1].inUse)
      && (ret == 0 ==>
            && s' == s.(flags := s.flags[id - 1 := s'.flags[id - 1]]) && s'.flags[id - 1].inUse
            && forall i: nat ::
                 HasBit(s'.flags[id - 1].pattern, i) <==> HasBit(s.flags[id - 1].pattern, i) && HasBit(bits, i))
  {
    if 1 <= id <= 8 {
      forall i: nat
        ensures HasBit(Common(s.flags[id - 1].pattern, bits), i)
                <==> HasBit(s.flags[id - 1].pattern, i) && HasBit(bits, i)
      {
        BitsOf(s.flags[id - 1].pattern, bits, i);
      }
    }
  }

  /** sk_wait_flag is granted at once exactly when the flag's pattern meets the wait; then
    * the pattern is delivered and the flag keeps the bits that stay. Otherwise it answers
    * E_TMOUT when polling, and blocks when not.
    */
  lemma WaitFlagAnswers(s: State, id: int, bits: Bits, mode: Bits, timeout: int)
    requires Inv(s) && CallEnabled(s, WaitFlag(id, bits, mode, timeout))
    ensures var (ret, s') := (WaitFlagStep(s, id, bits, mode, timeout).ret, WaitFlagStep(s, id, bits, mode, timeout).s);
      var t := s.curr.value;
      && (ret == -18 <==> !(1 <= id <= 8))
      && (ret == -42 <==> 1 <= id <= 8 && !s.flags[id - 1].inUse)
      && (ret in {-18, -42} ==> s' == s)
      && (ret !in {-18, -42} ==>
            && (ret == -50 <==> timeout == 0 && !Meets(s.flags[id - 1].pattern, bits, mode))
            && (ret == -50 || ret == 0)
            && (ret == -50 ==> s' == s)
            && (Blocked(s, s') <==> timeout != 0 && !Meets(s.flags[id - 1].pattern, bits, mode))
            && (ret == 0 && !Blocked(s, s') ==>
                  && s'.tasks == s.tasks[t := s.tasks[t].(delivered := s.flags[id - 1].pattern)]
                  && s'.wait == s.wait && s'.ready == s.ready
                  && s'.flags == s.flags[id - 1 := s'.flags[id - 1]] && s'.flags[id - 1].inUse
                  && Leaves(s'.flags[id - 1].pattern, s.flags[id - 1].pattern, bits, mode))
            && (Blocked(s, s') ==>
                  && s'.wait == s.wait + [t] && s'.flags == s.flags
                  && s'.tasks[t].factor == Flag && s'.tasks[t].pattern == bits && s'.tasks[t].mode == mode
                  && s'.tasks[t].err == 0))
  {
    RunningTaskHeadsItsQueue(s);
    if 1 <= id <= 8 {
      var pattern := s.flags[id - 1].pattern;
      CheckFlagIsMeets(pattern, bits, mode);
      ConsumedLeaves(pattern, bits, mode);
      hide CheckFlag, Meets, Consumed, Leaves;
    }
  }

  // ------------------------------------------------------------- semaphores

  /** sk_create_semaphore puts the values it is given into the first free control block. */
  lemma CreateSemaphoreAnswers(s: State, initialValue: int, maxValue: int)
    requires Inv(s) && CallEnabled(s, CreateSemaphore(initialValue, maxValue))
    ensures var (ret, s') := (CreateSemaphoreStep(s, initialValue, maxValue).ret,
                              CreateSemaphoreStep(s, initialValue, maxValue).s);
      && 1 <= ret <= 8 && !s.sems[ret - 1].inUse
      && (forall i | 0 <= i < ret - 1 :: s.sems[i].inUse)
      && s' == s.(sems := s.sems[ret - 1 := s'.sems[ret - 1]])
      && s'.sems[ret - 1].inUse
      && s'.sems[ret - 1].value == initialValue && s'.sems[ret - 1].max == maxValue
  {}

  /** The waiter at position k is the first that waits for units. */
  ghost predicate FirstForUnits(s: State, k: nat)
    requires Shape(s)
  {
    && k < |s.wait| && s.tasks[s.wait[k]].factor == Semaphore
    && forall i | 0 <= i < k :: s.tasks[s.wait[i]].factor != Semaphore
  }

  /** sk_signal_semaphore is accepted exactly for a semaphore that exists and can hold the
    * units; when it cannot, E_QOVR is answered. An accepted signal releases a task exactly
    * when the first one that waits for units asks for no more than there now are.
    */
  lemma SignalSemaphoreAnswers(s: State, id: int, units: int)
    requires Inv(s)
    ensures var ret := SignalSemaphoreStep(s, id, units).ret;
      && (ret == -18 <==> !(1 <= id <= 8))
      && (ret == -42 <==> 1 <= id <= 8 && !s.sems[id - 1].inUse)
      && (ret == -43 <==> 1 <= id <= 8 && s.sems[id - 1].inUse && s.sems[id - 1].value + units > s.sems[id - 1].max)
      && (ret == 0 <==> 1 <= id <= 8 && s.sems[id - 1].inUse && s.sems[id - 1].value + units <= s.sems[id - 1].max)
      && (ret == 0 ==>
            (|SignalSemaphoreStep(s, id, units).s.wait| < |s.wait| <==>
               exists k: nat ::
                 FirstForUnits(s, k) && s.tasks[s.wait[k]].request <= s.sems[id - 1].value + units))
  {
    if 1 <= id <= 8 {
      var e := First(s, UnitsBack, 0);
      FirstIsForUnits(s);
      hide First, FirstForUnits, TopReady;
    }
  }

  lemma FirstIsForUnits(s: State)
    requires Inv(s)
    ensures forall k: nat :: FirstForUnits(s, k) <==> k < |s.wait| && k == First(s, UnitsBack, 0)
  {
    forall k: nat ensures FirstForUnits(s, k) <==> k < |s.wait| && k == First(s, UnitsBack, 0) {
      var e := First(s, UnitsBack, 0);
      if k < |s.wait| {
        assert Matches(s.tasks[s.wait[k]], UnitsBack) <==> s.tasks[s.wait[k]].factor == Semaphore;
      }
    }
  }

  /** sk_wait_semaphore is granted at once exactly when there are enough units, which it
    * takes. Otherwise it answers E_TMOUT when polling, and blocks when not.
    */
  lemma WaitSemaphoreAnswers(s: State, id: int, units: int, timeout: int)
    requires Inv(s) && CallEnabled(s, WaitSemaphore(id, units, timeout))
    ensures var (ret, s') := (WaitSemaphoreStep(s, id, units, timeout).ret, WaitSemaphoreStep(s, id, units, timeout).s);
      var t := s.curr.value;
      && (ret == -18 <==> !(1 <= id <= 8))
      && (ret == -42 <==> 1 <= id <= 8 && !s.sems[id - 1].inUse)
      && (ret in {-18, -42} ==> s' == s)
      && (ret !in {-18, -42} ==>
            && (ret == -50 <==> timeout == 0 && s.sems[id - 1].value < units)
            && (ret == -50 || ret == 0)
            && (ret == -50 ==> s' == s)
            && (Blocked(s, s') <==> timeout != 0 && s.sems[id - 1].value < units)
            && (ret == 0 && !Blocked(s, s') ==>
                  s' == s.(sems := s.sems[id - 1 := s.sems[id - 1].(value := s.sems[id - 1].value - units)]))
            && (Blocked(s, s') ==>
                  && s'.wait == s.wait + [t] && s'.sems == s.sems
                  && s'.tasks[t].factor == Semaphore && s'.tasks[t].request == units && s'.tasks[t].err == 0))
  {
    RunningTaskHeadsItsQueue(s);
  }
}
