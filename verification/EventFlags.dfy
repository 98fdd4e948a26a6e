/** Event flags: whom a set releases and with what, and when the order of a wait
  * and a set does not matter.
  */
module EventFlags {
  import opened Wrappers
  import opened KernelTypes
  import opened KernelSpec
  import opened KernelInvariant
  import opened KernelRuns
  import opened WordBits

  // ---------------------------------------------------------- conditions by bit

  /** A pattern meets a wait: with TWF_ORW, bit 0 of the mode, it has some bit of the wait
    * pattern, and otherwise all of them.
    */
  ghost predicate Meets(pattern: Bits, waitPattern: Bits, mode: Bits) {
    if HasBit(mode, 0) then exists i: nat :: HasBit(pattern, i) && HasBit(waitPattern, i)
    else forall i: nat | HasBit(waitPattern, i) :: HasBit(pattern, i)
  }

  /** Bit i stays in the pattern after a wait: not with TWF_CLR, bit 4 of the mode, and with
    * TWF_BITCLR, bit 5, only when it was not waited for.
    */
  predicate Stays(pattern: Bits, waitPattern: Bits, mode: Bits, i: nat) {
    HasBit(pattern, i) && !HasBit(mode, 4) && !(HasBit(mode, 5) && HasBit(waitPattern, i))
  }

  /** Just the bits of the pattern that stay are left. */
  ghost predicate Leaves(left: Bits, pattern: Bits, waitPattern: Bits, mode: Bits) {
    forall i: nat :: HasBit(left, i) <==> Stays(pattern, waitPattern, mode, i)
  }

  lemma CheckFlagIsMeets(pattern: Bits, waitPattern: Bits, mode: Bits)
    ensures CheckFlag(pattern, waitPattern, mode) <==> Meets(pattern, waitPattern, mode)
  {
    hide CheckFlag, Common, Masked, Odd, Half;
    ModeBits(mode);
    MeetIff(pattern, waitPattern);
    CoversIff(pattern, waitPattern);
    CheckedWords(pattern, waitPattern, mode);
  }

  lemma CheckedWords(pattern: Bits, waitPattern: Bits, mode: Bits)
    ensures CheckFlag(pattern, waitPattern, mode) <==>
              if Masked(mode, 0x01) then Common(pattern, waitPattern) != NoBits
              else Common(pattern, waitPattern) == waitPattern
  {}

  lemma ConsumedIsStays(pattern: Bits, waitPattern: Bits, mode: Bits, i: nat)
    ensures HasBit(Consumed(pattern, waitPattern, mode), i) <==> Stays(pattern, waitPattern, mode, i)
  {
    hide HasBit, Consumed, Without, Masked;
    ModeBits(mode);
    BitsOf(pattern, waitPattern, i);
    NoBitsHasNone(i);
    ConsumedWords(pattern, waitPattern, mode);
  }

  lemma ConsumedLeaves(pattern: Bits, waitPattern: Bits, mode: Bits)
    ensures Leaves(Consumed(pattern, waitPattern, mode), pattern, waitPattern, mode)
  {
    forall i: nat
      ensures HasBit(Consumed(pattern, waitPattern, mode), i) <==> Stays(pattern, waitPattern, mode, i)
    {
      ConsumedIsStays(pattern, waitPattern, mode, i);
    }
  }

  lemma ConsumedWords(pattern: Bits, waitPattern: Bits, mode: Bits)
    ensures Consumed(pattern, waitPattern, mode) ==
              if Masked(mode, 0x10) then NoBits
              else if Masked(mode, 0x20) then Without(pattern, waitPattern) else pattern
  {}

  /** The wait condition of t, were the flag's pattern to become this one. */
  ghost predicate Satisfied(s: State, t: TaskId, pattern: Bits)
    requires Shape(s)
  {
    s.tasks[t].factor == Flag && Meets(pattern, s.tasks[t].pattern, s.tasks[t].mode)
  }

  lemma SatisfiedIsMatched(s: State, t: TaskId, pattern: Bits)
    requires Shape(s)
    ensures Satisfied(s, t, pattern) <==> Matches(s.tasks[t], PatternSet(pattern))
  {
    CheckFlagIsMeets(pattern, s.tasks[t].pattern, s.tasks[t].mode);
  }

  /** When a flag takes a pattern, the waiter at position i is released exactly when
    * its condition holds and no earlier waiter's does. It is given the pattern, it
    * is READY at the tail of its queue, and the flag keeps just the bits that its mode
    * lets stay.
    */
  lemma FirstSatisfiedWaiterIsReleased(s: State, id: int, pattern: Bits, i: nat)
    requires Inv(s) && ValidId(id, MAX_FLAGS) && i < |s.wait|
    ensures Inv(TakePattern(s, id, pattern))
    ensures var (t, s') := (s.wait[i], TakePattern(s, id, pattern));
      && (t !in s'.wait <==>
            Satisfied(s, t, pattern) && forall j | 0 <= j < i :: !Satisfied(s, s.wait[j], pattern))
      && (t !in s'.wait ==>
            && s'.wait == RemoveAt(s.wait, i)
            && s'.tasks[t] == s.tasks[t].(state := Ready, factor := NoFactor, delivered := pattern)
            && TaskOk(s, t)
            && s'.ready[s.tasks[t].pri] == s.ready[s.tasks[t].pri] + [t]
            && s'.flags == s.flags[id - 1 := s'.flags[id - 1]] && s'.flags[id - 1].inUse
            && Leaves(s'.flags[id - 1].pattern, pattern, s.tasks[t].pattern, s.tasks[t].mode))
  {
    var t := s.wait[i];
    ReleasedWaiter(s, id, pattern, i);
    forall j | 0 <= j <= i
      ensures Satisfied(s, s.wait[j], pattern) <==> Matches(s.tasks[s.wait[j]], PatternSet(pattern))
    {
      SatisfiedIsMatched(s, s.wait[j], pattern);
    }
    ConsumedLeaves(pattern, s.tasks[t].pattern, s.tasks[t].mode);
    hide *;
  }

  lemma ReleasedWaiter(s: State, id: int, pattern: Bits, i: nat)
    requires Inv(s) && ValidId(id, MAX_FLAGS) && i < |s.wait|
    ensures Inv(TakePattern(s, id, pattern)) && |TakePattern(s, id, pattern).flags| == |s.flags| == MAX_FLAGS
    ensures var (t, s') := (s.wait[i], TakePattern(s, id, pattern));
      && (t !in s'.wait <==>
            && Matches(s.tasks[t], PatternSet(pattern))
            && forall j | 0 <= j < i :: !Matches(s.tasks[s.wait[j]], PatternSet(pattern)))
      && (t !in s'.wait ==>
            && s'.wait == RemoveAt(s.wait, i)
            && s'.tasks[t] == s.tasks[t].(state := Ready, factor := NoFactor, delivered := pattern)
            && TaskOk(s, t)
            && s'.ready[s.tasks[t].pri] == s.ready[s.tasks[t].pri] + [t]
            && s'.flags == s.flags[id - 1 :=
                 FlagBlock(true, Consumed(pattern, s.tasks[t].pattern, s.tasks[t].mode))])
  {
    TakePatternKeepsInv(s, id, pattern);
    assert TaskOk(s, s.wait[i]);
    var e := First(s, PatternSet(pattern), 0);
    if e < |s.wait| {
      RemoveAtElements(s.wait, e);
    }
  }

  /** With no satisfied waiter a set only stores the pattern. */
  lemma UnsatisfiedWaitersStay(s: State, id: int, pattern: Bits)
    requires Inv(s) && ValidId(id, MAX_FLAGS)
    requires forall t: TaskId | t in s.wait :: !Satisfied(s, t, pattern)
    ensures TakePattern(s, id, pattern) == s.(flags := s.flags[id - 1 := FlagBlock(true, pattern)])
  {
    forall i | 0 <= i < |s.wait| ensures !Matches(s.tasks[s.wait[i]], PatternSet(pattern)) {
      assert s.wait[i] in s.wait;
      SatisfiedIsMatched(s, s.wait[i], pattern);
    }
  }

  // ------------------------------------------------------- waiting and setting

  /** What a wait sees and leaves when it is satisfied by a pattern: nothing yet, or
    * the pattern it is given.
    */
  datatype Answer = Answer(given: Option<Bits>, left: Bits)

  function WaitThenSet(old_: Bits, bits: Bits, waitPattern: Bits, mode: Bits): Answer {
    if CheckFlag(old_, waitPattern, mode) then Answer(Some(old_), With(Consumed(old_, waitPattern, mode), bits))
    else if CheckFlag(With(old_, bits), waitPattern, mode) then
      Answer(Some(With(old_, bits)), Consumed(With(old_, bits), waitPattern, mode))
    else Answer(None, With(old_, bits))
  }

  function SetThenWait(old_: Bits, bits: Bits, waitPattern: Bits, mode: Bits): Answer {
    if CheckFlag(With(old_, bits), waitPattern, mode) then
      Answer(Some(With(old_, bits)), Consumed(With(old_, bits), waitPattern, mode))
    else Answer(None, With(old_, bits))
  }

  /** Every bit of b is a bit of c. */
  predicate Within(b: Bits, c: Bits) {
    b.word & !c.word == 0
  }

  lemma OrMeetsEither(o: bv32, b: bv32, w: bv32)
    ensures o & w != 0 ==> (o | b) & w != 0
  {}

  lemma OrCoversMore(o: bv32, b: bv32, w: bv32)
    ensures o & w == w ==> (o | b) & w == w
  {}

  /** More bits never unsatisfy a condition. */
  lemma MoreBitsStillSatisfy(old_: Bits, bits: Bits, waitPattern: Bits, mode: Bits)
    requires CheckFlag(old_, waitPattern, mode)
    ensures CheckFlag(With(old_, bits), waitPattern, mode)
  {
    OrMeetsEither(old_.word, bits.word, waitPattern.word);
    OrCoversMore(old_.word, bits.word, waitPattern.word);
  }

  lemma OrAbsorbsIff(o: bv32, b: bv32)
    ensures o | b == o <==> b & !o == 0
  {}

  lemma OrAddsNothing(o: Bits, b: Bits)
    ensures o == With(o, b) <==> Within(b, o)
  {
    var (x, y) := (o.word, b.word);
    OrAbsorbsIff(x, y);
    assert With(o, b) == Bits(x | y);
    assert o == Bits(x);
  }

  lemma WhatStaysWasThere(o: bv32, b: bv32, w: bv32)
    ensures b & !(o & !w) == 0 ==> b & !o == 0
  {}

  /** When the condition already holds, the orders agree if the set brings no bit
    * that the wait does not leave in the flag.
    */
  lemma SatisfiedOrdersAgree(old_: Bits, bits: Bits, waitPattern: Bits, mode: Bits)
    requires CheckFlag(old_, waitPattern, mode)
    requires Within(bits, Consumed(old_, waitPattern, mode))
    ensures WaitThenSet(old_, bits, waitPattern, mode) == SetThenWait(old_, bits, waitPattern, mode)
  {
    KeptWasThere(old_, bits, waitPattern, mode);
    OrAddsNothing(old_, bits);
    OrAddsNothing(Consumed(old_, waitPattern, mode), bits);
    assert With(old_, bits) == old_;
  }

  lemma SatisfiedOrdersDiffer(old_: Bits, bits: Bits, waitPattern: Bits, mode: Bits)
    requires CheckFlag(old_, waitPattern, mode)
    requires WaitThenSet(old_, bits, waitPattern, mode) == SetThenWait(old_, bits, waitPattern, mode)
    ensures Within(bits, Consumed(old_, waitPattern, mode))
  {
    MoreBitsStillSatisfy(old_, bits, waitPattern, mode);
    assert With(old_, bits) == old_;
    OrAddsNothing(Consumed(old_, waitPattern, mode), bits);
  }

  lemma AnswersAgreeIff(old_: Bits, bits: Bits, waitPattern: Bits, mode: Bits)
    ensures WaitThenSet(old_, bits, waitPattern, mode) == SetThenWait(old_, bits, waitPattern, mode)
       <==> !CheckFlag(old_, waitPattern, mode) || Within(bits, Consumed(old_, waitPattern, mode))
  {
    if CheckFlag(old_, waitPattern, mode) {
      if Within(bits, Consumed(old_, waitPattern, mode)) {
        SatisfiedOrdersAgree(old_, bits, waitPattern, mode);
      } else if WaitThenSet(old_, bits, waitPattern, mode) == SetThenWait(old_, bits, waitPattern, mode) {
        SatisfiedOrdersDiffer(old_, bits, waitPattern, mode);
      }
    }
  }

  lemma KeptWasThere(old_: Bits, bits: Bits, waitPattern: Bits, mode: Bits)
    requires Within(bits, Consumed(old_, waitPattern, mode))
    ensures Within(bits, old_)
  {
    WhatStaysWasThere(old_.word, bits.word, waitPattern.word);
    NoBitsWithinNone(bits.word);
  }

  lemma NoBitsWithinNone(b: bv32)
    ensures b & !0 == 0 ==> b == 0
  {}

  // ------------------------------------------------ the same, in the kernel

  ghost predicate NoFlagWaiter(s: State)
    requires Shape(s)
  {
    forall t: TaskId | t in s.wait :: s.tasks[t].factor != Flag
  }

  /** The flag's pattern and what t was given, once t has asked for it. */
  ghost function AnswerIn(s: State, id: int, t: TaskId): Answer
    requires Shape(s) && ValidId(id, MAX_FLAGS)
  {
    Answer(if t in s.wait then None else Some(s.tasks[t].delivered), s.flags[id - 1].pattern)
  }

  /** The running task waits; if it blocks, the dispatcher runs. */
  ghost function AfterWait(s: State, id: int, bits: Bits, mode: Bits, timeout: int): (s': State)
    requires Inv(s) && CallEnabled(s, WaitFlag(id, bits, mode, timeout))
    ensures Inv(s')
  {
    WaitFlagKeepsInv(s, id, bits, mode, timeout);
    var waited := WaitFlagStep(s, id, bits, mode, timeout).s;
    if waited.pending then DispatchKeepsInv(waited); DispatchStep(waited) else waited
  }

  /** A wait that blocks leaves its caller as the only flag waiter. */
  lemma BlockedWait(s: State, id: int, bits: Bits, mode: Bits, timeout: int)
    requires Inv(s) && CallEnabled(s, WaitFlag(id, bits, mode, timeout)) && NoFlagWaiter(s)
    requires ValidId(id, MAX_FLAGS) && s.flags[id - 1].inUse && timeout != TMO_POL
    requires !CheckFlag(s.flags[id - 1].pattern, bits, mode)
    ensures var (s', t) := (AfterWait(s, id, bits, mode, timeout), s.curr.value);
      && t in s'.wait && s'.flags == s.flags
      && s'.tasks[t].factor == Flag && s'.tasks[t].pattern == bits && s'.tasks[t].mode == mode
      && (forall u: TaskId | u in s'.wait && u != t :: s'.tasks[u].factor != Flag)
  {
    RunningTaskHeadsItsQueue(s);
  }

  /** A set that meets a single flag waiter. */
  lemma SetOnBlocked(s: State, id: int, pattern: Bits, t: TaskId)
    requires Inv(s) && ValidId(id, MAX_FLAGS)
    requires t in s.wait && s.tasks[t].factor == Flag
    requires forall u: TaskId | u in s.wait && u != t :: s.tasks[u].factor != Flag
    ensures Inv(TakePattern(s, id, pattern))
    ensures AnswerIn(TakePattern(s, id, pattern), id, t) ==
            if CheckFlag(pattern, s.tasks[t].pattern, s.tasks[t].mode)
            then Answer(Some(pattern), Consumed(pattern, s.tasks[t].pattern, s.tasks[t].mode))
            else Answer(None, pattern)
  {
    CheckFlagIsMeets(pattern, s.tasks[t].pattern, s.tasks[t].mode);
    hide CheckFlag, Meets;
    TakePatternKeepsInv(s, id, pattern);
    if CheckFlag(pattern, s.tasks[t].pattern, s.tasks[t].mode) {
      assert forall i | 0 <= i < |s.wait| && s.wait[i] != t :: s.wait[i] in s.wait;
      FirstSatisfiedWaiterIsReleased(s, id, pattern, IndexOf(s.wait, t));
    } else {
      UnsatisfiedWaitersStay(s, id, pattern);
    }
  }

  /** A wait that need not block. */
  lemma GrantedWait(s: State, id: int, bits: Bits, mode: Bits, timeout: int)
    requires Inv(s) && CallEnabled(s, WaitFlag(id, bits, mode, timeout)) && NoFlagWaiter(s)
    requires ValidId(id, MAX_FLAGS) && s.flags[id - 1].inUse
    requires CheckFlag(s.flags[id - 1].pattern, bits, mode)
    ensures var (s', t) := (AfterWait(s, id, bits, mode, timeout), s.curr.value);
      && NoFlagWaiter(s') && t !in s'.wait
      && s'.tasks[t].delivered == s.flags[id - 1].pattern
      && s'.flags[id - 1] == FlagBlock(true, Consumed(s.flags[id - 1].pattern, bits, mode))
  {
    RunningTaskHeadsItsQueue(s);
  }

  /** sk_set_flag on a flag that exists. */
  ghost function AfterSet(s: State, id: int, added: Bits): (s': State)
    requires Inv(s) && ValidId(id, MAX_FLAGS) && s.flags[id - 1].inUse
    ensures Inv(s')
    ensures s' == TakePattern(s, id, With(s.flags[id - 1].pattern, added))
  {
    SetFlagKeepsInv(s, id, added);
    SetFlagStep(s, id, added).s
  }

  /** A set that meets no flag waiter. */
  lemma SetWithoutWaiter(s: State, id: int, added: Bits)
    requires Inv(s) && ValidId(id, MAX_FLAGS) && s.flags[id - 1].inUse && NoFlagWaiter(s)
    ensures AfterSet(s, id, added) ==
            s.(flags := s.flags[id - 1 := FlagBlock(true, With(s.flags[id - 1].pattern, added))])
  {
    UnsatisfiedWaitersStay(s, id, With(s.flags[id - 1].pattern, added));
  }

  lemma AnswerOfPattern(s: State, id: int, pattern: Bits, t: TaskId)
    requires Shape(s) && ValidId(id, MAX_FLAGS) && t !in s.wait
    ensures AnswerIn(s.(flags := s.flags[id - 1 := FlagBlock(true, pattern)]), id, t)
            == Answer(Some(s.tasks[t].delivered), pattern)
  {}

  lemma SetAfterGrant(s: State, id: int, added: Bits, t: TaskId)
    requires Inv(s) && ValidId(id, MAX_FLAGS) && s.flags[id - 1].inUse && NoFlagWaiter(s) && t !in s.wait
    ensures AnswerIn(AfterSet(s, id, added), id, t)
            == Answer(Some(s.tasks[t].delivered), With(s.flags[id - 1].pattern, added))
  {
    SetWithoutWaiter(s, id, added);
    AnswerOfPattern(s, id, With(s.flags[id - 1].pattern, added), t);
  }

  lemma SetAfterBlock(s: State, id: int, added: Bits, t: TaskId)
    requires Inv(s) && ValidId(id, MAX_FLAGS) && s.flags[id - 1].inUse
    requires t in s.wait && s.tasks[t].factor == Flag
    requires forall u: TaskId | u in s.wait && u != t :: s.tasks[u].factor != Flag
    ensures AnswerIn(AfterSet(s, id, added), id, t) ==
            var pattern := With(s.flags[id - 1].pattern, added);
            if CheckFlag(pattern, s.tasks[t].pattern, s.tasks[t].mode)
            then Answer(Some(pattern), Consumed(pattern, s.tasks[t].pattern, s.tasks[t].mode))
            else Answer(None, pattern)
  {
    SetOnBlocked(s, id, With(s.flags[id - 1].pattern, added), t);
  }

  lemma GrantThenSet(s: State, id: int, bits: Bits, mode: Bits, timeout: int, added: Bits, pattern: Bits, kept: Bits)
    requires Inv(s) && CallEnabled(s, WaitFlag(id, bits, mode, timeout)) && NoFlagWaiter(s)
    requires ValidId(id, MAX_FLAGS) && s.flags[id - 1] == FlagBlock(true, pattern)
    requires CheckFlag(pattern, bits, mode) && kept == Consumed(pattern, bits, mode)
    ensures AfterWait(s, id, bits, mode, timeout).flags[id - 1].inUse
    ensures AnswerIn(AfterSet(AfterWait(s, id, bits, mode, timeout), id, added), id, s.curr.value)
            == Answer(Some(pattern), With(kept, added))
  {
    GrantedWait(s, id, bits, mode, timeout);
    SetAfterGrant(AfterWait(s, id, bits, mode, timeout), id, added, s.curr.value);
  }

  lemma BlockThenSet(s: State, id: int, bits: Bits, mode: Bits, timeout: int, added: Bits)
    requires Inv(s) && CallEnabled(s, WaitFlag(id, bits, mode, timeout)) && NoFlagWaiter(s)
    requires ValidId(id, MAX_FLAGS) && s.flags[id - 1].inUse && timeout != TMO_POL
    requires !CheckFlag(s.flags[id - 1].pattern, bits, mode)
    ensures AfterWait(s, id, bits, mode, timeout).flags[id - 1].inUse
    ensures AnswerIn(AfterSet(AfterWait(s, id, bits, mode, timeout), id, added), id, s.curr.value) ==
            var pattern := With(s.flags[id - 1].pattern, added);
            if CheckFlag(pattern, bits, mode) then Answer(Some(pattern), Consumed(pattern, bits, mode))
            else Answer(None, pattern)
  {
    BlockedWait(s, id, bits, mode, timeout);
    SetAfterBlock(AfterWait(s, id, bits, mode, timeout), id, added, s.curr.value);
  }

  lemma WaitThenSetInKernel(s: State, id: int, bits: Bits, mode: Bits, timeout: int, added: Bits)
    requires Inv(s) && CallEnabled(s, WaitFlag(id, bits, mode, timeout)) && NoFlagWaiter(s)
    requires ValidId(id, MAX_FLAGS) && s.flags[id - 1].inUse && timeout != TMO_POL
    ensures AfterWait(s, id, bits, mode, timeout).flags[id - 1].inUse
    ensures AnswerIn(AfterSet(AfterWait(s, id, bits, mode, timeout), id, added), id, s.curr.value)
            == WaitThenSet(s.flags[id - 1].pattern, added, bits, mode)
  {
    var pattern := s.flags[id - 1].pattern;
    if CheckFlag(pattern, bits, mode) {
      GrantThenSet(s, id, bits, mode, timeout, added, pattern, Consumed(pattern, bits, mode));
    } else {
      BlockThenSet(s, id, bits, mode, timeout, added);
    }
  }

  lemma WaitAfterSet(s: State, id: int, bits: Bits, mode: Bits, timeout: int)
    requires Inv(s) && CallEnabled(s, WaitFlag(id, bits, mode, timeout)) && NoFlagWaiter(s)
    requires ValidId(id, MAX_FLAGS) && s.flags[id - 1].inUse && timeout != TMO_POL
    ensures AnswerIn(AfterWait(s, id, bits, mode, timeout), id, s.curr.value) ==
            var pattern := s.flags[id - 1].pattern;
            if CheckFlag(pattern, bits, mode) then Answer(Some(pattern), Consumed(pattern, bits, mode))
            else Answer(None, pattern)
  {
    if CheckFlag(s.flags[id - 1].pattern, bits, mode) {
      GrantedWait(s, id, bits, mode, timeout);
    } else {
      BlockedWait(s, id, bits, mode, timeout);
    }
  }

  lemma SetThenWaitInKernel(s: State, id: int, bits: Bits, mode: Bits, timeout: int, added: Bits)
    requires Inv(s) && CallEnabled(s, WaitFlag(id, bits, mode, timeout)) && NoFlagWaiter(s)
    requires ValidId(id, MAX_FLAGS) && s.flags[id - 1].inUse && timeout != TMO_POL
    ensures CallEnabled(AfterSet(s, id, added), WaitFlag(id, bits, mode, timeout))
    ensures AnswerIn(AfterWait(AfterSet(s, id, added), id, bits, mode, timeout), id, s.curr.value)
            == SetThenWait(s.flags[id - 1].pattern, added, bits, mode)
  {
    SetWithoutWaiter(s, id, added);
    WaitAfterSet(AfterSet(s, id, added), id, bits, mode, timeout);
  }

  lemma WithinIff(b: Bits, c: Bits)
    ensures Within(b, c) <==> forall i: nat | HasBit(b, i) :: HasBit(c, i)
  {
    assert Within(b, c) <==> Without(b, c) == NoBits;
    NothingMissing(c, b);
    CoversIff(c, b);
  }

  /** The added bits all stay after the wait. */
  ghost predicate AllStay(added: Bits, pattern: Bits, waitPattern: Bits, mode: Bits) {
    forall i: nat | HasBit(added, i) :: Stays(pattern, waitPattern, mode, i)
  }

  lemma AllStayIsWithin(added: Bits, pattern: Bits, waitPattern: Bits, mode: Bits)
    ensures AllStay(added, pattern, waitPattern, mode) <==> Within(added, Consumed(pattern, waitPattern, mode))
  {
    WithinIff(added, Consumed(pattern, waitPattern, mode));
    ConsumedLeaves(pattern, waitPattern, mode);
    hide Consumed, Within, Stays;
  }

  /** Wait-then-set and set-then-wait leave the same flag pattern and give the
    * waiter the same answer for every pattern and mode, unless the wait would not
    * have had to wait and the set brings a bit that the wait does not leave there.
    */
  lemma OrderOfWaitAndSetMatters(s: State, id: int, bits: Bits, mode: Bits, timeout: int, added: Bits)
    requires Inv(s) && CallEnabled(s, WaitFlag(id, bits, mode, timeout)) && NoFlagWaiter(s)
    requires ValidId(id, MAX_FLAGS) && s.flags[id - 1].inUse && timeout != TMO_POL
    ensures AfterWait(s, id, bits, mode, timeout).flags[id - 1].inUse
    ensures CallEnabled(AfterSet(s, id, added), WaitFlag(id, bits, mode, timeout))
    ensures AnswerIn(AfterSet(AfterWait(s, id, bits, mode, timeout), id, added), id, s.curr.value)
            == AnswerIn(AfterWait(AfterSet(s, id, added), id, bits, mode, timeout), id, s.curr.value)
       <==> var pattern := s.flags[id - 1].pattern;
            !Meets(pattern, bits, mode) || AllStay(added, pattern, bits, mode)
  {
    CheckFlagIsMeets(s.flags[id - 1].pattern, bits, mode);
    AllStayIsWithin(added, s.flags[id - 1].pattern, bits, mode);
    WaitThenSetInKernel(s, id, bits, mode, timeout, added);
    SetThenWaitInKernel(s, id, bits, mode, timeout, added);
    AnswersAgreeIff(s.flags[id - 1].pattern, added, bits, mode);
  }

  lemma WaitBringsNothingBack()
    ensures CheckFlag(Bits(1), Bits(1), NoBits) && !Within(Bits(2), Consumed(Bits(1), Bits(1), NoBits))
  {}

  /** They do differ: a flag that is created with pattern 1, a task that waits for that
    * bit, and a set of pattern 2.
    */
  lemma OrdersDifferAfterBoot() returns (s: State)
    ensures Inv(s) && Legal(Boot(), [Invoke(CreateFlag(Bits(1)))])
    ensures s == Run(Boot(), [Invoke(CreateFlag(Bits(1)))])
    ensures CallEnabled(s, WaitFlag(1, Bits(1), NoBits, TMO_FEVR)) && s.flags[0].inUse
    ensures AfterWait(s, 1, Bits(1), NoBits, TMO_FEVR).flags[0].inUse
    ensures CallEnabled(AfterSet(s, 1, Bits(2)), WaitFlag(1, Bits(1), NoBits, TMO_FEVR))
    ensures AnswerIn(AfterSet(AfterWait(s, 1, Bits(1), NoBits, TMO_FEVR), 1, Bits(2)), 1, 0)
            != AnswerIn(AfterWait(AfterSet(s, 1, Bits(2)), 1, Bits(1), NoBits, TMO_FEVR), 1, 0)
  {
    var steps := [Invoke(CreateFlag(Bits(1)))];
    FlagAfterBoot();
    s := Exec(Boot(), steps[0]);
    assert steps[1..] == [] && Legal(s, []) && Run(s, []) == s;
    hide AfterSet, AfterWait, AnswerIn, CheckFlag, Within, Consumed, Boot, Exec, Run, Legal;
    WaitBringsNothingBack();
    CheckFlagIsMeets(Bits(1), Bits(1), NoBits);
    AllStayIsWithin(Bits(2), Bits(1), Bits(1), NoBits);
    hide Meets, AllStay;
    OrderOfWaitAndSetMatters(s, 1, Bits(1), NoBits, TMO_FEVR, Bits(2));
  }

  lemma FlagAfterBoot()
    ensures var s := Boot();
      && CallEnabled(s, CreateFlag(Bits(1)))
      && Perform(s, CreateFlag(Bits(1))).s == s.(flags := s.flags[0 := FlagBlock(true, Bits(1))])
      && s.wait == [] && s.curr == Some(0)
  {
    assert !Boot().flags[0].inUse;
  }
}
