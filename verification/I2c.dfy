/** The I2C transfer: a state machine that writes one command word a byte. */
module I2c {
  import opened Bytes

  const WRITE := 0x000
  const READ := 0x100
  const STOP := 0x200
  const RESTART := 0x400

  const E_OK := 0
  const E_PAR := -17
  const E_IO := -57

  // ------------------------------------------------------- the command words

  function Data(word: nat): Byte {
    word % 0x100
  }

  predicate IsRead(word: nat) {
    word / 0x100 % 2 == 1
  }

  predicate HasStop(word: nat) {
    word / 0x200 % 2 == 1
  }

  predicate HasRestart(word: nat) {
    word / 0x400 % 2 == 1
  }

  /** Command i of sending data and then receiving m bytes. */
  function Command(data: seq<Byte>, m: nat, i: nat): nat
    requires i < |data| + m
  {
    if i >= |data| then
      READ + (if i == |data| + m - 1 then STOP else 0)
    else if i < |data| - 1 then
      data[i] as int + WRITE
    else
      data[i] as int + WRITE + (if m > 0 then RESTART else STOP)
  }

  function Commands(data: seq<Byte>, m: nat): (words: seq<nat>)
    ensures |words| == |data| + m
  {
    seq(|data| + m, i requires 0 <= i < |data| + m => Command(data, m, i))
  }

  lemma CommandAt(data: seq<Byte>, m: nat, i: nat)
    requires i < |data| + m
    ensures Commands(data, m)[i] == Command(data, m, i)
    ensures Commands(data, m)[..i + 1] == Commands(data, m)[..i] + [Command(data, m, i)]
  {}

  /** The writes carry the data in order, then come the reads; the last command and no
    * other has STOP, and RESTART is on the last write, only when something is read.
    */
  lemma FlagsOfCommands(data: seq<Byte>, m: nat, i: nat)
    requires i < |data| + m
    ensures var word := Commands(data, m)[i];
            && (IsRead(word) <==> i >= |data|)
            && (HasStop(word) <==> i == |data| + m - 1)
            && (HasRestart(word) <==> i == |data| - 1 && m > 0)
            && (i < |data| ==> Data(word) == data[i])
  {
    assert Commands(data, m)[i] == Command(data, m, i);
  }

  // ------------------------------------------------ what the commands mean

  /** A message on the wire: the bytes written and the number of bytes asked for. */
  datatype Message = Message(written: seq<Byte>, asked: nat)

  /** The messages that STOP has ended, and the one that is under way. */
  datatype Wire = Wire(done: seq<Message>, open: Message)

  const SILENT := Message([], 0)

  /** One command word as the bus understands it. */
  function Obey(wire: Wire, word: nat): Wire {
    var open := if IsRead(word) then wire.open.(asked := wire.open.asked + 1)
                else wire.open.(written := wire.open.written + [Data(word)]);
    if HasStop(word) then Wire(wire.done + [open], SILENT) else wire.(open := open)
  }

  function Obeyed(words: seq<nat>): Wire {
    if words == [] then Wire([], SILENT) else Obey(Obeyed(words[..|words| - 1]), words[|words| - 1])
  }

  /** Short of the last command nothing is complete: the message under way has what
    * the commands so far have written and asked for.
    */
  lemma {:induction false} PrefixIsUnderWay(data: seq<Byte>, m: nat, i: nat)
    requires i < |data| + m
    ensures Obeyed(Commands(data, m)[..i]) ==
            Wire([], Message(if i < |data| then data[..i] else data, if i < |data| then 0 else i - |data|))
  {
    hide IsRead, HasStop, HasRestart, Command, Commands;
    if i > 0 {
      var words := Commands(data, m)[..i];
      assert words[..i - 1] == Commands(data, m)[..i - 1];
      PrefixIsUnderWay(data, m, i - 1);
      FlagsOfCommands(data, m, i - 1);
      if i <= |data| {
        assert data[..i] == data[..i - 1] + [data[i - 1]];
        assert data[..|data|] == data;
      }
    }
  }

  /** All the commands make exactly one message, and it is the one asked for. */
  lemma {:induction false} CommandsAreOneMessage(data: seq<Byte>, m: nat)
    requires |data| + m > 0
    ensures Obeyed(Commands(data, m)) == Wire([Message(data, m)], SILENT)
  {
    hide IsRead, HasStop, HasRestart, Command, Commands;
    var (words, i) := (Commands(data, m), |data| + m - 1);
    PrefixIsUnderWay(data, m, i);
    FlagsOfCommands(data, m, i);
    if m == 0 {
      assert data == data[..i] + [data[i]];
    }
  }

  /** So no two transfers emit the same commands. */
  lemma CommandsDetermineTransfer(data: seq<Byte>, m: nat, other: seq<Byte>, k: nat)
    requires Commands(data, m) == Commands(other, k)
    ensures data == other && m == k
  {
    hide Command, Commands, Obeyed;
    assert |data| + m == |other| + k;
    if |data| + m > 0 {
      CommandsAreOneMessage(data, m);
      CommandsAreOneMessage(other, k);
      assert [Message(data, m)][0] == [Message(other, k)][0];
    }
  }

  // ---------------------------------------------------------- the transfer

  /** What the hardware answers to a read: a byte, or that the transfer was aborted
    * and whatever its data register then holds.
    */
  datatype Answer = Answer(aborted: bool, byte: Byte)

  /** The first aborted one among m reads, or m. */
  function FirstAbort(answers: seq<Answer>, m: nat): (k: nat)
    requires m <= |answers|
    ensures k <= m
    ensures forall i | 0 <= i < k :: !answers[i].aborted
    ensures k < m ==> answers[k].aborted
  {
    if m == 0 then 0
    else
      var k := FirstAbort(answers, m - 1);
      if k < m - 1 || answers[m - 1].aborted then k else m
  }

  /** How many reads are made: an aborted one is the last. */
  function ReadsMade(answers: seq<Answer>, m: nat): (k: nat)
    requires m <= |answers|
    ensures k <= m
    ensures forall i | 0 <= i < k - 1 :: !answers[i].aborted
    ensures k < m ==> k > 0 && answers[k - 1].aborted
  {
    var k := FirstAbort(answers, m);
    if k < m then k + 1 else m
  }

  /** A buffer with bytes received from position pos on. */
  function Received(was: seq<Byte>, pos: nat, answers: seq<Answer>): (buffer: seq<Byte>)
    requires pos + |answers| <= |was|
    ensures |buffer| == |was|
    ensures forall i | 0 <= i < |answers| :: buffer[pos + i] == answers[i].byte
    ensures forall i | 0 <= i < |was| && !(pos <= i < pos + |answers|) :: buffer[i] == was[i]
  {
    was[..pos] + seq(|answers|, i requires 0 <= i < |answers| => answers[i].byte) + was[pos + |answers|..]
  }

  lemma OneMoreReceived(was: seq<Byte>, pos: nat, answers: seq<Answer>, k: nat)
    requires k < |answers| && pos + k < |was|
    ensures Received(was, pos, answers[..k])[pos + k := answers[k].byte] == Received(was, pos, answers[..k + 1])
  {}

  lemma NothingReceived(was: seq<Byte>, pos: nat)
    requires pos <= |was|
    ensures Received(was, pos, []) == was
  {}

  datatype Status = Send | Recv | Stop

  /** What a transfer started with. */
  datatype Job = Job(data: seq<Byte>, m: nat, answers: seq<Answer>,
                     source: seq<Byte>, start: nat, was: seq<Byte>, pos: nat, before: seq<nat>)
  {
    ghost predicate Valid() {
      && (data != [] ==> start + |data| <= |source| && source[start..start + |data|] == data)
      && m <= |answers| && (m > 0 ==> pos + m <= |was|)
    }

    ghost function Result(state: Status): int
      requires Valid()
    {
      if |data| + m == 0 then E_PAR else if state == Stop && FirstAbort(answers, m) < m then E_IO else E_OK
    }
  }

  /** The driver's control block, with its buffer pointers as array and position, and
    * the registers it writes.
    */
  class Controller {
    var sadr: nat
    var sdatNum: nat
    var rdatNum: nat
    var sbuf: array?<Byte>
    var spos: nat
    var rbuf: array?<Byte>
    var rpos: nat

    var target: nat
    var enabled: bool
    var commands: seq<nat>

    constructor ()
      ensures sdatNum == 0 && rdatNum == 0 && commands == [] && !enabled
    {
      sadr, sdatNum, rdatNum, sbuf, spos, rbuf, rpos := 0, 0, 0, null, 0, null, 0;
      target, enabled, commands := 0, false, [];
    }

    /** The buffers hold the bytes that are still to be sent and received. */
    ghost predicate Ready()
      reads this
    {
      && (sdatNum > 0 ==> sbuf != null && spos + sdatNum <= sbuf.Length)
      && (rdatNum > 0 ==> rbuf != null && rpos + rdatNum <= rbuf.Length)
    }

    /** The bytes to send. */
    ghost function ToSend(): (data: seq<Byte>)
      requires Ready()
      reads this, sbuf
      ensures |data| == sdatNum
    {
      if sdatNum == 0 then [] else sbuf[..][spos..spos + sdatNum]
    }

    /** set_com_start */
    method SetComStart(sadr: nat, sdatNum: nat, rdatNum: nat, sbuf: array?<Byte>, rbuf: array?<Byte>)
      modifies this
      ensures this.sadr == sadr && this.sdatNum == sdatNum && this.rdatNum == rdatNum
      ensures this.sbuf == sbuf && this.spos == 0 && this.rbuf == rbuf && this.rpos == 0
      ensures unchanged(`target) && unchanged(`enabled) && unchanged(`commands)
    {
      this.sadr, this.sdatNum, this.rdatNum := sadr, sdatNum, rdatNum;
      this.sbuf, this.spos, this.rbuf, this.rpos := sbuf, 0, rbuf, 0;
    }

    /** How far the transfer is: k reads have been made. */
    ghost predicate Progress(job: Job, state: Status, k: nat, err: int)
      reads this, sbuf, rbuf
    {
      var (data, m) := (job.data, job.m);
      && job.Valid()
      && sdatNum <= |data| && k + rdatNum == m
      && commands == job.before + Commands(data, m)[..|data| - sdatNum + k]
      && (m > 0 ==> rbuf != null && rpos == job.pos + k && rbuf[..] == Received(job.was, job.pos, job.answers[..k]))
      && (state == Send ==>
            && sdatNum > 0 && k == 0
            && sbuf != null && sbuf[..] == job.source && spos == job.start + |data| - sdatNum)
      && (state == Recv ==> sdatNum == 0 && rdatNum > 0 && k <= FirstAbort(job.answers, m))
      && (state == Stop ==> sdatNum == 0 && k == ReadsMade(job.answers, m))
      && err == job.Result(state)
    }

    /** The send case of the loop. */
    method SendByte(ghost job: Job, ghost err: int) returns (state: Status)
      requires Progress(job, Send, 0, err)
      modifies this`spos, this`sdatNum, this`commands
      ensures Progress(job, state, 0, err)
      ensures sdatNum == old(sdatNum) - 1
    {
      hide Commands, Received;
      CommandAt(job.data, job.m, |job.data| - sdatNum);
      assert job.source[spos] == job.data[|job.data| - sdatNum];
      var cmd := sbuf[spos] as int;
      spos, sdatNum, state := spos + 1, sdatNum - 1, Send;
      if sdatNum > 0 {
        cmd := cmd + WRITE;
      } else if rdatNum > 0 {
        cmd := cmd + WRITE + RESTART;
        state := Recv;
      } else {
        cmd := cmd + WRITE + STOP;
        state := Stop;
      }
      commands := commands + [cmd];
    }

    /** The receive case: the byte is stored even when the read was aborted. */
    method ReceiveByte(ghost job: Job, ghost k: nat, answer: Answer, soFar: int)
      returns (err: int, state: Status)
      requires Progress(job, Recv, k, soFar) && answer == job.answers[k]
      modifies this`rpos, this`rdatNum, this`commands, rbuf
      ensures Progress(job, state, k + 1, err)
      ensures rdatNum == old(rdatNum) - 1
    {
      hide Commands, Received;
      CommandAt(job.data, job.m, |job.data| + k);
      OneMoreReceived(job.was, job.pos, job.answers, k);
      rdatNum, err, state := rdatNum - 1, soFar, Recv;
      var cmd := READ;
      if rdatNum == 0 {
        cmd := cmd + STOP;
        state := Stop;
      }
      commands := commands + [cmd];
      if answer.aborted {
        err, state := E_IO, Stop;
      }
      rbuf[rpos] := answer.byte;
      rpos := rpos + 1;
    }

    /** The transfer that the control block describes. */
    ghost function NewJob(answers: seq<Answer>): (job: Job)
      requires Ready() && rdatNum <= |answers|
      reads this, sbuf, rbuf
      ensures job.Valid()
    {
      Job(ToSend(), rdatNum, answers,
          if sdatNum > 0 then sbuf[..] else [], spos, if rdatNum > 0 then rbuf[..] else [], rpos, commands)
    }

    /** What comes before the loop. */
    method Begin(ghost answers: seq<Answer>) returns (err: int, state: Status)
      requires Ready() && rdatNum <= |answers|
      modifies this`target, this`enabled
      ensures target == sadr % 0x80
      ensures Progress(old(NewJob(answers)), state, 0, err)
    {
      hide Commands, Received, FirstAbort;
      ghost var job := NewJob(answers);
      assert Commands(job.data, job.m)[..0] == [];
      assert answers[..0] == [];
      if rdatNum > 0 {
        NothingReceived(rbuf[..], rpos);
      }
      target, enabled, err, state := sadr % 0x80, true, E_OK, Stop;
      if sdatNum > 0 {
        state := Send;
      } else if rdatNum > 0 {
        state := Recv;
      } else {
        err := E_PAR;
      }
    }

    /** The loop. */
    method Run(ghost job: Job, answers: seq<Answer>, first: Status, soFar: int) returns (err: int)
      requires Progress(job, first, 0, soFar) && job.answers == answers
      modifies this`spos, this`sdatNum, this`rpos, this`rdatNum, this`commands, rbuf
      ensures var made := ReadsMade(answers, job.m);
              && commands == job.before + Commands(job.data, job.m)[..|job.data| + made]
              && (job.m > 0 ==> rbuf != null && rbuf[..] == Received(job.was, job.pos, answers[..made]))
              && err == job.Result(Stop)
      ensures old(rdatNum) == 0 && rbuf != null ==> rbuf[..] == old(rbuf[..])
    {
      hide Commands, Command, Received, FirstAbort, ReadsMade;
      var state, k := first, 0;
      err := soFar;
      while state != Stop
        invariant Progress(job, state, k, err)
        invariant old(rdatNum) == 0 ==> rdatNum == 0 && (rbuf != null ==> rbuf[..] == old(rbuf[..]))
        decreases sdatNum + rdatNum
      {
        if state == Send {
          state := SendByte(job, err);
        } else {
          err, state := ReceiveByte(job, k, answers[k], err);
          k := k + 1;
        }
      }
    }

    /** i2c_trans: answers[k] is what the hardware does at read k. */
    method Trans(answers: seq<Answer>) returns (err: int)
      requires Ready() && rdatNum <= |answers|
      modifies this, rbuf
      ensures sbuf == old(sbuf) && rbuf == old(rbuf) && target == old(sadr) % 0x80 && !enabled
      ensures var made := ReadsMade(answers, old(rdatNum));
              && commands == old(commands) + Commands(old(ToSend()), old(rdatNum))[..old(sdatNum) + made]
              && (old(rdatNum) > 0 ==> rbuf[..] == Received(old(rbuf[..]), old(rpos), answers[..made]))
      ensures old(rdatNum) == 0 && rbuf != null ==> rbuf[..] == old(rbuf[..])
      ensures err == if old(sdatNum) + old(rdatNum) == 0 then -17
                     else if FirstAbort(answers, old(rdatNum)) < old(rdatNum) then -57 else 0
    {
      hide Commands, Received, FirstAbort, ReadsMade, ToSend, Ready, Progress;
      ghost var job := NewJob(answers);
      var state;
      err, state := Begin(answers);
      assert |job.data| == old(sdatNum) && job.m == old(rdatNum);
      err := Run(job, answers, state, err);
      enabled := false;
    }
  }
}
