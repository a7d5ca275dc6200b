/**
 * The register protocol of the Garmin LIDAR-Lite v3HP driver: presets, reset,
 * distance acquisition, the busy-monitored register read and the correlation
 * record dump. Every operation works on an I2C.Bus and is specified by the
 * trace it emits, what it consumes of the peripheral's script and what it
 * leaves in the caller's buffer.
 */
module LIDARLite {
  import opened Wrappers
  import opened I2C

  const REGISTER_ACQ_COMMAND: Byte := 0x00
  const REGISTER_DISTANCE_MSB: Byte := 0x8f
  /** read gives up once busyCounter exceeds 9999, that is on the 10000th poll. */
  const MAX_POLLS: nat := 10000

  /** What Wire.read() returns right after requesting the status byte: the
      first byte received, or -1 when nothing is available. */
  function StatusByte(replies: seq<seq<Byte>>, i: nat): (s: int)
    ensures -1 <= s < 0x100
    ensures s == -1 <==> ReplyAt(replies, i) == []
    ensures s != -1 ==> s == ReplyAt(replies, i)[0]
  {
    var reply := ReplyAt(replies, i);
    if reply == [] then -1 else reply[0]
  }

  /** bitRead(x, 0): bit 0 of x in two's complement, so -1 reads as busy. */
  function BitRead0(x: int): (bit: int)
    ensures bit == 0 || bit == 1
    ensures (x - bit) % 2 == 0
  {
    x % 2
  }

  /** The status byte answered to the i-th request of the run has its busy bit set. */
  predicate Busy(replies: seq<seq<Byte>>, i: nat)
  {
    BitRead0(StatusByte(replies, i)) != 0
  }

  /**
   * How many status polls a busy-monitored read performs when its first poll
   * is answered by reply `start` and `done` polls have been made: it stops at
   * the first poll that reports ready, and in any case at the MAX_POLLS-th.
   */
  function PollCount(replies: seq<seq<Byte>>, start: nat, done: nat): (n: nat)
    requires done < MAX_POLLS
    ensures done < n <= MAX_POLLS
    ensures forall j :: start + done <= j < start + n - 1 ==> Busy(replies, j)
    ensures n < MAX_POLLS ==> !Busy(replies, start + n - 1)
    decreases MAX_POLLS - done
  {
    if !Busy(replies, start + done) || done + 1 == MAX_POLLS then done + 1
    else PollCount(replies, start, done + 1)
  }

  /** What one call of read does, as far as the device decides it: the polls it
      makes, whether it bails out, and the bytes it copies into the caller's buffer. */
  datatype ReadResult = ReadResult(polls: nat, timedOut: bool, data: Option<seq<Byte>>)

  /** Acknowledgements and replies one read consumes: one per poll, plus one
      for the data request unless it bailed out. */
  function Used(r: ReadResult): nat
  {
    r.polls + (if r.timedOut then 0 else 1)
  }

  /** The bytes read copies out of a reply of the device: all `count` of them
      when Wire.available() reports that many after requestFrom(count), none
      otherwise. */
  function Copied(reply: seq<Byte>, count: nat): (data: Option<seq<Byte>>)
    ensures data.Some? <==> count <= |Received(reply, count)|
    ensures data.Some? ==> data.value == Received(reply, count)
  {
    if count <= |reply| then Some(reply[..count]) else None
  }

  /** A caller's buffer once read has copied `data`, if any, over its front:
      the copied bytes first, the rest as it was. */
  function Fill(buffer: seq<Byte>, data: Option<seq<Byte>>): seq<Byte>
    requires data.Some? ==> |data.value| <= |buffer|
  {
    if data.Some? then data.value + buffer[|data.value|..] else buffer
  }

  /**
   * How many status polls read makes when its first poll is answered by reply
   * r0 of the script: none without monitoring; otherwise up to and including
   * the first that reports ready, and never more than MAX_POLLS.
   */
  function BusyPolls(replies: seq<seq<Byte>>, r0: nat, monitor: bool): nat
  {
    if monitor then PollCount(replies, r0, 0) else 0
  }

  /**
   * read(reg, count, buffer, monitor) when its first requestFrom is answered by
   * reply r0 of the script: it bails out exactly when the polls run out, and
   * otherwise copies the bytes of the reply that follows the polls.
   * Acknowledgements play no part: a nack is only logged.
   */
  function ReadSpec(replies: seq<seq<Byte>>, r0: nat, count: nat, monitor: bool): ReadResult
  {
    var polls := BusyPolls(replies, r0, monitor);
    if polls == MAX_POLLS then ReadResult(polls, true, None)
    else ReadResult(polls, false, Copied(ReplyAt(replies, r0 + polls), count))
  }

  /**
   * What ReadSpec promises about read: no polls without monitoring; with it,
   * every poll but the last reported busy, and the last reported ready unless
   * the MAX_POLLS-th was reached, which is exactly when read bails out with
   * nothing copied; otherwise it copies from the reply after the polls.
   */
  lemma ReadSpecMeaning(replies: seq<seq<Byte>>, r0: nat, count: nat, monitor: bool)
    ensures var r := ReadSpec(replies, r0, count, monitor);
      && r.polls <= MAX_POLLS
      && (!monitor ==> r.polls == 0 && !r.timedOut)
      && (monitor ==> 0 < r.polls && forall j :: r0 <= j < r0 + r.polls - 1 ==> Busy(replies, j))
      && (monitor && !r.timedOut ==> !Busy(replies, r0 + r.polls - 1))
      && (r.timedOut <==> r.polls == MAX_POLLS)
      && (r.timedOut ==> r.data == None)
      && (!r.timedOut ==> r.data == Copied(ReplyAt(replies, r0 + r.polls), count))
  {
  }

  /** The events of n status polls whose endTransmission calls start at the a0-th. */
  function PollTrace(acks: seq<bool>, a0: nat, n: nat): seq<Event>
  {
    if n == 0 then [] else PollTrace(acks, a0, n - 1) + Step(StatusPoll, AckAt(acks, a0 + n - 1))
  }

  /** The events of a read with outcome r whose endTransmission calls start at the a0-th. */
  function ReadTrace(acks: seq<bool>, a0: nat, reg: Byte, count: nat, r: ReadResult): seq<Event>
  {
    if r.timedOut then PollTrace(acks, a0, r.polls) + [Log(ReadFailed)]
    else PollTrace(acks, a0, r.polls) + Step(RegisterRead(reg, count), AckAt(acks, a0 + r.polls))
  }

  lemma {:induction false} PollTraceTransactions(acks: seq<bool>, a0: nat, n: nat)
    ensures Transactions(PollTrace(acks, a0, n)) == Repeat(StatusPoll, n)
  {
    if n > 0 {
      var prev, step := PollTrace(acks, a0, n - 1), Step(StatusPoll, AckAt(acks, a0 + n - 1));
      PollTraceTransactions(acks, a0, n - 1);
      StepTransactions(StatusPoll, AckAt(acks, a0 + n - 1));
      TransactionsAppend(prev, step);
      assert PollTrace(acks, a0, n) == prev + step;
      assert Transactions(prev + step) == Repeat(StatusPoll, n - 1) + [StatusPoll];
    }
  }

  lemma {:induction false} PollTraceLogs(acks: seq<bool>, a0: nat, n: nat)
    ensures LogCount(PollTrace(acks, a0, n), Nack) == Failures(acks, a0, n)
    ensures LogCount(PollTrace(acks, a0, n), ReadFailed) == 0
  {
    if n > 0 {
      var prev, step := PollTrace(acks, a0, n - 1), Step(StatusPoll, AckAt(acks, a0 + n - 1));
      PollTraceLogs(acks, a0, n - 1);
      StepLogs(StatusPoll, AckAt(acks, a0 + n - 1));
      FailuresSnoc(acks, a0, n - 1);
      LogCountAppend(prev, step, Nack);
      LogCountAppend(prev, step, ReadFailed);
    }
  }

  /** On the bus, a read is its status polls followed by the data request
      unless it bailed out. */
  lemma ReadTransactions(acks: seq<bool>, a0: nat, reg: Byte, count: nat, r: ReadResult)
    ensures Transactions(ReadTrace(acks, a0, reg, count, r))
            == Repeat(StatusPoll, r.polls) + (if r.timedOut then [] else [RegisterRead(reg, count)])
  {
    var polls := PollTrace(acks, a0, r.polls);
    PollTraceTransactions(acks, a0, r.polls);
    if r.timedOut {
      TransactionsAppend(polls, [Log(ReadFailed)]);
      assert Transactions([Log(ReadFailed)]) == [] + Transactions([]);
      assert Transactions(polls + [Log(ReadFailed)]) == Repeat(StatusPoll, r.polls) + [];
    } else {
      var step := Step(RegisterRead(reg, count), AckAt(acks, a0 + r.polls));
      StepTransactions(RegisterRead(reg, count), AckAt(acks, a0 + r.polls));
      TransactionsAppend(polls, step);
      assert Transactions(polls + step) == Repeat(StatusPoll, r.polls) + [RegisterRead(reg, count)];
    }
  }

  /** On the console, a read prints one "> nack" per unacknowledged transaction
      and exactly one "> read failed" when, and only when, it bailed out. */
  lemma ReadLogs(acks: seq<bool>, a0: nat, reg: Byte, count: nat, r: ReadResult)
    ensures LogCount(ReadTrace(acks, a0, reg, count, r), ReadFailed) == (if r.timedOut then 1 else 0)
    ensures LogCount(ReadTrace(acks, a0, reg, count, r), Nack) == Failures(acks, a0, Used(r))
  {
    var polls := PollTrace(acks, a0, r.polls);
    PollTraceLogs(acks, a0, r.polls);
    if r.timedOut {
      var failed := [Log(ReadFailed)];
      assert failed[1..] == [];
      LogCountAppend(polls, failed, Nack);
      LogCountAppend(polls, failed, ReadFailed);
    } else {
      var step := Step(RegisterRead(reg, count), AckAt(acks, a0 + r.polls));
      StepLogs(RegisterRead(reg, count), AckAt(acks, a0 + r.polls));
      FailuresSnoc(acks, a0, r.polls);
      LogCountAppend(polls, step, Nack);
      LogCountAppend(polls, step, ReadFailed);
    }
  }

  /** The stopping rule of read's busy-flag loop singles out one number of
      polls: any count that stops at the first ready poll, or at the
      MAX_POLLS-th, is BusyPolls. */
  lemma BusyPollsUnique(replies: seq<seq<Byte>>, r0: nat, monitor: bool, polls: nat)
    requires polls <= MAX_POLLS
    requires !monitor <==> polls == 0
    requires monitor ==> forall j :: r0 <= j < r0 + polls - 1 ==> Busy(replies, j)
    requires monitor && polls < MAX_POLLS ==> !Busy(replies, r0 + polls - 1)
    ensures polls == BusyPolls(replies, r0, monitor)
  {
    if monitor {
      if PollCount(replies, r0, 0) != polls {
        assert false;
      }
    }
  }

  /** The events of read, once its busy-flag loop has logged its polls and it
      then either transferred or bailed out as the outcome r says. */
  lemma ReadTraceOf(acks: seq<bool>, a0: nat, reg: Byte, count: nat, r: ReadResult, t0: seq<Event>, trace: seq<Event>)
    requires r.timedOut ==> trace == t0 + PollTrace(acks, a0, r.polls) + [Log(ReadFailed)]
    requires !r.timedOut ==> trace == t0 + PollTrace(acks, a0, r.polls) + Step(RegisterRead(reg, count), AckAt(acks, a0 + r.polls))
    ensures trace == t0 + ReadTrace(acks, a0, reg, count, r)
  {
    var tail := if r.timedOut then [Log(ReadFailed)] else Step(RegisterRead(reg, count), AckAt(acks, a0 + r.polls));
    assert t0 + PollTrace(acks, a0, r.polls) + tail == t0 + (PollTrace(acks, a0, r.polls) + tail);
  }

  /** write(reg, value): one register write; a missing acknowledgement is only logged. */
  method Write(bus: Bus, myAddress: Byte, myValue: Byte)
    modifies bus
    ensures bus.trace == old(bus.trace) + Step(RegisterWrite(myAddress, myValue), AckAt(bus.acks, old(bus.ackPos)))
    ensures bus.ackPos == old(bus.ackPos) + 1 && bus.replyPos == old(bus.replyPos)
  {
    var nackCatcher := bus.Transmit(RegisterWrite(myAddress, myValue));
    if nackCatcher != 0 {
      bus.Println(Nack);
    }
  }

  /** One status poll of read's busy-flag loop: select the status register,
      request one byte and return bit 0 of what Wire.read() gives. */
  method PollStatus(bus: Bus) returns (busyFlag: int)
    modifies bus
    ensures bus.trace == old(bus.trace) + Step(StatusPoll, AckAt(bus.acks, old(bus.ackPos)))
    ensures bus.ackPos == old(bus.ackPos) + 1 && bus.replyPos == old(bus.replyPos) + 1
    ensures busyFlag != 0 <==> Busy(bus.replies, old(bus.replyPos))
  {
    var nackCatcher := bus.Transmit(StatusPoll);
    if nackCatcher != 0 {
      bus.Println(Nack);
    }
    var status := bus.RequestFrom(1);
    busyFlag := BitRead0(if status == [] then -1 else status[0]);
  }

  /**
   * The busy-flag loop of read: with monitorBusyFlag, poll the status register
   * until bit 0 reads 0, giving up on the 10000th poll whatever it reads
   * (`bailout` stands for the jump to the driver's bailout label).
   */
  method PollBusyFlag(bus: Bus, monitorBusyFlag: bool) returns (busyFlag: int, busyCounter: nat, bailout: bool)
    modifies bus
    ensures busyCounter == BusyPolls(bus.replies, old(bus.replyPos), monitorBusyFlag)
    ensures bailout <==> busyCounter == MAX_POLLS
    ensures !bailout ==> busyFlag == 0
    ensures bus.trace == old(bus.trace) + PollTrace(bus.acks, old(bus.ackPos), busyCounter)
    ensures bus.ackPos == old(bus.ackPos) + busyCounter && bus.replyPos == old(bus.replyPos) + busyCounter
  {
    ghost var t0, a0, r0 := bus.trace, bus.ackPos, bus.replyPos;
    busyFlag := 0;
    if monitorBusyFlag {
      busyFlag := 1;
    }
    busyCounter := 0;
    bailout := false;
    while busyFlag != 0
      invariant 0 <= busyCounter < MAX_POLLS
      decreases MAX_POLLS - busyCounter
      invariant !monitorBusyFlag ==> busyCounter == 0 && busyFlag == 0
      invariant monitorBusyFlag && busyCounter == 0 ==> busyFlag == 1
      invariant bus.trace == t0 + PollTrace(bus.acks, a0, busyCounter)
      invariant bus.ackPos == a0 + busyCounter && bus.replyPos == r0 + busyCounter
      invariant forall j :: r0 <= j < r0 + busyCounter - 1 ==> Busy(bus.replies, j)
      invariant busyCounter > 0 ==> (busyFlag != 0 <==> Busy(bus.replies, r0 + busyCounter - 1))
    {
      busyFlag := PollStatus(bus);
      assert PollTrace(bus.acks, a0, busyCounter + 1)
             == PollTrace(bus.acks, a0, busyCounter) + Step(StatusPoll, AckAt(bus.acks, a0 + busyCounter));
      busyCounter := busyCounter + 1;
      if busyCounter > 9999 {
        bailout := true;
        break;
      }
    }
    BusyPollsUnique(bus.replies, r0, monitorBusyFlag, busyCounter);
  }

  /** The copy loop of read: the first numOfBytes bytes received, in order,
      over the front of arrayToSave; the rest of it untouched. */
  method CopyReceived(received: seq<Byte>, numOfBytes: nat, arrayToSave: array<Byte>)
    requires numOfBytes <= |received| && numOfBytes <= arrayToSave.Length
    modifies arrayToSave
    ensures arrayToSave[..] == received[..numOfBytes] + old(arrayToSave[..])[numOfBytes..]
  {
    var i := 0;
    while i < numOfBytes
      invariant 0 <= i <= numOfBytes
      invariant forall k :: 0 <= k < i ==> arrayToSave[k] == received[k]
      invariant forall k :: i <= k < arrayToSave.Length ==> arrayToSave[k] == old(arrayToSave[k])
    {
      arrayToSave[i] := received[i];
      i := i + 1;
    }
  }

  /**
   * The tail of read, after its busy-flag loop: unless it bailed out, select
   * `myAddress`, request numOfBytes bytes and copy them into arrayToSave only
   * when that many arrived; after a bailout, only print "> read failed".
   */
  method Finish(bus: Bus, myAddress: Byte, numOfBytes: nat, arrayToSave: array<Byte>, busyFlag: int, bailout: bool)
    requires numOfBytes <= arrayToSave.Length
    requires !bailout ==> busyFlag == 0
    modifies bus, arrayToSave
    ensures bailout ==> bus.trace == old(bus.trace) + [Log(ReadFailed)]
    ensures !bailout ==> bus.trace == old(bus.trace) + Step(RegisterRead(myAddress, numOfBytes), AckAt(bus.acks, old(bus.ackPos)))
    ensures var used := if bailout then 0 else 1;
      bus.ackPos == old(bus.ackPos) + used && bus.replyPos == old(bus.replyPos) + used
    ensures var data := if bailout then None else Copied(ReplyAt(bus.replies, old(bus.replyPos)), numOfBytes);
      arrayToSave[..] == Fill(old(arrayToSave[..]), data)
  {
    if !bailout && busyFlag == 0 {
      var nackCatcher := bus.Transmit(RegisterRead(myAddress, numOfBytes));
      if nackCatcher != 0 {
        bus.Println(Nack);
      }
      var received := bus.RequestFrom(numOfBytes);
      if numOfBytes <= |received| {
        CopyReceived(received, numOfBytes, arrayToSave);
      }
    }
    if bailout {
      bus.Println(ReadFailed);
    }
  }

  /**
   * read: wait for the device (when monitoring), then, unless that timed out,
   * transfer numOfBytes bytes of `myAddress` into arrayToSave; a timeout only
   * prints "> read failed".
   */
  method Read(bus: Bus, myAddress: Byte, numOfBytes: nat, arrayToSave: array<Byte>, monitorBusyFlag: bool)
    requires numOfBytes <= arrayToSave.Length
    modifies bus, arrayToSave
    ensures var r := ReadSpec(bus.replies, old(bus.replyPos), numOfBytes, monitorBusyFlag);
      && bus.trace == old(bus.trace) + ReadTrace(bus.acks, old(bus.ackPos), myAddress, numOfBytes, r)
      && bus.ackPos == old(bus.ackPos) + Used(r)
      && bus.replyPos == old(bus.replyPos) + Used(r)
      && arrayToSave[..] == Fill(old(arrayToSave[..]), r.data)
  {
    ghost var t0, a0, r0 := bus.trace, bus.ackPos, bus.replyPos;
    var busyFlag, busyCounter, bailout := PollBusyFlag(bus, monitorBusyFlag);
    Finish(bus, myAddress, numOfBytes, arrayToSave, busyFlag, bailout);
    ghost var r := ReadSpec(bus.replies, r0, numOfBytes, monitorBusyFlag);
    ReadTraceOf(bus.acks, a0, myAddress, numOfBytes, r, t0, bus.trace);
  }

  /**
   * The register writes of configure(configuration), in order: presets 0 to 5
   * set the maximum acquisition count (0x02), the acquisition mode (0x04) and
   * the detection threshold (0x1c); any other number writes nothing.
   */
  function PresetWrites(configuration: int): (writes: seq<Event>)
    ensures 0 <= configuration <= 5 ==>
              && |writes| == 3
              && writes[0].RegisterWrite? && writes[0].reg == 0x02
              && writes[1].RegisterWrite? && writes[1].reg == 0x04
              && writes[2].RegisterWrite? && writes[2].reg == 0x1c
    ensures !(0 <= configuration <= 5) ==> writes == []
  {
    match configuration
    case 0 => [RegisterWrite(0x02, 0x80), RegisterWrite(0x04, 0x08), RegisterWrite(0x1c, 0x00)]
    case 1 => [RegisterWrite(0x02, 0x1d), RegisterWrite(0x04, 0x08), RegisterWrite(0x1c, 0x00)]
    case 2 => [RegisterWrite(0x02, 0x80), RegisterWrite(0x04, 0x00), RegisterWrite(0x1c, 0x00)]
    case 3 => [RegisterWrite(0x02, 0xff), RegisterWrite(0x04, 0x08), RegisterWrite(0x1c, 0x00)]
    case 4 => [RegisterWrite(0x02, 0x80), RegisterWrite(0x04, 0x08), RegisterWrite(0x1c, 0x80)]
    case 5 => [RegisterWrite(0x02, 0x80), RegisterWrite(0x04, 0x08), RegisterWrite(0x1c, 0xb0)]
    case _ => []
  }

  /** Each of presets 1 to 5 departs from the default preset 0 in exactly one
      of the three registers. */
  lemma PresetsChangeOneRegister(configuration: int)
    requires 1 <= configuration <= 5
    ensures var p, d := PresetWrites(configuration), PresetWrites(0);
      exists k :: 0 <= k < 3 && p[k] != d[k] && forall m :: 0 <= m < 3 && m != k ==> p[m] == d[m]
  {
    var p, d := PresetWrites(configuration), PresetWrites(0);
    var k := if configuration == 1 || configuration == 3 then 0 else if configuration == 2 then 1 else 2;
    assert p[k] != d[k] && forall m :: 0 <= m < 3 && m != k ==> p[m] == d[m];
  }

  /** Three calls of write in a row emit the three steps Emit lists. */
  lemma EmitThree(t: seq<Event>, ops: seq<Event>, acks: seq<bool>, a: nat)
    requires |ops| == 3
    ensures t + Emit(ops, acks, a)
            == t + Step(ops[0], AckAt(acks, a)) + Step(ops[1], AckAt(acks, a + 1)) + Step(ops[2], AckAt(acks, a + 2))
  {
    var s0, s1, s2 := Step(ops[0], AckAt(acks, a)), Step(ops[1], AckAt(acks, a + 1)), Step(ops[2], AckAt(acks, a + 2));
    var rest1, rest2 := ops[1..], ops[1..][1..];
    assert rest2[1..] == [];
    assert Emit(rest2, acks, a + 2) == s2 + Emit(rest2[1..], acks, a + 3) == s2;
    assert Emit(rest1, acks, a + 1) == s1 + Emit(rest2, acks, a + 2) == s1 + s2;
    assert Emit(ops, acks, a) == s0 + (s1 + s2);
  }

  /** configure(configuration): the preset's register writes, one write call each. */
  method Configure(bus: Bus, configuration: int)
    modifies bus
    ensures bus.trace == old(bus.trace) + Emit(PresetWrites(configuration), bus.acks, old(bus.ackPos))
    ensures bus.ackPos == old(bus.ackPos) + |PresetWrites(configuration)| && bus.replyPos == old(bus.replyPos)
  {
    match configuration {
      case 0 =>
        Write(bus, 0x02, 0x80);
        Write(bus, 0x04, 0x08);
        Write(bus, 0x1c, 0x00);
      case 1 =>
        Write(bus, 0x02, 0x1d);
        Write(bus, 0x04, 0x08);
        Write(bus, 0x1c, 0x00);
      case 2 =>
        Write(bus, 0x02, 0x80);
        Write(bus, 0x04, 0x00);
        Write(bus, 0x1c, 0x00);
      case 3 =>
        Write(bus, 0x02, 0xff);
        Write(bus, 0x04, 0x08);
        Write(bus, 0x1c, 0x00);
      case 4 =>
        Write(bus, 0x02, 0x80);
        Write(bus, 0x04, 0x08);
        Write(bus, 0x1c, 0x80);
      case 5 =>
        Write(bus, 0x02, 0x80);
        Write(bus, 0x04, 0x08);
        Write(bus, 0x1c, 0xb0);
      case _ =>
    }
    if 0 <= configuration <= 5 {
      EmitThree(old(bus.trace), PresetWrites(configuration), bus.acks, old(bus.ackPos));
    }
  }

  /** begin(configuration, fasti2c): bring up the bus, then configure; fasti2c
      plays no part. */
  method Begin(bus: Bus, configuration: int, fasti2c: bool)
    modifies bus
    ensures bus.trace == old(bus.trace) + Emit(PresetWrites(configuration), bus.acks, old(bus.ackPos))
    ensures bus.ackPos == old(bus.ackPos) + |PresetWrites(configuration)| && bus.replyPos == old(bus.replyPos)
  {
    Configure(bus, configuration);
  }

  /** reset: write 0x00 to the acquisition command register, which reloads the
      device's default register values. */
  method Reset(bus: Bus)
    modifies bus
    ensures bus.trace == old(bus.trace) + Step(RegisterWrite(REGISTER_ACQ_COMMAND, 0x00), AckAt(bus.acks, old(bus.ackPos)))
    ensures bus.ackPos == old(bus.ackPos) + 1 && bus.replyPos == old(bus.replyPos)
  {
    Write(bus, 0x00, 0x00);
  }

  /** (hi << 8) + lo for two bytes: the 16-bit big-endian value they form. */
  function Compose(hi: Byte, lo: Byte): (d: int)
    ensures 0 <= d < 0x10000
    ensures d / 0x100 == hi && d % 0x100 == lo
  {
    hi * 0x100 + lo
  }

  /** Compose loses nothing: every 16-bit value is the composition of its two bytes. */
  lemma ComposeSplit(d: int)
    requires 0 <= d < 0x10000
    ensures Compose(d / 0x100, d % 0x100) == d
  {
  }

  /** The acquisition command distance writes: 0x04 with receiver bias
      correction, 0x03 without. */
  function AcquireCommand(biasCorrection: bool): Byte
  {
    if biasCorrection then 0x04 else 0x03
  }

  /**
   * distance(biasCorrection): start an acquisition, read the two distance
   * bytes of register 0x8f with busy monitoring and compose them.  Only when
   * the read delivered both bytes is the result determined; otherwise it is
   * whatever the uninitialised local buffer held.
   */
  method Distance(bus: Bus, biasCorrection: bool) returns (distance: int)
    modifies bus
    ensures var r := ReadSpec(bus.replies, old(bus.replyPos), 2, true);
      && bus.trace == old(bus.trace) + Step(RegisterWrite(REGISTER_ACQ_COMMAND, AcquireCommand(biasCorrection)), AckAt(bus.acks, old(bus.ackPos)))
                      + ReadTrace(bus.acks, old(bus.ackPos) + 1, REGISTER_DISTANCE_MSB, 2, r)
      && bus.ackPos == old(bus.ackPos) + 1 + Used(r)
      && bus.replyPos == old(bus.replyPos) + Used(r)
      && (r.data.Some? ==> distance == Compose(r.data.value[0], r.data.value[1]))
  {
    if biasCorrection {
      Write(bus, 0x00, 0x04);
    } else {
      Write(bus, 0x00, 0x03);
    }
    var distanceArray := new Byte[2];
    Read(bus, 0x8f, 2, distanceArray, true);
    distance := Compose(distanceArray[0], distanceArray[1]);
  }

  /**
   * The value correlationRecordToSerial prints for one reading: the low byte,
   * with 0xff00 or-ed in when the high byte, the sign, is exactly 1.  The
   * variable is a 32-bit int, so a negative sample prints as 0xff00 + lo.
   */
  function CorrelationValue(lo: Byte, hi: Byte): (v: int)
    ensures 0 <= v < 0x10000 && v % 0x100 == lo
    ensures v / 0x100 == (if hi == 1 then 0xff else 0)
  {
    if hi == 1 then OrHighByte(lo); ((lo as bv16) | 0xff00) as int else lo
  }

  /** Or-ing 0xff00 into a byte fills the high byte and keeps the low one. */
  lemma OrHighByte(lo: Byte)
    ensures ((lo as bv16) | 0xff00) as int == 0xff00 + lo
  {
  }

  /** A 16-bit pattern read as two's complement. */
  function Int16(v: int): int
    requires 0 <= v < 0x10000
  {
    if v < 0x8000 then v else v - 0x10000
  }

  /** Read as a 16-bit two's complement number, the printed value is the signed
      sample: lo - 256 when the sign byte is 1, lo otherwise. */
  lemma CorrelationSigned(lo: Byte, hi: Byte)
    ensures Int16(CorrelationValue(lo, hi)) == (if hi == 1 then lo - 0x100 else lo)
  {
  }

  /** read in correlationRecordToSerial does not monitor the busy flag: no polls,
      no bailout, and the data request is answered by the next reply. */
  lemma UnmonitoredRead(replies: seq<seq<Byte>>, r0: nat, acks: seq<bool>, a0: nat, reg: Byte, count: nat)
    ensures ReadSpec(replies, r0, count, false) == ReadResult(0, false, Copied(ReplyAt(replies, r0), count))
    ensures ReadTrace(acks, a0, reg, count, ReadSpec(replies, r0, count, false)) == Step(RegisterRead(reg, count), AckAt(acks, a0))
  {
    assert PollTrace(acks, a0, 0) == [];
  }

  /** The two-byte buffer of correlationRecordToSerial after k readings answered
      by replies r0 .. r0+k-1, starting from `init`. */
  function DumpBuffer(replies: seq<seq<Byte>>, r0: nat, init: seq<Byte>, k: nat): (b: seq<Byte>)
    requires |init| == 2
    ensures |b| == 2
  {
    if k == 0 then init else Fill(DumpBuffer(replies, r0, init, k - 1), Copied(ReplyAt(replies, r0 + k - 1), 2))
  }

  /** The values printed by the first k readings. */
  function DumpValues(replies: seq<seq<Byte>>, r0: nat, init: seq<Byte>, k: nat): (vs: seq<int>)
    requires |init| == 2
    ensures |vs| == k
  {
    if k == 0 then []
    else
      var b := DumpBuffer(replies, r0, init, k);
      DumpValues(replies, r0, init, k - 1) + [CorrelationValue(b[0], b[1])]
  }

  /** The events of one reading: the data request of register 0xd2, then the
      printed value with its separator. */
  function ReadingEvents(acks: seq<bool>, a: nat, value: int, separator: char): seq<Event>
  {
    Step(RegisterRead(0xd2, 2), AckAt(acks, a)) + [Sample(value, separator)]
  }

  /** The events of the first k readings. */
  function DumpTrace(acks: seq<bool>, a0: nat, replies: seq<seq<Byte>>, r0: nat, init: seq<Byte>, separator: char, k: nat): seq<Event>
    requires |init| == 2
  {
    if k == 0 then []
    else
      var b := DumpBuffer(replies, r0, init, k);
      DumpTrace(acks, a0, replies, r0, init, separator, k - 1)
      + ReadingEvents(acks, a0 + k - 1, CorrelationValue(b[0], b[1]), separator)
  }

  /** One more reading: the buffer takes in the next reply and the trace grows
      by that reading's events. */
  lemma DumpNext(acks: seq<bool>, a0: nat, replies: seq<seq<Byte>>, r0: nat, init: seq<Byte>, separator: char, k: nat,
                 buffer: seq<Byte>, value: int)
    requires |init| == 2
    requires buffer == Fill(DumpBuffer(replies, r0, init, k), Copied(ReplyAt(replies, r0 + k), 2))
    requires value == CorrelationValue(buffer[0], buffer[1])
    ensures buffer == DumpBuffer(replies, r0, init, k + 1)
    ensures DumpTrace(acks, a0, replies, r0, init, separator, k + 1)
            == DumpTrace(acks, a0, replies, r0, init, separator, k) + ReadingEvents(acks, a0 + k, value, separator)
  {
  }

  /** On the bus the first k readings are k requests of register 0xd2. */
  lemma {:induction false} DumpTransactions(acks: seq<bool>, a0: nat, replies: seq<seq<Byte>>, r0: nat, init: seq<Byte>, separator: char, k: nat)
    requires |init| == 2
    ensures Transactions(DumpTrace(acks, a0, replies, r0, init, separator, k)) == Repeat(RegisterRead(0xd2, 2), k)
  {
    if k > 0 {
      var prev := DumpTrace(acks, a0, replies, r0, init, separator, k - 1);
      var step := Step(RegisterRead(0xd2, 2), AckAt(acks, a0 + k - 1));
      var b := DumpBuffer(replies, r0, init, k);
      var sample := [Sample(CorrelationValue(b[0], b[1]), separator)];
      DumpTransactions(acks, a0, replies, r0, init, separator, k - 1);
      StepTransactions(RegisterRead(0xd2, 2), AckAt(acks, a0 + k - 1));
      TransactionsAppend(step, sample);
      TransactionsAppend(prev, step + sample);
      assert sample[1..] == [];
    }
  }

  /** On the console the first k readings print the k values DumpValues lists. */
  lemma {:induction false} DumpSamples(acks: seq<bool>, a0: nat, replies: seq<seq<Byte>>, r0: nat, init: seq<Byte>, separator: char, k: nat)
    requires |init| == 2
    ensures SamplesOf(DumpTrace(acks, a0, replies, r0, init, separator, k)) == DumpValues(replies, r0, init, k)
  {
    if k > 0 {
      var prev := DumpTrace(acks, a0, replies, r0, init, separator, k - 1);
      var step := Step(RegisterRead(0xd2, 2), AckAt(acks, a0 + k - 1));
      var b := DumpBuffer(replies, r0, init, k);
      var sample := [Sample(CorrelationValue(b[0], b[1]), separator)];
      DumpSamples(acks, a0, replies, r0, init, separator, k - 1);
      StepSamples(RegisterRead(0xd2, 2), AckAt(acks, a0 + k - 1));
      SamplesAppend(step, sample);
      SamplesAppend(prev, step + sample);
      assert sample[1..] == [];
    }
  }

  /** A reading whose reply holds both bytes prints its own correlation value. */
  lemma {:induction false} DumpValueFresh(replies: seq<seq<Byte>>, r0: nat, init: seq<Byte>, k: nat, j: nat)
    requires |init| == 2 && j < k
    requires |ReplyAt(replies, r0 + j)| >= 2
    ensures DumpValues(replies, r0, init, k)[j] == CorrelationValue(ReplyAt(replies, r0 + j)[0], ReplyAt(replies, r0 + j)[1])
    decreases k
  {
    if j < k - 1 {
      DumpValueFresh(replies, r0, init, k - 1, j);
    } else {
      var b := DumpBuffer(replies, r0, init, k);
      assert b == ReplyAt(replies, r0 + j)[..2];
    }
  }

  /** A reading whose reply falls short copies nothing and prints again the
      value before it (or the buffer's initial content, for the first). */
  lemma {:induction false} DumpValueStale(replies: seq<seq<Byte>>, r0: nat, init: seq<Byte>, k: nat, j: nat)
    requires |init| == 2 && 0 < j < k
    requires |ReplyAt(replies, r0 + j)| < 2
    ensures DumpValues(replies, r0, init, k)[j] == DumpValues(replies, r0, init, k)[j - 1]
    decreases k
  {
    if j < k - 1 {
      DumpValueStale(replies, r0, init, k - 1, j);
      DumpPrefix(replies, r0, init, k - 1, j - 1);
      DumpPrefix(replies, r0, init, k - 1, j);
      DumpPrefix(replies, r0, init, k, j - 1);
      DumpPrefix(replies, r0, init, k, j);
    } else {
      assert DumpValues(replies, r0, init, k)[j - 1] == DumpValues(replies, r0, init, k - 1)[j - 1];
    }
  }

  /** Later readings do not change what earlier ones printed. */
  lemma {:induction false} DumpPrefix(replies: seq<seq<Byte>>, r0: nat, init: seq<Byte>, k: nat, j: nat)
    requires |init| == 2 && j < k
    ensures DumpValues(replies, r0, init, k)[j] == DumpValues(replies, r0, init, j + 1)[j]
    decreases k
  {
    if j < k - 1 {
      DumpPrefix(replies, r0, init, k - 1, j);
    }
  }

  /** The events of correlationRecordToSerial: select the memory bank, enable
      test mode, the readings, disable test mode. */
  function CorrelationTrace(acks: seq<bool>, a0: nat, replies: seq<seq<Byte>>, r0: nat, initial: seq<Byte>, separator: char, n: nat): seq<Event>
    requires |initial| == 2
  {
    Step(RegisterWrite(0x5d, 0xc0), AckAt(acks, a0))
    + Step(RegisterWrite(0x40, 0x07), AckAt(acks, a0 + 1))
    + DumpTrace(acks, a0 + 2, replies, r0, initial, separator, n)
    + Step(RegisterWrite(0x40, 0x00), AckAt(acks, a0 + 2 + n))
  }

  /** correlationRecordToSerial as the bus sees it: two configuration writes,
      n requests of register 0xd2, one write restoring normal mode. */
  lemma CorrelationTransactions(acks: seq<bool>, a0: nat, replies: seq<seq<Byte>>, r0: nat, initial: seq<Byte>, separator: char, n: nat)
    requires |initial| == 2
    ensures Transactions(CorrelationTrace(acks, a0, replies, r0, initial, separator, n))
            == [RegisterWrite(0x5d, 0xc0), RegisterWrite(0x40, 0x07)] + Repeat(RegisterRead(0xd2, 2), n) + [RegisterWrite(0x40, 0x00)]
  {
    var s0 := Step(RegisterWrite(0x5d, 0xc0), AckAt(acks, a0));
    var s1 := Step(RegisterWrite(0x40, 0x07), AckAt(acks, a0 + 1));
    var d := DumpTrace(acks, a0 + 2, replies, r0, initial, separator, n);
    var s2 := Step(RegisterWrite(0x40, 0x00), AckAt(acks, a0 + 2 + n));
    StepTransactions(RegisterWrite(0x5d, 0xc0), AckAt(acks, a0));
    StepTransactions(RegisterWrite(0x40, 0x07), AckAt(acks, a0 + 1));
    StepTransactions(RegisterWrite(0x40, 0x00), AckAt(acks, a0 + 2 + n));
    DumpTransactions(acks, a0 + 2, replies, r0, initial, separator, n);
    TransactionsAppend(s0, s1);
    assert Transactions(s0 + s1) == [RegisterWrite(0x5d, 0xc0), RegisterWrite(0x40, 0x07)];
    TransactionsAppend(s0 + s1, d);
    TransactionsAppend(s0 + s1 + d, s2);
  }

  /** correlationRecordToSerial as the console sees it: exactly the values of
      the readings, in order. */
  lemma CorrelationSamples(acks: seq<bool>, a0: nat, replies: seq<seq<Byte>>, r0: nat, initial: seq<Byte>, separator: char, n: nat)
    requires |initial| == 2
    ensures SamplesOf(CorrelationTrace(acks, a0, replies, r0, initial, separator, n)) == DumpValues(replies, r0, initial, n)
  {
    var s0 := Step(RegisterWrite(0x5d, 0xc0), AckAt(acks, a0));
    var s1 := Step(RegisterWrite(0x40, 0x07), AckAt(acks, a0 + 1));
    var d := DumpTrace(acks, a0 + 2, replies, r0, initial, separator, n);
    var s2 := Step(RegisterWrite(0x40, 0x00), AckAt(acks, a0 + 2 + n));
    StepSamples(RegisterWrite(0x5d, 0xc0), AckAt(acks, a0));
    StepSamples(RegisterWrite(0x40, 0x07), AckAt(acks, a0 + 1));
    StepSamples(RegisterWrite(0x40, 0x00), AckAt(acks, a0 + 2 + n));
    DumpSamples(acks, a0 + 2, replies, r0, initial, separator, n);
    SamplesAppend(s0, s1);
    SamplesAppend(s0 + s1, d);
    SamplesAppend(s0 + s1 + d, s2);
  }

  /** One reading of correlationRecordToSerial: read two bytes of 0xd2 without
      busy monitoring, then print their correlation value and the separator. */
  method PrintReading(bus: Bus, separator: char, correlationArray: array<Byte>) returns (correlationValue: int)
    requires correlationArray.Length == 2
    modifies bus, correlationArray
    ensures correlationArray[..] == Fill(old(correlationArray[..]), Copied(ReplyAt(bus.replies, old(bus.replyPos)), 2))
    ensures correlationValue == CorrelationValue(correlationArray[0], correlationArray[1])
    ensures bus.trace == old(bus.trace) + ReadingEvents(bus.acks, old(bus.ackPos), correlationValue, separator)
    ensures bus.ackPos == old(bus.ackPos) + 1 && bus.replyPos == old(bus.replyPos) + 1
  {
    ghost var t0 := bus.trace;
    Read(bus, 0xd2, 2, correlationArray, false);
    UnmonitoredRead(bus.replies, old(bus.replyPos), bus.acks, old(bus.ackPos), 0xd2, 2);
    correlationValue := CorrelationValue(correlationArray[0], correlationArray[1]);
    bus.PrintSample(correlationValue, separator);
    ghost var step := Step(RegisterRead(0xd2, 2), AckAt(bus.acks, old(bus.ackPos)));
    AppendAssoc(t0, step, [Sample(correlationValue, separator)]);
  }

  /**
   * The reading loop of correlationRecordToSerial: numberOfReadings unmonitored
   * two-byte reads of the correlation register, each printing its value and the
   * separator.  The two-byte buffer is reused from reading to reading.
   */
  method PrintReadings(bus: Bus, separator: char, numberOfReadings: int, correlationArray: array<Byte>)
    requires correlationArray.Length == 2
    modifies bus, correlationArray
    ensures var n := if numberOfReadings < 0 then 0 else numberOfReadings;
      && bus.trace == old(bus.trace) + DumpTrace(bus.acks, old(bus.ackPos), bus.replies, old(bus.replyPos), old(correlationArray[..]), separator, n)
      && bus.ackPos == old(bus.ackPos) + n
      && bus.replyPos == old(bus.replyPos) + n
      && correlationArray[..] == DumpBuffer(bus.replies, old(bus.replyPos), old(correlationArray[..]), n)
  {
    ghost var n := if numberOfReadings < 0 then 0 else numberOfReadings;
    ghost var t0, a0, r0 := bus.trace, bus.ackPos, bus.replyPos;
    ghost var acks, replies, initial := bus.acks, bus.replies, correlationArray[..];
    var i := 0;
    while i < numberOfReadings
      invariant 0 <= i <= n
      invariant bus.trace == t0 + DumpTrace(acks, a0, replies, r0, initial, separator, i)
      invariant bus.ackPos == a0 + i && bus.replyPos == r0 + i
      invariant correlationArray[..] == DumpBuffer(replies, r0, initial, i)
    {
      var correlationValue := PrintReading(bus, separator, correlationArray);
      DumpNext(acks, a0, replies, r0, initial, separator, i, correlationArray[..], correlationValue);
      AppendAssoc(t0, DumpTrace(acks, a0, replies, r0, initial, separator, i),
                  ReadingEvents(acks, a0 + i, correlationValue, separator));
      i := i + 1;
    }
    assert i == n;
  }

  /**
   * correlationRecordToSerial: enter the correlation-record test mode, make the
   * readings, then leave test mode.  A negative count makes no readings.  The
   * buffer the readings go through starts uninitialised; its contents are the
   * ghost result initial.
   */
  method CorrelationRecordToSerial(bus: Bus, separator: char, numberOfReadings: int) returns (ghost initial: seq<Byte>)
    modifies bus
    ensures |initial| == 2
    ensures var n := if numberOfReadings < 0 then 0 else numberOfReadings;
      && bus.trace == old(bus.trace) + CorrelationTrace(bus.acks, old(bus.ackPos), bus.replies, old(bus.replyPos), initial, separator, n)
      && bus.ackPos == old(bus.ackPos) + n + 3
      && bus.replyPos == old(bus.replyPos) + n
  {
    ghost var n := if numberOfReadings < 0 then 0 else numberOfReadings;
    ghost var t0, a0, r0 := bus.trace, bus.ackPos, bus.replyPos;
    var correlationArray := new Byte[2];
    initial := correlationArray[..];
    Write(bus, 0x5d, 0xc0);
    Write(bus, 0x40, 0x07);
    PrintReadings(bus, separator, numberOfReadings, correlationArray);
    ghost var dump := DumpTrace(bus.acks, a0 + 2, bus.replies, r0, initial, separator, n);
    Write(bus, 0x40, 0x00);
    ghost var s0 := Step(RegisterWrite(0x5d, 0xc0), AckAt(bus.acks, a0));
    ghost var s1 := Step(RegisterWrite(0x40, 0x07), AckAt(bus.acks, a0 + 1));
    ghost var s2 := Step(RegisterWrite(0x40, 0x00), AckAt(bus.acks, a0 + 2 + n));
    AppendAssoc(t0, s0, s1);
    AppendAssoc(t0, s0 + s1, dump);
    AppendAssoc(t0, s0 + s1 + dump, s2);
  }
}
