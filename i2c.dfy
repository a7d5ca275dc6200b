/**
 * The Arduino Wire (I2C) transport and the serial console, as the LIDAR-Lite
 * driver sees them. Nothing is timed and no byte goes on a wire: every
 * transaction and every console line is appended to an ordered trace, and the
 * peripheral is a script fixed in advance (what it acknowledges, what it sends
 * back to each request).
 */
module I2C {

  type Byte = b: int | 0 <= b < 0x100

  datatype Event =
    | RegisterWrite(reg: Byte, val: Byte)         // start, register address, value, stop
    | StatusPoll                           // select status register 0x01, then request one byte
    | RegisterRead(reg: Byte, count: int)        // select a register, then request `count` bytes
    | Log(line: Line)                      // Serial.println of a diagnostic line
    | Sample(value: int, separator: char)  // Serial.print(value) followed by Serial.print(separator)

  /** The diagnostic lines the driver prints. */
  datatype Line = Nack | ReadFailed

  function Text(line: Line): string
  {
    match line
    case Nack => "> nack"
    case ReadFailed => "> read failed"
  }

  /** Events that put bytes on the bus (as opposed to console output). */
  predicate IsTransaction(e: Event)
  {
    e.RegisterWrite? || e.StatusPoll? || e.RegisterRead?
  }

  /** Whether the i-th endTransmission of the run is acknowledged; a device
      whose script has run out keeps acknowledging. */
  function AckAt(acks: seq<bool>, i: nat): bool
  {
    i >= |acks| || acks[i]
  }

  /** The bytes the device sends back to the i-th requestFrom of the run;
      nothing once its script has run out. */
  function ReplyAt(replies: seq<seq<Byte>>, i: nat): seq<Byte>
  {
    if i < |replies| then replies[i] else []
  }

  /** What Wire.requestFrom(address, n) leaves available: never more than n bytes. */
  function Received(reply: seq<Byte>, n: nat): (r: seq<Byte>)
    ensures |r| <= n && |r| <= |reply| && r == reply[..|r|]
    ensures |r| == n <==> n <= |reply|
  {
    if n <= |reply| then reply[..n] else reply
  }

  /** One transaction as the driver emits it: the transaction, then "> nack"
      when the device did not acknowledge it. */
  function Step(op: Event, acked: bool): seq<Event>
  {
    if acked then [op] else [op, Log(Nack)]
  }

  /**
   * What the driver emits for a run of transactions whose endTransmission calls
   * are the start-th, (start+1)-th, ... of the run.
   */
  function Emit(ops: seq<Event>, acks: seq<bool>, start: nat): seq<Event>
  {
    if ops == [] then [] else Step(ops[0], AckAt(acks, start)) + Emit(ops[1..], acks, start + 1)
  }

  /** Traces grow by appending; regrouping the appends changes nothing. */
  lemma AppendAssoc(a: seq<Event>, b: seq<Event>, c: seq<Event>)
    ensures a + b + c == a + (b + c)
  {
  }

  /** The bus transactions of a trace, in order, without the console output. */
  function Transactions(t: seq<Event>): seq<Event>
  {
    if t == [] then [] else (if IsTransaction(t[0]) then [t[0]] else []) + Transactions(t[1..])
  }

  /** n copies of one transaction. */
  function Repeat(op: Event, n: nat): (t: seq<Event>)
    ensures |t| == n
  {
    if n == 0 then [] else Repeat(op, n - 1) + [op]
  }

  /** How many of the endTransmission calls start .. start+n-1 are not acknowledged. */
  function Failures(acks: seq<bool>, start: nat, n: nat): nat
    decreases n
  {
    if n == 0 then 0 else (if AckAt(acks, start) then 0 else 1) + Failures(acks, start + 1, n - 1)
  }

  lemma {:induction false} FailuresSnoc(acks: seq<bool>, start: nat, n: nat)
    ensures Failures(acks, start, n + 1) == Failures(acks, start, n) + (if AckAt(acks, start + n) then 0 else 1)
    decreases n
  {
    if n > 0 {
      FailuresSnoc(acks, start + 1, n - 1);
    }
  }

  /** How many times a trace prints a given diagnostic line. */
  function LogCount(t: seq<Event>, line: Line): nat
  {
    if t == [] then 0 else (if t[0] == Log(line) then 1 else 0) + LogCount(t[1..], line)
  }

  lemma {:induction false} LogCountAppend(a: seq<Event>, b: seq<Event>, line: Line)
    ensures LogCount(a + b, line) == LogCount(a, line) + LogCount(b, line)
  {
    if a == [] {
      assert a + b == b;
    } else {
      assert (a + b)[1..] == a[1..] + b;
      LogCountAppend(a[1..], b, line);
    }
  }

  /** The values a trace prints on the console, in order. */
  function SamplesOf(t: seq<Event>): seq<int>
  {
    if t == [] then [] else (if t[0].Sample? then [t[0].value] else []) + SamplesOf(t[1..])
  }

  lemma {:induction false} SamplesAppend(a: seq<Event>, b: seq<Event>)
    ensures SamplesOf(a + b) == SamplesOf(a) + SamplesOf(b)
  {
    if a == [] {
      assert a + b == b;
    } else {
      var rest := a[1..];
      assert (a + b)[0] == a[0] && (a + b)[1..] == rest + b;
      SamplesAppend(rest, b);
    }
  }

  lemma {:induction false} TransactionsAppend(a: seq<Event>, b: seq<Event>)
    ensures Transactions(a + b) == Transactions(a) + Transactions(b)
  {
    if a == [] {
      assert a + b == b;
    } else {
      var rest := a[1..];
      assert (a + b)[0] == a[0] && (a + b)[1..] == rest + b;
      TransactionsAppend(rest, b);
    }
  }

  /** A transaction with its possible "> nack" line is, on the bus, the
      transaction alone. */
  lemma StepTransactions(op: Event, acked: bool)
    requires IsTransaction(op)
    ensures Transactions(Step(op, acked)) == [op]
  {
    var t := Step(op, acked);
    if acked {
      assert t[1..] == [];
    } else {
      var nack := [Log(Nack)];
      assert t[1..] == nack && nack[1..] == [];
    }
  }

  /** On the console a transaction prints "> nack" once when unacknowledged,
      and nothing else. */
  lemma StepLogs(op: Event, acked: bool)
    requires IsTransaction(op)
    ensures LogCount(Step(op, acked), Nack) == (if acked then 0 else 1)
    ensures LogCount(Step(op, acked), ReadFailed) == 0
  {
    var t := Step(op, acked);
    if acked {
      assert t[1..] == [];
    } else {
      var nack := [Log(Nack)];
      assert t[1..] == nack && nack[1..] == [];
    }
  }

  /** A transaction prints no value. */
  lemma StepSamples(op: Event, acked: bool)
    requires IsTransaction(op)
    ensures SamplesOf(Step(op, acked)) == []
  {
    var t := Step(op, acked);
    if acked {
      assert t[1..] == [];
    } else {
      var nack := [Log(Nack)];
      assert t[1..] == nack && nack[1..] == [];
    }
  }

  /** Filtering the console output out of an emitted run gives back the transactions. */
  lemma {:induction false} TransactionsOfEmit(ops: seq<Event>, acks: seq<bool>, start: nat)
    requires forall i :: 0 <= i < |ops| ==> IsTransaction(ops[i])
    ensures Transactions(Emit(ops, acks, start)) == ops
  {
    if ops != [] {
      StepTransactions(ops[0], AckAt(acks, start));
      TransactionsOfEmit(ops[1..], acks, start + 1);
      TransactionsAppend(Step(ops[0], AckAt(acks, start)), Emit(ops[1..], acks, start + 1));
      assert ops == [ops[0]] + ops[1..];
    }
  }

  /**
   * The console output interleaved with a run of transactions is one "> nack"
   * per unacknowledged transaction, and never "> read failed".
   */
  lemma {:induction false} LogsOfEmit(ops: seq<Event>, acks: seq<bool>, start: nat)
    requires forall i :: 0 <= i < |ops| ==> IsTransaction(ops[i])
    ensures LogCount(Emit(ops, acks, start), Nack) == Failures(acks, start, |ops|)
    ensures LogCount(Emit(ops, acks, start), ReadFailed) == 0
  {
    if ops != [] {
      var head, rest := Step(ops[0], AckAt(acks, start)), Emit(ops[1..], acks, start + 1);
      StepLogs(ops[0], AckAt(acks, start));
      LogsOfEmit(ops[1..], acks, start + 1);
      LogCountAppend(head, rest, Nack);
      LogCountAppend(head, rest, ReadFailed);
    }
  }

  /**
   * The Wire bus with the serial console and a scripted peripheral.
   * `acks` and `replies` are the script; `ackPos` and `replyPos` count the
   * endTransmission and requestFrom calls made so far.
   */
  class Bus {
    const acks: seq<bool>
    const replies: seq<seq<Byte>>
    var trace: seq<Event>
    var ackPos: nat
    var replyPos: nat

    constructor (acks: seq<bool>, replies: seq<seq<Byte>>)
      ensures this.acks == acks && this.replies == replies
      ensures trace == [] && ackPos == 0 && replyPos == 0
    {
      this.acks := acks;
      this.replies := replies;
      trace := [];
      ackPos := 0;
      replyPos := 0;
    }

    /** beginTransmission, the transaction's bytes, endTransmission: the result
        is 0 when the device acknowledged and 2 (address not acknowledged) otherwise. */
    method Transmit(op: Event) returns (status: int)
      requires IsTransaction(op)
      modifies this
      ensures trace == old(trace) + [op]
      ensures ackPos == old(ackPos) + 1 && replyPos == old(replyPos)
      ensures status == (if AckAt(acks, old(ackPos)) then 0 else 2)
    {
      trace := trace + [op];
      status := if AckAt(acks, ackPos) then 0 else 2;
      ackPos := ackPos + 1;
    }

    /** requestFrom(address, n): the bytes that are then available, in order. */
    method RequestFrom(n: nat) returns (received: seq<Byte>)
      modifies this
      ensures received == Received(ReplyAt(replies, old(replyPos)), n)
      ensures replyPos == old(replyPos) + 1
      ensures trace == old(trace) && ackPos == old(ackPos)
    {
      received := Received(ReplyAt(replies, replyPos), n);
      replyPos := replyPos + 1;
    }

    method Println(line: Line)
      modifies this
      ensures trace == old(trace) + [Log(line)]
      ensures ackPos == old(ackPos) && replyPos == old(replyPos)
    {
      trace := trace + [Log(line)];
    }

    method PrintSample(value: int, separator: char)
      modifies this
      ensures trace == old(trace) + [Sample(value, separator)]
      ensures ackPos == old(ackPos) && replyPos == old(replyPos)
    {
      trace := trace + [Sample(value, separator)];
    }
  }
}
