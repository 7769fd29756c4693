/** The master's bus transactions, run against the slave automaton on a clean line. */
module SpiMaster {
  import opened Protocol
  import opened SlaveAutomaton

  /** The byte on the line: the slave's answer, where its code determines one. */
  function Heard(slave: Slave, p: Phase, noise: byte): byte {
    var answer := Answer(slave, p);
    if answer == [] then noise else answer[0]
  }

  /** The wire to one slave. `noise` fixes the bytes its code leaves undetermined. */
  class Link {
    const slave: Slave
    const noise: nat -> byte
    var t: nat
    var phase: Phase
    var sensors: seq<byte>
    var handed: seq<Delivery>
    ghost var readings: seq<seq<byte>> // what the sensors have held so far

    constructor (slave: Slave, noise: nat -> byte)
      ensures this.slave == slave && this.noise == noise
      ensures phase.Idle? && handed == [] && readings == [Zeros(SENS_LEN)] && Valid()
    {
      this.slave, this.noise, t := slave, noise, 0;
      phase, sensors, handed := Idle, Zeros(SENS_LEN), [];
      readings := [Zeros(SENS_LEN)];
    }

    ghost predicate Valid()
      reads this
    {
      && WellFormed(slave, phase) && |sensors| == SENS_LEN
      && readings != [] && sensors == readings[|readings| - 1]
    }

    /** The slave has new sensor data. */
    method Measure(data: seq<byte>)
      requires Valid() && |data| == SENS_LEN
      modifies this`sensors, this`readings
      ensures Valid() && sensors == data && readings == old(readings) + [data]
    {
      sensors, readings := data, readings + [data];
    }

    /** One byte each way. */
    method Exchange(mosi: byte) returns (miso: byte)
      requires Valid()
      modifies this`t, this`phase, this`handed
      ensures Valid() && t == old(t) + 1
      ensures phase == Next(slave, sensors, old(phase), mosi)
      ensures handed == old(handed) + Handed(old(phase))
      ensures miso == Heard(slave, old(phase), noise(old(t)))
    {
      miso := Heard(slave, phase, noise(t));
      StepKeepsWellFormed(slave, sensors, phase, mosi);
      t, handed, phase := t + 1, handed + Handed(phase), Next(slave, sensors, phase, mosi);
    }

    /** One transfer of the SPI driver. */
    method Transfer(tx: seq<byte>) returns (rx: seq<byte>)
      requires Valid()
      modifies this`t, this`phase, this`handed
      ensures Valid() && t == old(t) + |tx|
      ensures phase == Feed(slave, sensors, old(phase), tx)
      ensures handed == old(handed) + Delivered(slave, sensors, old(phase), tx)
      ensures |rx| == |tx| && forall i | 0 <= i < |tx| ::
        rx[i] == Heard(slave, Feed(slave, sensors, old(phase), tx[..i]), noise(old(t) + i))
    {
      hide Next;
      hide Handed;
      hide Heard;
      hide WellFormed;
      FeedNone(slave, sensors, phase);
      hide Feed;
      hide Delivered;
      assert tx[..0] == [];
      rx := [];
      for i := 0 to |tx|
        invariant Valid() && t == old(t) + i
        invariant phase == Feed(slave, sensors, old(phase), tx[..i])
        invariant handed == old(handed) + Delivered(slave, sensors, old(phase), tx[..i])
        invariant |rx| == i && forall k | 0 <= k < i ::
          rx[k] == Heard(slave, Feed(slave, sensors, old(phase), tx[..k]), noise(old(t) + k))
      {
        FeedNext(slave, sensors, old(phase), tx, i);
        var b := Exchange(tx[i]);
        rx := rx + [b];
      }
      assert tx[..|tx|] == tx;
    }

    /** A transfer of a single byte. */
    method TransferByte(b: byte) returns (heard: byte)
      requires Valid()
      modifies this`t, this`phase, this`handed
      ensures Valid() && t == old(t) + 1
      ensures phase == Next(slave, sensors, old(phase), b)
      ensures handed == old(handed) + Handed(old(phase))
      ensures heard == Heard(slave, old(phase), noise(old(t)))
    {
      TransferOne(slave, sensors, phase, b);
      hide *;
      var rx := Transfer([b]);
      heard := rx[0];
    }

    /** A transfer that reads nothing. */
    method Put(tx: seq<byte>)
      requires Valid()
      modifies this`t, this`phase, this`handed
      ensures Valid() && t == old(t) + |tx|
      ensures phase == Feed(slave, sensors, old(phase), tx)
      ensures handed == old(handed) + Delivered(slave, sensors, old(phase), tx)
    {
      hide *;
      var _ := Transfer(tx);
    }

    /** A transfer that sends zeros. */
    method Get(len: nat) returns (dst: seq<byte>)
      requires Valid()
      modifies this`t, this`phase, this`handed
      ensures Valid() && t == old(t) + len
      ensures phase == Feed(slave, sensors, old(phase), Zeros(len))
      ensures handed == old(handed) + Delivered(slave, sensors, old(phase), Zeros(len))
      ensures |dst| == len && dst == HeardData(slave, sensors, old(phase), noise, old(t), len)
    {
      hide *;
      ghost var p, start := phase, t;
      dst := Transfer(Zeros(len));
      HeardAsZeros(slave, sensors, p, noise, start, len, dst);
    }

    /** Sends one byte of zero after the other. */
    method SpiSync(length: nat)
      requires Valid()
      modifies this`t, this`phase, this`handed
      ensures Valid()
      ensures phase == Feed(slave, sensors, old(phase), Zeros(length))
      ensures phase.Idle? <==> length >= BytesLeft(slave, old(phase))
      ensures length >= MAX_DATA_LENGTH + 2 ==> phase.Idle?
      ensures handed == old(handed) + Flushed(slave, old(phase), length)
    {
      hide Next;
      hide Handed;
      hide Feed;
      hide Delivered;
      hide Heard;
      hide WellFormed;
      hide BytesLeft;
      FeedNothing(slave, sensors, phase);
      SyncReachesIdle(slave, sensors, phase, length);
      SyncHandsOver(slave, sensors, phase, length);
      for i := 0 to length
        invariant Valid()
        invariant phase == Feed(slave, sensors, old(phase), Zeros(i))
        invariant handed == old(handed) + Delivered(slave, sensors, old(phase), Zeros(i))
      {
        assert Zeros(i + 1) == Zeros(i) + [0];
        FeedOne(slave, sensors, old(phase), Zeros(i), 0);
        var rx := Transfer([0]);
        TransferOne(slave, sensors, Feed(slave, sensors, old(phase), Zeros(i)), 0);
      }
    }

    /** The bytes of a write: the checksum byte, and the data, if any. */
    method PutWrite(bc: BusCmd, cs: byte, msg: seq<byte>)
      requires Valid() && |msg| == bc.len && cs == CsOf(bc.cmd, msg, bc.len)
      modifies this`t, this`phase, this`handed
      ensures Valid() && t == old(t) + 1 + bc.len
      ensures phase == BeforeAck(slave, sensors, old(phase), bc, msg)
      ensures handed == old(handed) + Delivered(slave, sensors, old(phase), WriteBytes(bc, msg))
    {
      hide *;
      ghost var before, p := handed, phase;
      WriteInParts(slave, sensors, p, before, bc, msg);
      var _ := TransferByte(cs);
      if bc.len > 0 {
        Put(msg);
      }
    }

    /** Sends a command with its data. Whatever the slave was doing, success means exactly that the last
        byte heard is its acknowledgement; a silent line's control slave has then been handed a command.
        From a waiting slave the command always arrives, is acknowledged, and leaves the slave waiting. */
    method Transmit(bc: BusCmd, msg: seq<byte>) returns (success: bool)
      requires Valid() && |msg| == bc.len && bc.slave == slave
      modifies this`t, this`phase, this`handed
      ensures Valid() && t == old(t) + 2 + bc.len
      ensures success <==> WriteAcked(slave, sensors, old(phase), noise, old(t), bc, msg)
      ensures phase == Next(slave, sensors, BeforeAck(slave, sensors, old(phase), bc, msg), 0)
      ensures handed == old(handed) + Delivered(slave, sensors, old(phase), WriteBytes(bc, msg)) +
        Handed(BeforeAck(slave, sensors, old(phase), bc, msg))
      ensures slave.Ctrl? && Quiet(slave, noise) && success ==>
        Handed(BeforeAck(slave, sensors, old(phase), bc, msg)) != [] && phase.Idle?
      ensures old(phase).Idle? && InTable(bc) && bc.write ==>
        success && phase.Idle? && handed == old(handed) + [Delivery(bc.cmd, msg)]
    {
      ghost var p, start := phase, t;
      if p.Idle? && InTable(bc) && bc.write {
        WriteArrives(slave, sensors, noise, start, handed, bc, msg);
      }
      AckedIsHandedOver(slave, sensors, p, noise, start, bc, msg);
      hide *;
      var cs := CsCreate(bc.cmd, msg, bc.len);
      PutWrite(bc, cs, msg);
      var ack := TransferByte(0);
      AckedIs(slave, sensors, p, noise, start, bc, msg);
      success := ack == AckOf(bc.slave);
    }

    /** Sends a request and reads the acknowledgement. */
    method Request(bc: BusCmd) returns (ack: byte)
      requires Valid() && bc.slave == slave
      modifies this`t, this`phase, this`handed
      ensures Valid() && t == old(t) + 2
      ensures ack == Heard(slave, AfterRequest(slave, sensors, old(phase), bc), noise(old(t) + 1))
      ensures phase == Next(slave, sensors, AfterRequest(slave, sensors, old(phase), bc), 0)
      ensures handed == old(handed) + Handed(old(phase)) + Handed(AfterRequest(slave, sensors, old(phase), bc))
      ensures old(phase).Idle? && InTable(bc) && !bc.write ==>
        && ack == AckOf(slave)
        && phase == Next(slave, sensors, Ack(bc.cmd, []), 0)
        && handed == old(handed) + [Delivery(bc.cmd, [])]
    {
      hide CsOf;
      hide CsCmd;
      hide WellFormed;
      var cs := CsCreate(bc.cmd, [], 0);
      var _ := TransferByte(cs);
      ack := TransferByte(0);
      if old(phase).Idle? && InTable(bc) && !bc.write {
        CreatedIsAccepted(bc.cmd, [], 0);
        CmdOfTable(bc);
      }
    }

    /** Reads checksum byte and data. */
    method ReadBack(len: nat) returns (csRecv: byte, dst: seq<byte>)
      requires Valid()
      modifies this`t, this`phase, this`handed
      ensures Valid() && |dst| == len
      ensures csRecv == Heard(slave, old(phase), noise(old(t)))
      ensures dst == HeardData(slave, sensors, Next(slave, sensors, old(phase), 0), noise, old(t) + 1, len)
      ensures slave.Sens? && old(phase) == ReturnCs(sensors) && len == SENS_LEN ==>
        csRecv == CsOf(BBS_GET, sensors, SENS_LEN) && dst == sensors && phase.Idle? && handed == old(handed)
      ensures old(phase).Idle? && len == 0 ==>
        csRecv == noise(old(t)) && phase.Idle? && handed == old(handed)
    {
      assert |sensors| == SENS_LEN;
      hide *;
      if len == 0 {
        NothingReadBack(slave, sensors, phase, noise, t, len, handed);
      } else {
        SnapshotReadBack(slave, sensors, phase, noise, t, len, handed);
      }
      csRecv := TransferByte(0);
      dst := Get(len);
    }

    /** Requests data into a buffer. Whatever the slave was doing, success means exactly that the second
        byte heard is its acknowledgement and the ones after it pass as a checksum and its data; these are
        in the buffer then. A GET from a waiting slave yields exactly the slave's sensor data. A request
        without data always arrives too, but is reported as a success only by the chance of what
        the waiting slave's register holds: one more byte is read than the slave sends. */
    method Receive(bc: BusCmd, buf: seq<byte>) returns (success: bool, dst: seq<byte>)
      requires Valid() && bc.slave == slave && |buf| == bc.len
      modifies this`t, this`phase, this`handed
      ensures Valid() && |dst| == bc.len
      ensures success <==> ReadAccepted(slave, sensors, old(phase), noise, old(t), bc)
      ensures dst == if RequestAcked(slave, sensors, old(phase), noise, old(t), bc)
        then ReadData(slave, sensors, old(phase), noise, old(t), bc) else buf
      ensures old(phase).Idle? && InTable(bc) && !bc.write ==>
        phase.Idle? && handed == old(handed) + [Delivery(bc.cmd, [])]
      ensures old(phase).Idle? && bc == Entry(Sens, BBS_GET) ==> success && dst == sensors
      ensures old(phase).Idle? && InTable(bc) && !bc.write && bc.len == 0 ==>
        (success <==> CsSum(noise(old(t) + 2)) == CsCmd(noise(old(t) + 2)))
    {
      hide CsOf;
      hide Checks;
      hide WellFormed;
      hide HeardData;
      success, dst := false, buf;
      var ack := Request(bc);
      if ack == AckOf(bc.slave) {
        var csRecv;
        csRecv, dst := ReadBack(bc.len);
        success := CsCheck(csRecv, dst, bc.len);
        CreatedIsAccepted(BBS_GET, sensors, SENS_LEN);
        if bc.len == 0 {
          EvenCheckReadsNoData(csRecv, dst, 0);
        }
      }
    }

    /** The worker's attempt at an order with its buffer: on failure it resynchronises the slave. So a
        failed attempt, from whatever phase, leaves the slave waiting. An attempt at a write succeeds
        exactly if it is acknowledged, and one at a read exactly if an answer is accepted. From a waiting
        slave the command is handed over once, every write succeeds with exactly its bytes, and every GET
        with exactly the sensor data. */
    method Attempt(bc: BusCmd, buf: seq<byte>) returns (success: bool, dst: seq<byte>)
      requires Valid() && bc.slave == slave && |buf| == bc.len
      modifies this`t, this`phase, this`handed
      ensures Valid() && |dst| == bc.len && (bc.write ==> dst == buf)
      ensures success <==> Answered(slave, sensors, old(phase), noise, old(t), bc, buf)
      ensures !success ==> phase.Idle?
      ensures slave.Ctrl? && Quiet(slave, noise) && bc.write && success ==>
        phase.Idle? && |handed| > |old(handed)|
      ensures old(phase).Idle? && InTable(bc) ==>
        && phase.Idle? && (bc.write ==> success)
        && handed == old(handed) + [Delivery(bc.cmd, if bc.write then buf else [])]
      ensures old(phase).Idle? && bc == Entry(Sens, BBS_GET) ==> success && dst == sensors
    {
      hide WellFormed;
      hide WriteAcked;
      hide ReadAccepted;
      hide Quiet;
      dst := buf;
      if bc.write {
        success := Transmit(bc, buf);
      } else {
        success, dst := Receive(bc, buf);
      }
      if !success {
        SpiSync(MAX_DATA_LENGTH + 2);
      }
    }
  }

  // ---------------------------------------------------------------------------
  // What the master hears, whatever the slave was doing
  // ---------------------------------------------------------------------------

  ghost function WriteBytes(bc: BusCmd, msg: seq<byte>): seq<byte>
    requires |msg| == bc.len
  {
    [CsOf(bc.cmd, msg, bc.len)] + msg
  }

  /** Where a write leaves the slave when the master reads the acknowledgement. */
  ghost function BeforeAck(slave: Slave, sensors: seq<byte>, p: Phase, bc: BusCmd, msg: seq<byte>): Phase
    requires |msg| == bc.len
  {
    Feed(slave, sensors, p, WriteBytes(bc, msg))
  }

  ghost predicate WriteAcked(slave: Slave, sensors: seq<byte>, p: Phase, noise: nat -> byte, t: nat,
                             bc: BusCmd, msg: seq<byte>)
    requires |msg| == bc.len
  {
    Heard(slave, BeforeAck(slave, sensors, p, bc, msg), noise(t + 1 + bc.len)) == AckOf(slave)
  }

  ghost function AfterRequest(slave: Slave, sensors: seq<byte>, p: Phase, bc: BusCmd): Phase {
    Next(slave, sensors, p, CsOf(bc.cmd, [], 0))
  }

  ghost predicate RequestAcked(slave: Slave, sensors: seq<byte>, p: Phase, noise: nat -> byte, t: nat, bc: BusCmd) {
    Heard(slave, AfterRequest(slave, sensors, p, bc), noise(t + 1)) == AckOf(slave)
  }

  /** The bytes heard for zeros sent from time t on. */
  ghost function HeardData(slave: Slave, sensors: seq<byte>, p: Phase, noise: nat -> byte, t: nat, len: nat): seq<byte> {
    seq(len, i requires 0 <= i < len => Heard(slave, Feed(slave, sensors, p, Zeros(i)), noise(t + i)))
  }

  ghost function ReadData(slave: Slave, sensors: seq<byte>, p: Phase, noise: nat -> byte, t: nat, bc: BusCmd): seq<byte> {
    var q := Next(slave, sensors, AfterRequest(slave, sensors, p, bc), 0);
    HeardData(slave, sensors, Next(slave, sensors, q, 0), noise, t + 3, bc.len)
  }

  ghost predicate ReadAccepted(slave: Slave, sensors: seq<byte>, p: Phase, noise: nat -> byte, t: nat, bc: BusCmd) {
    var q := Next(slave, sensors, AfterRequest(slave, sensors, p, bc), 0);
    && RequestAcked(slave, sensors, p, noise, t, bc)
    && Checks(Heard(slave, q, noise(t + 2)), ReadData(slave, sensors, p, noise, t, bc), bc.len)
  }

  ghost predicate Answered(slave: Slave, sensors: seq<byte>, p: Phase, noise: nat -> byte, t: nat,
                           bc: BusCmd, buf: seq<byte>)
    requires |buf| == bc.len
  {
    if bc.write then WriteAcked(slave, sensors, p, noise, t, bc, buf)
    else ReadAccepted(slave, sensors, p, noise, t, bc)
  }

  /** No left-over byte on the line looks like the slave's acknowledgement. */
  ghost predicate Quiet(slave: Slave, noise: nat -> byte) {
    forall k: nat :: noise(k) != AckOf(slave)
  }

  lemma SnapshotByte(sensors: seq<byte>, noise: byte, i: nat)
    requires |sensors| == SENS_LEN && i < SENS_LEN
    ensures Heard(Sens, Feed(Sens, sensors, ReturnData(sensors, 0), Zeros(i)), noise) == sensors[i]
  {
    Returning(sensors, sensors, Zeros(i));
    hide Feed;
  }

  lemma SnapshotHeard(sensors: seq<byte>, noise: nat -> byte, t: nat)
    requires |sensors| == SENS_LEN
    ensures Feed(Sens, sensors, ReturnData(sensors, 0), Zeros(SENS_LEN)) == Idle
    ensures Delivered(Sens, sensors, ReturnData(sensors, 0), Zeros(SENS_LEN)) == []
    ensures HeardData(Sens, sensors, ReturnData(sensors, 0), noise, t, SENS_LEN) == sensors
  {
    Returning(sensors, sensors, Zeros(SENS_LEN));
    hide *;
    forall i | 0 <= i < SENS_LEN
      ensures Heard(Sens, Feed(Sens, sensors, ReturnData(sensors, 0), Zeros(i)), noise(t + i)) == sensors[i]
    {
      SnapshotByte(sensors, noise(t + i), i);
    }
    HeardDataIs(Sens, sensors, ReturnData(sensors, 0), noise, t, SENS_LEN, sensors);
  }

  lemma SnapshotReadBack(slave: Slave, sensors: seq<byte>, p: Phase, noise: nat -> byte, t: nat, len: nat,
                         handed: seq<Delivery>)
    requires slave.Sens? && p == ReturnCs(sensors) && len == SENS_LEN ==> |sensors| == SENS_LEN
    ensures slave.Sens? && p == ReturnCs(sensors) && len == SENS_LEN ==>
      var q := Next(slave, sensors, p, 0);
      && Heard(slave, p, noise(t)) == CsOf(BBS_GET, sensors, SENS_LEN)
      && HeardData(slave, sensors, q, noise, t + 1, len) == sensors
      && Feed(slave, sensors, q, Zeros(len)).Idle?
      && handed + Handed(p) + Delivered(slave, sensors, q, Zeros(len)) == handed
  {
    if slave.Sens? && p == ReturnCs(sensors) && len == SENS_LEN {
      SnapshotHeard(sensors, noise, t + 1);
      Associates(handed, [], []);
    }
    hide HeardData;
    hide Feed;
    hide Delivered;
    hide CsOf;
  }

  lemma NothingReadBack(slave: Slave, sensors: seq<byte>, p: Phase, noise: nat -> byte, t: nat, len: nat,
                        handed: seq<Delivery>)
    ensures p.Idle? && len == 0 ==>
      var q := Next(slave, sensors, p, 0);
      && Heard(slave, p, noise(t)) == noise(t)
      && Feed(slave, sensors, q, Zeros(len)).Idle?
      && handed + Handed(p) + Delivered(slave, sensors, q, Zeros(len)) == handed
  {
    var q := Next(slave, sensors, p, 0);
    FeedNone(slave, sensors, q);
    assert Zeros(0) == [];
    Associates(handed, [], []);
    hide Feed;
    hide Delivered;
  }

  lemma HeardDataIs(slave: Slave, sensors: seq<byte>, p: Phase, noise: nat -> byte, t: nat, len: nat, rx: seq<byte>)
    requires |rx| == len
    requires forall i | 0 <= i < len :: Heard(slave, Feed(slave, sensors, p, Zeros(i)), noise(t + i)) == rx[i]
    ensures HeardData(slave, sensors, p, noise, t, len) == rx
  {
    hide Heard;
    hide Feed;
  }

  lemma HeardAsZeros(slave: Slave, sensors: seq<byte>, p: Phase, noise: nat -> byte, t: nat, len: nat, rx: seq<byte>)
    requires |rx| == len
    requires forall i | 0 <= i < len :: rx[i] == Heard(slave, Feed(slave, sensors, p, Zeros(len)[..i]), noise(t + i))
    ensures rx == HeardData(slave, sensors, p, noise, t, len)
  {
    forall i | 0 <= i < len
      ensures Heard(slave, Feed(slave, sensors, p, Zeros(i)), noise(t + i)) == rx[i]
    {
      assert Zeros(len)[..i] == Zeros(i);
    }
    hide *;
    HeardDataIs(slave, sensors, p, noise, t, len, rx);
  }

  /** The transfers of a write, one after the other. */
  lemma WriteInParts(slave: Slave, sensors: seq<byte>, p: Phase, handed: seq<Delivery>, bc: BusCmd, msg: seq<byte>)
    requires |msg| == bc.len
    ensures var p1 := Next(slave, sensors, p, CsOf(bc.cmd, msg, bc.len));
      var after := handed + Delivered(slave, sensors, p, WriteBytes(bc, msg));
      && BeforeAck(slave, sensors, p, bc, msg) == Feed(slave, sensors, p1, msg)
      && handed + Handed(p) + Delivered(slave, sensors, p1, msg) == after
      && (bc.len == 0 ==> Feed(slave, sensors, p1, msg) == p1 && handed + Handed(p) == after)
  {
    var cs := CsOf(bc.cmd, msg, bc.len);
    assert WriteBytes(bc, msg) == [cs] + msg;
    assert BeforeAck(slave, sensors, p, bc, msg) == Feed(slave, sensors, p, WriteBytes(bc, msg));
    hide *;
    var p1 := Next(slave, sensors, p, cs);
    TransferOne(slave, sensors, p, cs);
    FeedConcat(slave, sensors, p, [cs], msg);
    if bc.len == 0 {
      FeedNone(slave, sensors, p1);
    }
    Associates(handed, Handed(p), Delivered(slave, sensors, p1, msg));
  }

  lemma Associates<T>(a: seq<T>, b: seq<T>, c: seq<T>)
    ensures a + (b + c) == a + b + c
    ensures c == [] ==> a + (b + c) == a + b
  {
  }

  lemma AckedIs(slave: Slave, sensors: seq<byte>, p: Phase, noise: nat -> byte, t: nat, bc: BusCmd, msg: seq<byte>)
    requires |msg| == bc.len
    ensures WriteAcked(slave, sensors, p, noise, t, bc, msg) <==>
      Heard(slave, BeforeAck(slave, sensors, p, bc, msg), noise(t + 1 + bc.len)) == AckOf(slave)
  {
  }

  /** The control slave answers with its acknowledgement only when it hands over a command. */
  lemma AckedIsHandedOver(slave: Slave, sensors: seq<byte>, p: Phase, noise: nat -> byte, t: nat,
                          bc: BusCmd, msg: seq<byte>)
    requires WellFormed(slave, p) && |sensors| == SENS_LEN && |msg| == bc.len
    ensures slave.Ctrl? && Quiet(slave, noise) && WriteAcked(slave, sensors, p, noise, t, bc, msg) ==>
      var before := BeforeAck(slave, sensors, p, bc, msg);
      Handed(before) != [] && Next(slave, sensors, before, 0).Idle?
  {
    FeedKeepsWellFormed(slave, sensors, p, WriteBytes(bc, msg));
    hide Feed;
    hide CsOf;
  }

  lemma WriteArrives(slave: Slave, sensors: seq<byte>, noise: nat -> byte, t: nat, handed: seq<Delivery>,
                     bc: BusCmd, msg: seq<byte>)
    requires InTable(bc) && bc.write && bc.slave == slave && |msg| == bc.len
    ensures WriteAcked(slave, sensors, Idle, noise, t, bc, msg)
    ensures var before := BeforeAck(slave, sensors, Idle, bc, msg);
      && Next(slave, sensors, before, 0).Idle?
      && handed + Delivered(slave, sensors, Idle, WriteBytes(bc, msg)) + Handed(before) ==
           handed + [Delivery(bc.cmd, msg)]
  {
    TransmitPhases(slave, sensors, bc, msg);
    WriteInParts(slave, sensors, Idle, handed, bc, msg);
    TransferOne(slave, sensors, Idle, CsOf(bc.cmd, msg, bc.len));
    hide BeforeAck;
    hide WriteBytes;
    hide Feed;
    hide Delivered;
    hide CsOf;
  }

  lemma CmdOfTable(bc: BusCmd)
    requires InTable(bc)
    ensures CsCmd(bc.cmd) == bc.cmd
  {
  }

  lemma FeedNothing(slave: Slave, sensors: seq<byte>, p: Phase)
    ensures Feed(slave, sensors, p, Zeros(0)) == p && Delivered(slave, sensors, p, Zeros(0)) == []
  {
  }

  /** The slave's way through a write command, transfer by transfer. */
  lemma TransmitPhases(slave: Slave, sensors: seq<byte>, bc: BusCmd, msg: seq<byte>)
    requires InTable(bc) && bc.write && bc.slave == slave && |msg| == bc.len
    ensures bc.len > 0
    ensures var cs := CsOf(bc.cmd, msg, bc.len);
      && Feed(slave, sensors, Idle, [cs]) == Data(cs, []) && Delivered(slave, sensors, Idle, [cs]) == []
      && Feed(slave, sensors, Data(cs, []), msg) == Ack(bc.cmd, msg)
      && Delivered(slave, sensors, Data(cs, []), msg) == []
      && Feed(slave, sensors, Ack(bc.cmd, msg), [0]) == Idle
      && Delivered(slave, sensors, Ack(bc.cmd, msg), [0]) == [Delivery(bc.cmd, msg)]
    ensures Feed(slave, sensors, Ack(bc.cmd, msg), [0][..0]) == Ack(bc.cmd, msg)
  {
    var cs := CsOf(bc.cmd, msg, bc.len);
    CreatedIsAccepted(bc.cmd, msg, bc.len);
    CmdOfTable(bc);
    hide CsOf;
    hide CsCmd;
    hide Checks;
    TransferOne(slave, sensors, Idle, cs);
    DataPhase(slave, sensors, cs, msg);
    TransferOne(slave, sensors, Ack(bc.cmd, msg), 0);
  }
}
