/** The slave's blocking bus code, proved to move through the phases of the automaton. */
module SlaveCode {
  import opened Protocol
  import opened SlaveAutomaton

  /** Whether the automaton has the slave answer with this byte, or leaves the answer open. */
  ghost predicate Allows(slave: Slave, p: Phase, out: byte) {
    Answer(slave, p) == [] || Answer(slave, p) == [out]
  }

  /** The slave's data register. `mosi` is what the master clocks, forever; the ghost fields are
      the automaton run on the bytes exchanged so far. */
  class Port {
    const slave: Slave
    const mosi: nat -> byte
    var t: nat
    var spdr: byte
    ghost var phase: Phase
    ghost var handed: seq<Delivery>

    constructor (slave: Slave, mosi: nat -> byte)
      ensures this.slave == slave && this.mosi == mosi
      ensures phase.Idle? && handed == [] && t == 0
    {
      this.slave, this.mosi, t, spdr := slave, mosi, 0, 0;
      phase, handed := Idle, [];
    }

    /** The next n bytes the master will clock. */
    function Stream(n: nat): (bytes: seq<byte>)
      reads this`t
      ensures |bytes| == n
    {
      var now := t;
      seq(n, (i: nat) => mosi(now + i))
    }

    /** Load the register, wait for the exchange, read the register. */
    method Exchange(out: byte, ghost sensors: seq<byte>) returns (received: byte)
      requires Allows(slave, phase, out)
      modifies this
      ensures received == mosi(old(t)) == spdr && t == old(t) + 1
      ensures phase == Next(slave, sensors, old(phase), received)
      ensures handed == old(handed) + Handed(old(phase))
    {
      received := mosi(t);
      spdr, t := received, t + 1;
      handed := handed + Handed(phase);
      phase := Next(slave, sensors, phase, received);
    }
  }

  /** Swaps the buffer with the line, byte by byte, in place. */
  method SpiTranceive(port: Port, data: array<byte>, len: nat, ghost sensors: seq<byte>, ghost bytes: seq<byte>)
    requires len <= data.Length && bytes == port.Stream(len)
    requires forall i | 0 <= i < len ::
      Allows(port.slave, Feed(port.slave, sensors, port.phase, bytes[..i]), data[i])
    modifies port, data
    ensures data[..len] == bytes && data[len..] == old(data[len..])
    ensures port.t == old(port.t) + len
    ensures port.phase == Feed(port.slave, sensors, old(port.phase), bytes)
    ensures port.handed == old(port.handed) + Delivered(port.slave, sensors, old(port.phase), bytes)
  {
    hide Next;
    hide Handed;
    hide Allows;
    ghost var start := port.phase;
    for i := 0 to len
      invariant port.t == old(port.t) + i
      invariant port.phase == Feed(port.slave, sensors, start, bytes[..i])
      invariant port.handed == old(port.handed) + Delivered(port.slave, sensors, start, bytes[..i])
      invariant forall k | 0 <= k < i :: data[k] == bytes[k]
      invariant forall k | i <= k < data.Length :: data[k] == old(data[k])
    {
      FeedOne(port.slave, sensors, start, bytes[..i], bytes[i]);
      assert bytes[..i + 1] == bytes[..i] + [bytes[i]];
      var received := port.Exchange(data[i], sensors);
      data[i] := received;
    }
    assert bytes[..len] == bytes;
  }

  /** Exchanges a single byte from a one-byte buffer. */
  method SpiTranceiveOne(port: Port, out: byte, ghost sensors: seq<byte>) returns (received: byte)
    requires Allows(port.slave, port.phase, out)
    modifies port
    ensures port.t == old(port.t) + 1
    ensures port.phase == Next(port.slave, sensors, old(port.phase), received)
    ensures port.handed == old(port.handed) + Handed(old(port.phase))
  {
    hide Next;
    hide Allows;
    var cell := new byte[1];
    cell[0] := out;
    ghost var bytes := port.Stream(1);
    assert bytes[..0] == [] && bytes == [] + [bytes[0]];
    FeedOne(port.slave, sensors, port.phase, [], bytes[0]);
    SpiTranceive(port, cell, 1, sensors, bytes);
    received := cell[0];
    assert received == cell[..1][0];
  }

  /** Takes the data bytes of a write command and checks them. */
  method TakeData(port: Port, data: array<byte>, cs: byte, len: nat, ghost sensors: seq<byte>) returns (ok: bool)
    requires len == Entry(port.slave, CsCmd(cs)).len && 0 < len <= data.Length
    requires port.phase == Data(cs, [])
    modifies port, data
    ensures port.handed == old(port.handed)
    ensures port.phase == if ok then Ack(Entry(port.slave, CsCmd(cs)).cmd, data[..len]) else Idle
  {
    hide CsCmd;
    hide Checks;
    ghost var bytes := port.Stream(len);
    forall i | 0 <= i < len
      ensures Allows(port.slave, Feed(port.slave, sensors, port.phase, bytes[..i]), data[i])
    {
      DataCollects(port.slave, sensors, cs, bytes[..i]);
    }
    DataPhase(port.slave, sensors, cs, bytes);
    SpiTranceive(port, data, len, sensors, bytes);
    ok := CsCheck(cs, data[..], len);
    ChecksReadsPrefix(cs, data[..], len);
    assert data[..][..len] == data[..len];
  }

  /** Accepts one command. Inside the interrupt routine the command byte is already in the register. */
  method SpiAccept(port: Port, data: array<byte>, insideIsr: bool, ghost sensors: seq<byte>) returns (cmd: byte)
    requires port.phase == if insideIsr then Next(port.slave, sensors, Idle, port.spdr) else Idle
    requires port.slave.Ctrl? ==> data.Length >= CTRL_LEN
    modifies port, data
    ensures cmd == BB_INVALID ==> port.phase.Idle? && port.handed == old(port.handed)
    ensures cmd != BB_INVALID ==>
      var bc := Entry(port.slave, cmd);
      && bc.valid && (bc.write ==> bc.len <= data.Length)
      && port.handed == old(port.handed) + [Delivery(cmd, if bc.write then data[..bc.len] else [])]
      && port.phase == if port.slave.Sens? && cmd == BBS_GET then ReturnCs(sensors) else Idle
  {
    hide CsCmd;
    var cs: byte;
    if insideIsr {
      cs := port.spdr;
    } else {
      var leftover: byte := *;
      cs := SpiTranceiveOne(port, leftover, sensors);
    }
    cmd := CsCmd(cs);
    var bc := Entry(port.slave, cmd);
    if !bc.valid {
      return BB_INVALID;
    }
    if bc.write {
      var ok := TakeData(port, data, cs, bc.len, sensors);
      if !ok {
        return BB_INVALID;
      }
    }
    var _ := SpiTranceiveOne(port, AckOf(port.slave), sensors);
  }

  lemma ChecksReadsPrefix(cs: byte, data: seq<byte>, len: nat)
    requires 0 < len <= |data|
    ensures Checks(cs, data, len) == Checks(cs, data[..len], len)
  {
  }

  /** Returns checksum byte and data to the master; the data is overwritten by what it clocks. */
  method SpiReturn(port: Port, cmd: byte, data: array<byte>, ghost sensors: seq<byte>)
    requires port.slave.Sens? && cmd == BBS_GET && data.Length == SENS_LEN
    requires port.phase == ReturnCs(data[..])
    modifies port, data
    ensures port.phase.Idle? && port.handed == old(port.handed)
  {
    ghost var snap := data[..];
    var cs := CsCreate(cmd, data[..], SENS_LEN);
    var _ := SpiTranceiveOne(port, cs, sensors);
    ghost var bytes := port.Stream(SENS_LEN);
    forall i | 0 <= i <= SENS_LEN
      ensures Feed(Sens, sensors, ReturnData(snap, 0), bytes[..i]) ==
        if i < SENS_LEN then ReturnData(snap, i) else Idle
      ensures Delivered(Sens, sensors, ReturnData(snap, 0), bytes[..i]) == []
    {
      Returning(sensors, snap, bytes[..i]);
    }
    assert bytes[..SENS_LEN] == bytes;
    SpiTranceive(port, data, SENS_LEN, sensors, bytes);
  }

  /** The sensor module's interrupt routine: one whole transaction, back to waiting. */
  method SensInterrupt(port: Port, sensors: seq<byte>) returns (after: seq<byte>)
    requires port.slave.Sens? && |sensors| == SENS_LEN
    requires port.phase == Next(Sens, sensors, Idle, port.spdr)
    modifies port
    ensures port.phase.Idle? && |after| == SENS_LEN
    ensures after ==
      if |port.handed| > |old(port.handed)| && port.handed[|old(port.handed)|].cmd == BBS_RST then Zeros(SENS_LEN)
      else sensors
  {
    var none := new byte[0];
    var command := SpiAccept(port, none, true, sensors);
    after := sensors;
    if command == BBS_GET {
      var copy := new byte[SENS_LEN](i requires 0 <= i < SENS_LEN => sensors[i]);
      assert copy[..] == sensors;
      SpiReturn(port, command, copy, sensors);
    } else if command == BBS_RST {
      after := Zeros(SENS_LEN);
    }
  }
}
