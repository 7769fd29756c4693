/** Command tables, the command-and-checksum byte, and the shared checksum code. */
module Protocol {

  type byte = bv8

  datatype Slave = Sens | Ctrl

  datatype BusCmd = BusCmd(valid: bool, cmd: byte, write: bool, slave: Slave, len: nat)

  const BB_INVALID: byte := 0
  const INVALID_CMD := BusCmd(false, BB_INVALID, false, Sens, 0)

  const BF_WRITE: byte := 8
  const BF_VEL_ROT: byte := 4
  const BF_MOD_REG: byte := 2
  const BF_ERR_VAL: byte := 1
  const BF_KP_KD: byte := 1

  const BBC_RST: byte := 1
  const BBC_SYN: byte := 2
  const BBS_RST: byte := 1
  const BBS_SYN: byte := 2
  const BBS_GET: byte := 3

  const SENS_LEN: nat := 16 // four floats
  const CTRL_LEN: nat := 4 // one float
  const MAX_DATA_LENGTH: nat := 16

  /** The table entry of a slave for a 4-bit command. */
  function Entry(slave: Slave, cmd: byte): BusCmd {
    match slave
    case Sens =>
      if cmd == BBS_RST || cmd == BBS_SYN then BusCmd(true, cmd, false, Sens, 0)
      else if cmd == BBS_GET then BusCmd(true, cmd, false, Sens, SENS_LEN)
      else INVALID_CMD
    case Ctrl =>
      if cmd == BBC_RST || cmd == BBC_SYN then BusCmd(true, cmd, false, Ctrl, 0)
      else if BF_WRITE <= cmd < 16 then BusCmd(true, cmd, true, Ctrl, CTRL_LEN)
      else INVALID_CMD
  }

  /** Commands that the master may schedule: the valid table entries. */
  ghost predicate InTable(bc: BusCmd) {
    bc.valid && bc.cmd < 16 && Entry(bc.slave, bc.cmd) == bc
  }

  function AckOf(slave: Slave): byte {
    if slave.Sens? then 0x53 else 0xc7
  }

  // The command sits in the low nibble of the byte, the sum in the high nibble.

  function CsCmd(cs: byte): byte { cs & 0x0f }

  function CsSum(cs: byte): byte { cs >> 4 }

  /** One pass of the checksum loop over data byte d. */
  function Mix(sum: byte, d: byte): byte {
    (sum ^ d) ^ (d >> 4)
  }

  lemma MixTwice(sum: byte, d: byte)
    ensures Mix(Mix(sum, d), d) == sum
  {
  }

  /** What the checksum loop computes: it never moves on from the first byte, so the
      data cancels out for every even length. */
  function SumOf(cmd: byte, data: seq<byte>, len: nat): byte
    requires len <= |data|
  {
    (if len % 2 == 0 then cmd else Mix(cmd, data[0])) & 0x0f
  }

  method CalcSum(cmd: byte, data: seq<byte>, len: nat) returns (sum: byte)
    requires len <= |data|
    ensures sum == SumOf(cmd, data, len)
  {
    hide Mix;
    sum := 0;
    sum := sum ^ cmd;
    for i := 0 to len
      invariant sum == if i % 2 == 0 then cmd else Mix(cmd, data[0])
    {
      sum := MixedIn(sum, data[0]);
      MixTwice(cmd, data[0]);
    }
    sum := sum & 0x0f;
  }

  method MixedIn(sum: byte, d: byte) returns (mixed: byte)
    ensures mixed == Mix(sum, d)
  {
    mixed := sum ^ d;
    mixed := mixed ^ (d >> 4);
  }

  function CsOf(cmd: byte, data: seq<byte>, len: nat): byte
    requires len <= |data|
  {
    (SumOf(cmd, data, len) << 4) | CsCmd(cmd)
  }

  method CsCreate(cmd: byte, data: seq<byte>, len: nat) returns (cs: byte)
    requires len <= |data|
    ensures cs == CsOf(cmd, data, len)
  {
    var sum := CalcSum(cmd, data, len);
    cs := (sum << 4) | (cmd & 0x0f);
  }

  predicate Checks(cs: byte, data: seq<byte>, len: nat)
    requires len <= |data|
  {
    CsSum(cs) == SumOf(CsCmd(cs), data, len)
  }

  method CsCheck(cs: byte, data: seq<byte>, len: nat) returns (ok: bool)
    requires len <= |data|
    ensures ok == Checks(cs, data, len)
  {
    var sum := CalcSum(CsCmd(cs), data, len);
    ok := CsSum(cs) == sum;
  }

  /** The tables, row by row: which commands there are, which carry data to the slave, and how much. */
  lemma TablesAre(slave: Slave, cmd: byte)
    ensures Entry(slave, cmd).valid <==>
      if slave.Sens? then cmd in {1, 2, 3} else cmd in {1, 2, 8, 9, 10, 11, 12, 13, 14, 15}
    ensures Entry(slave, cmd).valid ==> Entry(slave, cmd).cmd == cmd && Entry(slave, cmd).slave == slave
    ensures Entry(slave, cmd).write <==> slave.Ctrl? && 8 <= cmd <= 15
    ensures Entry(slave, cmd).len == if slave.Sens? && cmd == 3 then 16 else if slave.Ctrl? && 8 <= cmd <= 15 then 4 else 0
    ensures AckOf(Sens) == 0x53 && AckOf(Ctrl) == 0xc7
  {
  }

  /** The byte on the wire: the command below, above it the command's own bits for data of even length, and
      for odd length these mixed with both halves of the first byte. */
  lemma WireByte(cmd: byte, data: seq<byte>, len: nat)
    requires len <= |data|
    ensures CsOf(cmd, data, len) & 0x0f == cmd & 0x0f
    ensures CsOf(cmd, data, len) >> 4 ==
      (if len % 2 == 0 then cmd & 0x0f else ((cmd & 0x0f) ^ (data[0] & 0x0f)) ^ (data[0] >> 4))
  {
    if len % 2 == 0 {
      WireBits(cmd, cmd & 0x0f);
    } else {
      MixedBits(cmd, data[0]);
      WireBits(cmd, Mix(cmd, data[0]) & 0x0f);
    }
  }

  lemma WireBits(cmd: byte, sum: byte)
    requires sum < 16
    ensures ((sum << 4) | CsCmd(cmd)) & 0x0f == cmd & 0x0f && ((sum << 4) | CsCmd(cmd)) >> 4 == sum
  {
  }

  lemma MixedBits(cmd: byte, d: byte)
    ensures Mix(cmd, d) & 0x0f == ((cmd & 0x0f) ^ (d & 0x0f)) ^ (d >> 4) < 16
  {
  }

  lemma NibblesSplit(sum: byte, cmd: byte)
    requires sum < 16
    ensures CsSum((sum << 4) | CsCmd(cmd)) == sum
    ensures CsCmd((sum << 4) | CsCmd(cmd)) == CsCmd(cmd)
  {
  }

  lemma SumIgnoresHighNibble(cmd: byte, d: byte)
    ensures Mix(cmd, d) & 0x0f == Mix(CsCmd(cmd), d) & 0x0f < 16
    ensures cmd & 0x0f == CsCmd(cmd) & 0x0f < 16
  {
  }

  /** Whatever is created is accepted, for every command byte, even one wider than the 4 bits
      that are sent, and for data of every length, none included. */
  lemma CreatedIsAccepted(cmd: byte, data: seq<byte>, len: nat)
    requires len <= |data|
    ensures CsCmd(CsOf(cmd, data, len)) == CsCmd(cmd)
    ensures Checks(CsOf(cmd, data, len), data, len)
  {
    hide Mix;
    hide CsCmd;
    hide CsSum;
    if len % 2 == 0 {
      SumIgnoresHighNibble(cmd, 0);
      NibblesSplit(cmd & 0x0f, cmd);
    } else {
      SumIgnoresHighNibble(cmd, data[0]);
      NibblesSplit(Mix(cmd, data[0]) & 0x0f, cmd);
    }
  }

  /** For the even lengths in use, acceptance is a matter of the first byte alone. */
  lemma EvenCheckReadsNoData(cs: byte, data: seq<byte>, len: nat)
    requires len <= |data| && len % 2 == 0
    ensures Checks(cs, data, len) <==> CsSum(cs) == CsCmd(cs)
  {
    assert CsCmd(cs) & 0x0f == CsCmd(cs);
  }
}
