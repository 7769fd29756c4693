/** The slave side of the bus as an automaton over the bytes the master clocks. */
module SlaveAutomaton {
  import opened Protocol

  /** A command the slave accepted, with the data bytes it took. */
  datatype Delivery = Delivery(cmd: byte, data: seq<byte>)

  /** Where the slave's code waits for the next byte. */
  datatype Phase =
    | Idle
    | Data(cs: byte, got: seq<byte>)
    | Ack(cmd: byte, got: seq<byte>)
    | ReturnCs(snap: seq<byte>)
    | ReturnData(snap: seq<byte>, k: nat)

  predicate WellFormed(slave: Slave, p: Phase) {
    match p
    case Idle => true
    case Data(cs, got) => Entry(slave, CsCmd(cs)).write && |got| < Entry(slave, CsCmd(cs)).len
    case Ack(cmd, got) =>
      && Entry(slave, cmd).valid
      && |got| == if Entry(slave, cmd).write then Entry(slave, cmd).len else 0
    case ReturnCs(snap) => slave.Sens? && |snap| == SENS_LEN
    case ReturnData(snap, k) => slave.Sens? && |snap| == SENS_LEN && k < SENS_LEN
  }

  /** The byte the slave puts on the line, where the code determines it. Elsewhere it is whatever
      the buffer or the data register held. */
  function Answer(slave: Slave, p: Phase): (miso: seq<byte>)
    ensures |miso| <= 1
  {
    match p
    case Idle => []
    case Data(_, _) => []
    case Ack(_, _) => [AckOf(slave)]
    case ReturnCs(snap) => if |snap| == SENS_LEN then [CsOf(BBS_GET, snap, SENS_LEN)] else []
    case ReturnData(snap, k) => if k < |snap| then [snap[k]] else []
  }

  /** One byte received; `sensors` is the slave's data at that moment. */
  function Next(slave: Slave, sensors: seq<byte>, p: Phase, mosi: byte): Phase {
    match p
    case Idle =>
      var bc := Entry(slave, CsCmd(mosi));
      if !bc.valid then Idle
      else if bc.write then Data(mosi, [])
      else Ack(bc.cmd, [])
    case Data(cs, got) =>
      var bc, data := Entry(slave, CsCmd(cs)), got + [mosi];
      if |data| < bc.len then Data(cs, data)
      else if |data| == bc.len && Checks(cs, data, bc.len) then Ack(bc.cmd, data)
      else Idle
    case Ack(cmd, _) =>
      if slave.Sens? && cmd == BBS_GET then ReturnCs(sensors) else Idle
    case ReturnCs(snap) => ReturnData(snap, 0)
    case ReturnData(snap, k) => if k + 1 < SENS_LEN then ReturnData(snap, k + 1) else Idle
  }

  /** What a step hands to the slave's own code: a command, as its acknowledgement is clocked out. */
  function Handed(p: Phase): seq<Delivery> {
    if p.Ack? then [Delivery(p.cmd, p.got)] else []
  }

  function Feed(slave: Slave, sensors: seq<byte>, p: Phase, mosi: seq<byte>): Phase {
    if mosi == [] then p
    else Next(slave, sensors, Feed(slave, sensors, p, mosi[..|mosi| - 1]), mosi[|mosi| - 1])
  }

  function Delivered(slave: Slave, sensors: seq<byte>, p: Phase, mosi: seq<byte>): seq<Delivery> {
    if mosi == [] then []
    else
      var front := mosi[..|mosi| - 1];
      Delivered(slave, sensors, p, front) + Handed(Feed(slave, sensors, p, front))
  }

  lemma FeedOne(slave: Slave, sensors: seq<byte>, p: Phase, mosi: seq<byte>, b: byte)
    ensures Feed(slave, sensors, p, mosi + [b]) == Next(slave, sensors, Feed(slave, sensors, p, mosi), b)
    ensures Delivered(slave, sensors, p, mosi + [b]) ==
      Delivered(slave, sensors, p, mosi) + Handed(Feed(slave, sensors, p, mosi))
  {
    assert (mosi + [b])[..|mosi|] == mosi;
  }

  lemma FeedNone(slave: Slave, sensors: seq<byte>, p: Phase)
    ensures Feed(slave, sensors, p, []) == p && Delivered(slave, sensors, p, []) == []
  {
  }

  /** The automaton along a longer and longer part of the bytes. */
  lemma FeedNext(slave: Slave, sensors: seq<byte>, p: Phase, mosi: seq<byte>, i: nat)
    requires i < |mosi|
    ensures Feed(slave, sensors, p, mosi[..i + 1]) == Next(slave, sensors, Feed(slave, sensors, p, mosi[..i]), mosi[i])
    ensures Delivered(slave, sensors, p, mosi[..i + 1]) ==
      Delivered(slave, sensors, p, mosi[..i]) + Handed(Feed(slave, sensors, p, mosi[..i]))
  {
    FeedOne(slave, sensors, p, mosi[..i], mosi[i]);
    assert mosi[..i + 1] == mosi[..i] + [mosi[i]];
    hide *;
  }

  lemma TransferOne(slave: Slave, sensors: seq<byte>, p: Phase, b: byte)
    ensures Feed(slave, sensors, p, [b]) == Next(slave, sensors, p, b)
    ensures Delivered(slave, sensors, p, [b]) == Handed(p)
    ensures Feed(slave, sensors, p, [b][..0]) == p
  {
    FeedNone(slave, sensors, p);
    FeedOne(slave, sensors, p, [], b);
    assert [] + [b] == [b] && [b][..0] == [];
    hide *;
  }

  lemma {:induction false} FeedConcat(slave: Slave, sensors: seq<byte>, p: Phase, a: seq<byte>, b: seq<byte>)
    ensures Feed(slave, sensors, p, a + b) == Feed(slave, sensors, Feed(slave, sensors, p, a), b)
    ensures Delivered(slave, sensors, p, a + b) ==
      Delivered(slave, sensors, p, a) + Delivered(slave, sensors, Feed(slave, sensors, p, a), b)
  {
    hide *;
    if b == [] {
      assert a + b == a;
      FeedNone(slave, sensors, Feed(slave, sensors, p, a));
    } else {
      var front, last := b[..|b| - 1], b[|b| - 1];
      assert b == front + [last] && a + b == (a + front) + [last];
      FeedConcat(slave, sensors, p, a, front);
      FeedOne(slave, sensors, p, a + front, last);
      FeedOne(slave, sensors, Feed(slave, sensors, p, a), front, last);
    }
  }

  /** What a waiting slave makes of a byte: by its lower half, the start of a write, a request to acknowledge,
      or nothing. */
  lemma IdleReads(slave: Slave, sensors: seq<byte>, b: byte)
    ensures var cmd, next := b & 0x0f, Next(slave, sensors, Idle, b);
      && (slave.Ctrl? && cmd >= 8 ==> next == Data(b, []))
      && (cmd in {1, 2} || (slave.Sens? && cmd == 3) ==> next == Ack(cmd, []))
      && (cmd == 0 || (slave.Ctrl? && 3 <= cmd < 8) || (slave.Sens? && cmd > 3) ==> next == Idle)
  {
  }

  /** And what follows the acknowledgement: the sensor data of that moment for a GET, the next command for
      all others. */
  lemma AckLeadsTo(slave: Slave, sensors: seq<byte>, cmd: byte, got: seq<byte>, b: byte)
    ensures Answer(slave, Ack(cmd, got)) == [AckOf(slave)]
    ensures Next(slave, sensors, Ack(cmd, got), b) == if slave.Sens? && cmd == 3 then ReturnCs(sensors) else Idle
  {
  }

  // ---------------------------------------------------------------------------
  // Self-stabilisation
  // ---------------------------------------------------------------------------

  lemma StepKeepsWellFormed(slave: Slave, sensors: seq<byte>, p: Phase, mosi: byte)
    requires WellFormed(slave, p) && |sensors| == SENS_LEN
    ensures WellFormed(slave, Next(slave, sensors, p, mosi))
  {
    assert CsCmd(mosi) < 16;
  }

  /** Noise of any kind leaves the slave somewhere well formed. */
  lemma {:induction false} FeedKeepsWellFormed(slave: Slave, sensors: seq<byte>, p: Phase, mosi: seq<byte>)
    requires WellFormed(slave, p) && |sensors| == SENS_LEN
    ensures WellFormed(slave, Feed(slave, sensors, p, mosi))
  {
    hide WellFormed;
    hide Next;
    if mosi != [] {
      FeedKeepsWellFormed(slave, sensors, p, mosi[..|mosi| - 1]);
      StepKeepsWellFormed(slave, sensors, Feed(slave, sensors, p, mosi[..|mosi| - 1]), mosi[|mosi| - 1]);
    }
  }

  /** How many more bytes the slave needs before it waits for a command again. */
  function BytesLeft(slave: Slave, p: Phase): nat
    requires WellFormed(slave, p)
  {
    match p
    case Idle => 0
    case Data(cs, got) => Entry(slave, CsCmd(cs)).len - |got| + if CsSum(cs) == CsCmd(cs) then 1 else 0
    case Ack(cmd, _) => if slave.Sens? && cmd == BBS_GET then 2 + SENS_LEN else 1
    case ReturnCs(_) => 1 + SENS_LEN
    case ReturnData(_, k) => SENS_LEN - k
  }

  /** No byte but the one that ends a wait for a command changes the remaining count. */
  lemma StepCountsDown(slave: Slave, sensors: seq<byte>, p: Phase, mosi: byte)
    requires WellFormed(slave, p) && |sensors| == SENS_LEN
    requires p.Idle? ==> mosi == 0
    ensures WellFormed(slave, Next(slave, sensors, p, mosi))
    ensures BytesLeft(slave, Next(slave, sensors, p, mosi)) ==
      if p.Idle? then 0 else BytesLeft(slave, p) - 1
  {
    StepKeepsWellFormed(slave, sensors, p, mosi);
    if p.Data? && |p.got| + 1 == Entry(slave, CsCmd(p.cs)).len {
      EvenCheckReadsNoData(p.cs, p.got + [mosi], CTRL_LEN);
    }
  }

  function Zeros(n: nat): (zeros: seq<byte>)
    ensures |zeros| == n
  {
    seq(n, _ => 0)
  }

  lemma {:induction false} ZerosCountDown(slave: Slave, sensors: seq<byte>, p: Phase, n: nat)
    requires WellFormed(slave, p) && |sensors| == SENS_LEN
    ensures WellFormed(slave, Feed(slave, sensors, p, Zeros(n)))
    ensures BytesLeft(slave, Feed(slave, sensors, p, Zeros(n))) ==
      if n <= BytesLeft(slave, p) then BytesLeft(slave, p) - n else 0
  {
    hide WellFormed;
    hide BytesLeft;
    hide Next;
    if n > 0 {
      assert Zeros(n) == Zeros(n - 1) + [0];
      ZerosCountDown(slave, sensors, p, n - 1);
      FeedOne(slave, sensors, p, Zeros(n - 1), 0);
      StepCountsDown(slave, sensors, Feed(slave, sensors, p, Zeros(n - 1)), 0);
      IdleIsZero(slave, Feed(slave, sensors, p, Zeros(n - 1)));
    }
  }

  lemma IdleIsZero(slave: Slave, p: Phase)
    requires WellFormed(slave, p)
    ensures p.Idle? <==> BytesLeft(slave, p) == 0
    ensures BytesLeft(slave, p) <= MAX_DATA_LENGTH + 2
  {
    assert p.Data? ==> Entry(slave, CsCmd(p.cs)).len == CTRL_LEN;
  }

  /** A burst of n zero bytes leaves the slave waiting for a command if and only if n reaches the
      count of its phase; MAX_DATA_LENGTH + 2 always does. */
  lemma SyncReachesIdle(slave: Slave, sensors: seq<byte>, p: Phase, n: nat)
    requires WellFormed(slave, p) && |sensors| == SENS_LEN
    ensures Feed(slave, sensors, p, Zeros(n)).Idle? <==> n >= BytesLeft(slave, p)
    ensures n >= MAX_DATA_LENGTH + 2 ==> Feed(slave, sensors, p, Zeros(n)).Idle?
  {
    ZerosCountDown(slave, sensors, p, n);
    IdleIsZero(slave, p);
    IdleIsZero(slave, Feed(slave, sensors, p, Zeros(n)));
  }

  /** The burst length is tight: right after a GET was received, one byte fewer is not enough. */
  lemma SyncBoundIsTight(sensors: seq<byte>, n: nat)
    requires |sensors| == SENS_LEN
    ensures Feed(Sens, sensors, Feed(Sens, sensors, Idle, [CsOf(BBS_GET, [], 0)]), Zeros(n)).Idle? <==>
      n >= MAX_DATA_LENGTH + 2
  {
    assert CsCmd(CsOf(BBS_GET, [], 0)) == BBS_GET;
    FeedOne(Sens, sensors, Idle, [], CsOf(BBS_GET, [], 0));
    assert [] + [CsOf(BBS_GET, [], 0)] == [CsOf(BBS_GET, [], 0)];
    SyncReachesIdle(Sens, sensors, Ack(BBS_GET, []), n);
  }

  /** What n zero bytes make the slave hand over: the command that was under way, if n suffices. A broken
      write is completed with zeros, and accepted nevertheless if its checksum byte passes at all. */
  ghost function Flushed(slave: Slave, p: Phase, n: nat): (handed: seq<Delivery>)
    requires WellFormed(slave, p)
    ensures |handed| <= 1
  {
    match p
    case Data(cs, got) =>
      var missing := Entry(slave, CsCmd(cs)).len - |got|;
      if CsSum(cs) == CsCmd(cs) && n > missing then [Delivery(CsCmd(cs), got + Zeros(missing))] else []
    case Ack(cmd, got) => if n > 0 then [Delivery(cmd, got)] else []
    case _ => []
  }

  lemma FlushedStep(slave: Slave, sensors: seq<byte>, p: Phase, n: nat)
    requires WellFormed(slave, p) && |sensors| == SENS_LEN && n > 0
    ensures WellFormed(slave, Next(slave, sensors, p, 0))
    ensures Flushed(slave, p, n) == Handed(p) + Flushed(slave, Next(slave, sensors, p, 0), n - 1)
  {
    StepKeepsWellFormed(slave, sensors, p, 0);
    if p.Data? {
      var bc := Entry(slave, CsCmd(p.cs));
      var missing := bc.len - |p.got|;
      assert p.got + Zeros(missing) == p.got + [0] + Zeros(missing - 1);
      assert bc.cmd == CsCmd(p.cs) && bc.len == CTRL_LEN;
      if missing == 1 {
        assert p.got + Zeros(1) == p.got + [0];
        EvenCheckReadsNoData(p.cs, p.got + [0], CTRL_LEN);
      }
    }
  }

  lemma FeedCons(slave: Slave, sensors: seq<byte>, p: Phase, b: byte, rest: seq<byte>)
    ensures Delivered(slave, sensors, p, [b] + rest) ==
      Handed(p) + Delivered(slave, sensors, Next(slave, sensors, p, b), rest)
  {
    hide *;
    TransferOne(slave, sensors, p, b);
    FeedConcat(slave, sensors, p, [b], rest);
  }

  /** Clocking zeros hands over exactly that, so at most one command. */
  lemma {:induction false} SyncHandsOver(slave: Slave, sensors: seq<byte>, p: Phase, n: nat)
    requires WellFormed(slave, p) && |sensors| == SENS_LEN
    ensures Delivered(slave, sensors, p, Zeros(n)) == Flushed(slave, p, n)
    decreases n
  {
    if n == 0 {
      assert Zeros(0) == [];
    } else {
      hide WellFormed;
      hide Next;
      hide Handed;
      hide Flushed;
      hide Delivered;
      assert Zeros(n) == [0] + Zeros(n - 1);
      FeedCons(slave, sensors, p, 0, Zeros(n - 1));
      FlushedStep(slave, sensors, p, n);
      SyncHandsOver(slave, sensors, Next(slave, sensors, p, 0), n - 1);
    }
  }

  // ---------------------------------------------------------------------------
  // Whole transactions
  // ---------------------------------------------------------------------------

  /** The data phase collects its bytes... */
  lemma {:induction false} DataCollects(slave: Slave, sensors: seq<byte>, cs: byte, got: seq<byte>)
    requires |got| < Entry(slave, CsCmd(cs)).len
    ensures Feed(slave, sensors, Data(cs, []), got) == Data(cs, got)
    ensures Delivered(slave, sensors, Data(cs, []), got) == []
  {
    hide Checks;
    hide CsCmd;
    hide Feed;
    hide Delivered;
    if got == [] {
      FeedNone(slave, sensors, Data(cs, []));
    } else {
      var front, last := got[..|got| - 1], got[|got| - 1];
      DataCollects(slave, sensors, cs, front);
      assert front + [last] == got;
      FeedOne(slave, sensors, Data(cs, []), front, last);
    }
  }

  /** ...and then checks them. */
  lemma DataPhase(slave: Slave, sensors: seq<byte>, cs: byte, data: seq<byte>)
    requires data != [] && |data| == Entry(slave, CsCmd(cs)).len
    ensures Feed(slave, sensors, Data(cs, []), data) ==
      if Checks(cs, data, |data|) then Ack(Entry(slave, CsCmd(cs)).cmd, data) else Idle
    ensures Delivered(slave, sensors, Data(cs, []), data) == []
  {
    hide Checks;
    hide CsCmd;
    hide Feed;
    hide Delivered;
    var front, last := data[..|data| - 1], data[|data| - 1];
    DataCollects(slave, sensors, cs, front);
    assert front + [last] == data;
    FeedOne(slave, sensors, Data(cs, []), front, last);
  }

  /** The return phase runs through the snapshot, whatever the master clocks. */
  lemma {:induction false} Returning(sensors: seq<byte>, snap: seq<byte>, bytes: seq<byte>)
    requires |snap| == SENS_LEN && |bytes| <= SENS_LEN
    ensures Feed(Sens, sensors, ReturnData(snap, 0), bytes) ==
      if |bytes| < SENS_LEN then ReturnData(snap, |bytes|) else Idle
    ensures Delivered(Sens, sensors, ReturnData(snap, 0), bytes) == []
  {
    if bytes != [] {
      Returning(sensors, snap, bytes[..|bytes| - 1]);
    }
  }
}
