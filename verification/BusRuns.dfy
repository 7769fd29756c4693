/** The bus over every interleaving of its threads: what reaches the slaves, and what comes back. */
module BusRuns {
  import opened Protocol
  import opened OrderBus
  import opened OrderSteps
  import opened SlaveAutomaton
  import opened SpiMaster
  import opened BusWorker

  // ---------------------------------------------------------------------------
  // What the slaves are given
  // ---------------------------------------------------------------------------

  /** The write commands among those a slave was handed. */
  ghost function WritesIn(slave: Slave, handed: seq<Delivery>): seq<Delivery> {
    if handed == [] then []
    else
      var front, last := handed[..|handed| - 1], handed[|handed| - 1];
      WritesIn(slave, front) + if Protocol.Entry(slave, last.cmd).write then [last] else []
  }

  /** The write orders for a slave. */
  ghost function WritesFor(slave: Slave, orders: seq<OrderSteps.Entry>): seq<OrderSteps.Entry> {
    if orders == [] then []
    else
      var front, last := orders[..|orders| - 1], orders[|orders| - 1];
      WritesFor(slave, front) + if last.cmd.slave == slave && last.cmd.write then [last] else []
  }

  /** What a slave is handed for orders that are sent, in order: the write orders come with the data
      they were scheduled with. */
  ghost function HandedFor(slave: Slave, orders: seq<OrderSteps.Entry>, values: seq<seq<byte>>): seq<Delivery>
    requires forall e | e in orders && e.cmd.write :: e.num < |values|
  {
    if orders == [] then []
    else
      HandedOver(slave, HandedFor(slave, orders[..|orders| - 1], values), orders[|orders| - 1], values)
  }

  ghost function HandedOver(slave: Slave, handed: seq<Delivery>, e: OrderSteps.Entry, values: seq<seq<byte>>): seq<Delivery>
    requires e.cmd.write ==> e.num < |values|
  {
    if e.cmd.slave != slave then handed
    else handed + [Delivery(e.cmd.cmd, if e.cmd.write then values[e.num] else [])]
  }

  /** The writes that the slave was handed are exactly the write orders delivered to it, with their data. */
  ghost predicate GivenWrites(slave: Slave, handed: seq<Delivery>, delivered: seq<OrderSteps.Entry>,
                              values: seq<seq<byte>>)
  {
    var orders, writes := WritesFor(slave, delivered), WritesIn(slave, handed);
    && |writes| == |orders|
    && forall i | 0 <= i < |orders| ::
         orders[i].num < |values| && writes[i] == Delivery(orders[i].cmd.cmd, values[orders[i].num])
  }

  /** The slave was handed exactly the attempts made at its orders. */
  ghost predicate GivenTries(slave: Slave, handed: seq<Delivery>, tried: seq<OrderSteps.Entry>, values: seq<seq<byte>>) {
    && (forall e | e in tried && e.cmd.write :: e.num < |values|)
    && handed == HandedFor(slave, tried, values)
  }

  ghost predicate Given(slave: Slave, handed: seq<Delivery>, s: OrderSteps.State, values: seq<seq<byte>>) {
    GivenWrites(slave, handed, s.delivered, values) && GivenTries(slave, handed, s.tried, values)
  }

  lemma {:induction false} HandedForNewValues(slave: Slave, orders: seq<OrderSteps.Entry>,
                                              values: seq<seq<byte>>, more: seq<seq<byte>>)
    requires forall e | e in orders && e.cmd.write :: e.num < |values|
    requires |values| <= |more| && more[..|values|] == values
    ensures HandedFor(slave, orders, more) == HandedFor(slave, orders, values)
  {
    if orders != [] {
      HandedForNewValues(slave, orders[..|orders| - 1], values, more);
      var e := orders[|orders| - 1];
      assert e in orders;
      assert e.cmd.write ==> more[e.num] == more[..|values|][e.num];
    }
  }

  lemma GivenToNewValues(slave: Slave, handed: seq<Delivery>, s: OrderSteps.State, s': OrderSteps.State,
                         values: seq<seq<byte>>, more: seq<seq<byte>>)
    requires Given(slave, handed, s, values) && s'.delivered == s.delivered && s'.tried == s.tried
    requires |values| <= |more| && more[..|values|] == values
    ensures Given(slave, handed, s', more)
  {
    assert forall k | 0 <= k < |values| :: more[k] == more[..|values|][k];
    HandedForNewValues(slave, s.tried, values, more);
    hide HandedFor;
  }

  lemma WritesOneMore(slave: Slave, handed: seq<Delivery>, delivered: seq<OrderSteps.Entry>, values: seq<seq<byte>>,
                      e: OrderSteps.Entry, success: bool)
    requires InTable(e.cmd) && (e.cmd.write ==> success && e.num < |values|)
    ensures var here := e.cmd.slave == slave && e.cmd.write;
      && WritesFor(slave, if success then delivered + [e] else delivered) ==
           (if here then WritesFor(slave, delivered) + [e] else WritesFor(slave, delivered))
      && WritesIn(slave, HandedOver(slave, handed, e, values)) ==
           (if here then WritesIn(slave, handed) + [Delivery(e.cmd.cmd, values[e.num])] else WritesIn(slave, handed))
  {
    var d := Delivery(e.cmd.cmd, if e.cmd.write then values[e.num] else []);
    assert (delivered + [e])[..|delivered|] == delivered && (handed + [d])[..|handed|] == handed;
  }

  lemma GivenOneWrite(slave: Slave, handed: seq<Delivery>, delivered: seq<OrderSteps.Entry>, values: seq<seq<byte>>,
                      e: OrderSteps.Entry, success: bool)
    requires GivenWrites(slave, handed, delivered, values)
    requires InTable(e.cmd) && (e.cmd.write ==> success && e.num < |values|)
    ensures GivenWrites(slave, HandedOver(slave, handed, e, values),
                        if success then delivered + [e] else delivered, values)
  {
    WritesOneMore(slave, handed, delivered, values, e, success);
    hide WritesFor;
    hide WritesIn;
    hide HandedOver;
    hide InTable;
  }

  lemma GivenOneTry(slave: Slave, handed: seq<Delivery>, tried: seq<OrderSteps.Entry>, values: seq<seq<byte>>,
                    e: OrderSteps.Entry)
    requires GivenTries(slave, handed, tried, values) && (e.cmd.write ==> e.num < |values|)
    ensures GivenTries(slave, HandedOver(slave, handed, e, values), tried + [e], values)
  {
    assert (tried + [e])[..|tried|] == tried;
    hide HandedOver;
  }

  lemma GivenOneMore(slave: Slave, handed: seq<Delivery>, s: OrderSteps.State, s': OrderSteps.State,
                     values: seq<seq<byte>>, e: OrderSteps.Entry, success: bool)
    requires Given(slave, handed, s, values) && InTable(e.cmd)
    requires e.cmd.write ==> success && e.num < |values|
    requires s'.delivered == (if success then s.delivered + [e] else s.delivered) && s'.tried == s.tried + [e]
    ensures Given(slave, HandedOver(slave, handed, e, values), s', values)
  {
    GivenOneWrite(slave, handed, s.delivered, values, e, success);
    GivenOneTry(slave, handed, s.tried, values, e);
    hide GivenWrites;
    hide GivenTries;
    hide HandedOver;
    hide InTable;
  }

  /** Picking the write orders of a slave leaves them in their order. */
  lemma {:induction false} WritesStayIncreasing(slave: Slave, orders: seq<OrderSteps.Entry>)
    requires Increasing(orders)
    ensures Increasing(WritesFor(slave, orders))
    ensures forall e | e in WritesFor(slave, orders) :: e in orders
  {
    if orders != [] {
      var front, last := orders[..|orders| - 1], orders[|orders| - 1];
      assert orders == front + [last];
      WritesStayIncreasing(slave, front);
      var writes := WritesFor(slave, front);
      forall i | 0 <= i < |writes| && writes[i].cmd == last.cmd
        ensures writes[i].num < last.num
      {
        assert writes[i] in front;
      }
    }
  }

  // ---------------------------------------------------------------------------
  // What the handlers are told
  // ---------------------------------------------------------------------------

  type Calls = seq<(BusCmd, seq<byte>)>

  /** The sensor data among what handlers were called with. */
  ghost function GotFrom(told: seq<(BusCmd, seq<byte>)>): seq<seq<byte>> {
    if told == [] then []
    else
      var front, last := told[..|told| - 1], told[|told| - 1];
      GotFrom(front) + if last.0 == Protocol.Entry(Sens, BBS_GET) then [last.1] else []
  }

  /** Each of these is one of the first n readings, and none is older than the one before it. */
  ghost predicate Follows(got: seq<seq<byte>>, readings: seq<seq<byte>>, n: nat) {
    got == [] ||
    exists k: nat ::
      k < n && k < |readings| && got[|got| - 1] == readings[k] && Follows(got[..|got| - 1], readings, k + 1)
  }

  lemma {:induction false} FollowsLonger(got: seq<seq<byte>>, readings: seq<seq<byte>>, n: nat, r: seq<byte>, m: nat)
    requires Follows(got, readings, n) && n <= m
    ensures Follows(got, readings + [r], m)
    decreases |got|
  {
    if got != [] {
      var k: nat :| k < n && k < |readings| && got[|got| - 1] == readings[k] && Follows(got[..|got| - 1], readings, k + 1);
      FollowsLonger(got[..|got| - 1], readings, k + 1, r, k + 1);
      assert (readings + [r])[k] == readings[k];
    }
  }

  /** A handler is told the latest reading. */
  lemma FollowsLatest(told: seq<(BusCmd, seq<byte>)>, call: (BusCmd, seq<byte>), readings: seq<seq<byte>>)
    requires Follows(GotFrom(told), readings, |readings|) && readings != []
    requires call.0 == Protocol.Entry(Sens, BBS_GET) ==> call.1 == readings[|readings| - 1]
    ensures Follows(GotFrom(told + [call]), readings, |readings|)
  {
    assert (told + [call])[..|told|] == told;
    var got, k := GotFrom(told), |readings| - 1;
    if call.0 == Protocol.Entry(Sens, BBS_GET) {
      assert GotFrom(told + [call]) == got + [call.1] && (got + [call.1])[..|got|] == got;
      assert call.1 == readings[k] && Follows(got, readings, k + 1);
    } else {
      assert GotFrom(told + [call]) == got;
    }
  }

  /** The delivered orders that were scheduled with a handler. */
  ghost function WithHandler(delivered: seq<OrderSteps.Entry>, handlers: seq<bool>): seq<OrderSteps.Entry> {
    if delivered == [] then []
    else
      var front, last := delivered[..|delivered| - 1], delivered[|delivered| - 1];
      WithHandler(front, handlers) + if last.num < |handlers| && handlers[last.num] then [last] else []
  }

  /** The handlers were called exactly once, and in order, for the orders delivered that have one, and
      for no others; those of writes with the data that was written. */
  ghost predicate Told(told: Calls, delivered: seq<OrderSteps.Entry>, values: seq<seq<byte>>, handlers: seq<bool>) {
    var orders := WithHandler(delivered, handlers);
    && |values| == |handlers| && |told| == |orders|
    && (forall i | 0 <= i < |delivered| :: delivered[i].num < |handlers|)
    && forall i | 0 <= i < |orders| ::
         && told[i].0 == orders[i].cmd
         && (orders[i].cmd.write ==> orders[i].num < |values| && told[i].1 == values[orders[i].num])
  }

  lemma {:induction false} SameHandlers(delivered: seq<OrderSteps.Entry>, handlers: seq<bool>, more: seq<bool>)
    requires forall i | 0 <= i < |delivered| :: delivered[i].num < |handlers|
    requires |handlers| <= |more| && more[..|handlers|] == handlers
    ensures WithHandler(delivered, more) == WithHandler(delivered, handlers)
  {
    if delivered != [] {
      var last := delivered[|delivered| - 1];
      SameHandlers(delivered[..|delivered| - 1], handlers, more);
      assert more[last.num] == more[..|handlers|][last.num];
    }
  }

  lemma ToldStays(told: Calls, delivered: seq<OrderSteps.Entry>, values: seq<seq<byte>>, handlers: seq<bool>,
                  values': seq<seq<byte>>, handlers': seq<bool>)
    requires Told(told, delivered, values, handlers) && |values'| == |handlers'| >= |values|
    requires values'[..|values|] == values && handlers'[..|handlers|] == handlers
    ensures Told(told, delivered, values', handlers')
  {
    SameHandlers(delivered, handlers, handlers');
    assert forall k | 0 <= k < |values| :: values'[k] == values'[..|values|][k];
    hide WithHandler;
  }

  lemma ToldOneMore(told: Calls, delivered: seq<OrderSteps.Entry>, values: seq<seq<byte>>, handlers: seq<bool>,
                    e: OrderSteps.Entry, call: Calls)
    requires Told(told, delivered, values, handlers) && e.num < |handlers|
    requires if handlers[e.num] then
               |call| == 1 && call[0].0 == e.cmd && (e.cmd.write ==> call[0].1 == values[e.num])
             else call == []
    ensures Told(told + call, delivered + [e], values, handlers)
  {
    assert (delivered + [e])[..|delivered|] == delivered;
    var orders := WithHandler(delivered, handlers);
    assert WithHandler(delivered + [e], handlers) == if handlers[e.num] then orders + [e] else orders;
    if !handlers[e.num] {
      assert told + call == told;
    }
    hide WithHandler;
  }

  // ---------------------------------------------------------------------------
  // Every interleaving
  // ---------------------------------------------------------------------------

  /** What the threads and the world can do next. */
  datatype Action =
    | Post(bc: BusCmd, msg: seq<byte>, handler: bool) // any thread schedules an order
    | TakeNext                                        // the worker takes an order
    | SendIt                                          // the worker sends the order it holds
    | Measure(data: seq<byte>)                        // the sensor module has new data
    | Stop                                            // the worker is asked to stop

  ghost predicate Sensible(a: Action) {
    match a
    case Post(bc, msg, _) => InTable(bc) && (bc.write ==> bc.len <= |msg|)
    case Measure(data) => |data| == SENS_LEN
    case _ => true
  }

  lemma AfterStep(history: seq<Step>, step: Step)
    requires Allowed(START, history) && Enabled(Run(START, history), step)
    ensures Allowed(START, history + [step])
    ensures var s, s' := Run(START, history), Run(START, history + [step]);
      && s'.delivered == s.delivered + (if step.Succeed? then s.taken else [])
      && s'.tried == s.tried + (if step.Succeed? || step.Fail? then s.taken else [])
    ensures SchedulesTable(history) && (step.Schedule? ==> InTable(step.cmd)) ==> SchedulesTable(history + [step])
  {
    RunSnoc(START, history, step);
  }

  lemma TakenFromTable(history: seq<Step>)
    requires Allowed(START, history) && SchedulesTable(history)
    ensures forall e | e in Run(START, history).taken :: InTable(e.cmd)
  {
    QueuedFromTable(START, history);
  }

  function Outcome(success: bool): Step { if success then Succeed else Fail }

  /** The slaves have been given exactly what was sent, and the handlers readings of the sensors, in order. */
  ghost predicate Kept(history: seq<Step>, values: seq<seq<byte>>, toSens: seq<Delivery>, toCtrl: seq<Delivery>,
                       told: Calls, readings: seq<seq<byte>>)
  {
    && Allowed(START, history) && SchedulesTable(history)
    && Given(Sens, toSens, Run(START, history), values)
    && Given(Ctrl, toCtrl, Run(START, history), values)
    && readings != [] && Follows(GotFrom(told), readings, |readings|)
  }

  lemma KeptByStep(history: seq<Step>, step: Step, values: seq<seq<byte>>, more: seq<seq<byte>>,
                   toSens: seq<Delivery>, toCtrl: seq<Delivery>, told: Calls, readings: seq<seq<byte>>)
    requires Kept(history, values, toSens, toCtrl, told, readings)
    requires Enabled(Run(START, history), step) && !step.Succeed? && !step.Fail?
    requires step.Schedule? ==> InTable(step.cmd)
    requires |values| <= |more| && more[..|values|] == values
    ensures Kept(history + [step], more, toSens, toCtrl, told, readings)
  {
    hide Given;
    hide Follows;
    hide GotFrom;
    AfterStep(history, step);
    GivenToNewValues(Sens, toSens, Run(START, history), Run(START, history + [step]), values, more);
    GivenToNewValues(Ctrl, toCtrl, Run(START, history), Run(START, history + [step]), values, more);
  }

  lemma KeptBySending(history: seq<Step>, e: OrderSteps.Entry, success: bool, values: seq<seq<byte>>,
                      toSens: seq<Delivery>, toCtrl: seq<Delivery>, told: Calls, call: seq<(BusCmd, seq<byte>)>,
                      readings: seq<seq<byte>>)
    requires Kept(history, values, toSens, toCtrl, told, readings)
    requires Run(START, history).taken == [e] && (e.cmd.write ==> success && e.num < |values|)
    requires call == [] || (|call| == 1 &&
               (call[0].0 == Protocol.Entry(Sens, BBS_GET) ==> call[0].1 == readings[|readings| - 1]))
    ensures Kept(history + [Outcome(success)], values, HandedOver(Sens, toSens, e, values),
                 HandedOver(Ctrl, toCtrl, e, values), told + call, readings)
  {
    hide Given;
    hide HandedOver;
    GivenAfter(Sens, toSens, history, values, e, success);
    GivenAfter(Ctrl, toCtrl, history, values, e, success);
    if call == [] {
      assert told + call == told;
    } else {
      assert told + call == told + [call[0]];
      FollowsLatest(told, call[0], readings);
    }
    hide Follows;
    hide GotFrom;
  }

  lemma KeptByMeasuring(history: seq<Step>, values: seq<seq<byte>>, toSens: seq<Delivery>, toCtrl: seq<Delivery>,
                        told: Calls, readings: seq<seq<byte>>, r: seq<byte>)
    requires Kept(history, values, toSens, toCtrl, told, readings)
    ensures Kept(history, values, toSens, toCtrl, told, readings + [r])
  {
    FollowsLonger(GotFrom(told), readings, |readings|, r, |readings| + 1);
    hide Follows;
    hide GotFrom;
    hide Given;
  }

  /** All that a run keeps. */
  ghost predicate Sound(history: seq<Step>, values: seq<seq<byte>>, handlers: seq<bool>, toSens: seq<Delivery>,
                        toCtrl: seq<Delivery>, told: Calls, readings: seq<seq<byte>>)
  {
    && Kept(history, values, toSens, toCtrl, told, readings)
    && Told(told, Run(START, history).delivered, values, handlers)
  }

  lemma SoundByStep(history: seq<Step>, step: Step, values: seq<seq<byte>>, values': seq<seq<byte>>,
                    handlers: seq<bool>, handlers': seq<bool>,
                    toSens: seq<Delivery>, toCtrl: seq<Delivery>, told: Calls, readings: seq<seq<byte>>)
    requires Sound(history, values, handlers, toSens, toCtrl, told, readings)
    requires Enabled(Run(START, history), step) && !step.Succeed? && !step.Fail?
    requires step.Schedule? ==> InTable(step.cmd)
    requires |values'| == |handlers'| >= |values|
    requires values'[..|values|] == values && handlers'[..|handlers|] == handlers
    ensures Sound(history + [step], values', handlers', toSens, toCtrl, told, readings)
  {
    KeptByStep(history, step, values, values', toSens, toCtrl, told, readings);
    AfterStep(history, step);
    ToldStays(told, Run(START, history).delivered, values, handlers, values', handlers');
    assert Run(START, history + [step]).delivered == Run(START, history).delivered;
    hide Kept;
    hide Told;
    hide Run;
  }

  lemma SoundBySending(history: seq<Step>, e: OrderSteps.Entry, success: bool, values: seq<seq<byte>>,
                       handlers: seq<bool>, toSens: seq<Delivery>, toCtrl: seq<Delivery>, told: Calls, call: Calls,
                       readings: seq<seq<byte>>)
    requires Sound(history, values, handlers, toSens, toCtrl, told, readings)
    requires Run(START, history).taken == [e] && e.num < |values| == |handlers| && (e.cmd.write ==> success)
    requires if success && handlers[e.num] then
               && |call| == 1 && call[0].0 == e.cmd && (e.cmd.write ==> call[0].1 == values[e.num])
               && (e.cmd == Protocol.Entry(Sens, BBS_GET) ==> call[0].1 == readings[|readings| - 1])
             else call == []
    ensures Sound(history + [Outcome(success)], values, handlers, HandedOver(Sens, toSens, e, values),
                  HandedOver(Ctrl, toCtrl, e, values), told + call, readings)
  {
    KeptBySending(history, e, success, values, toSens, toCtrl, told, call, readings);
    AfterStep(history, Outcome(success));
    var delivered := Run(START, history).delivered;
    assert Run(START, history + [Outcome(success)]).delivered == if success then delivered + [e] else delivered;
    if success {
      ToldOneMore(told, delivered, values, handlers, e, call);
    } else {
      assert told + call == told;
    }
    hide Kept;
    hide Told;
    hide Run;
  }

  lemma GivenAfter(slave: Slave, handed: seq<Delivery>, history: seq<Step>, values: seq<seq<byte>>,
                   e: OrderSteps.Entry, success: bool)
    requires Allowed(START, history) && SchedulesTable(history) && Run(START, history).taken == [e]
    requires Given(slave, handed, Run(START, history), values)
    requires e.cmd.write ==> success && e.num < |values|
    ensures Allowed(START, history + [Outcome(success)]) && SchedulesTable(history + [Outcome(success)])
    ensures Given(slave, HandedOver(slave, handed, e, values), Run(START, history + [Outcome(success)]), values)
  {
    TakenFromTable(history);
    AfterStep(history, Outcome(success));
    hide Given;
    hide HandedOver;
    GivenOneMore(slave, handed, Run(START, history), Run(START, history + [Outcome(success)]), values, e, success);
  }

  /** Both slaves wait for a command, and all has gone as it should so far. */
  ghost predicate Working(bus: Bus, sens: Link, ctrl: Link)
    reads bus, bus.nodes, if bus.order == null then {} else {bus.order}, sens, ctrl
  {
    && bus.Valid() && sens.Valid() && ctrl.Valid()
    && sens.slave.Sens? && ctrl.slave.Ctrl? && sens.phase.Idle? && ctrl.phase.Idle?
    && Sound(bus.history, bus.values, bus.handlers, sens.handed, ctrl.handed, bus.told, sens.readings)
  }

  lemma TakenIsHeld(bus: Bus)
    requires bus.Valid() && bus.order != null && SchedulesTable(bus.history)
    ensures Allowed(START, bus.history) && Run(START, bus.history).taken == [EntryOf(bus.order)]
    ensures InTable(bus.order.bc)
  {
    TakenFromTable(bus.history);
  }

  /** What Working says of an order that is held. */
  lemma HeldFacts(bus: Bus, sens: Link, ctrl: Link)
    requires Working(bus, sens, ctrl) && bus.order != null
    ensures bus.Valid() && sens.Valid() && ctrl.Valid()
    ensures sens.slave.Sens? && ctrl.slave.Ctrl? && sens.phase.Idle? && ctrl.phase.Idle?
    ensures Sound(bus.history, bus.values, bus.handlers, sens.handed, ctrl.handed, bus.told, sens.readings)
    ensures Allowed(START, bus.history) && Run(START, bus.history).taken == [EntryOf(bus.order)]
    ensures bus.order.num < |bus.values| == |bus.handlers| && bus.order.handler == bus.handlers[bus.order.num]
    ensures InTable(bus.order.bc) && sens.readings != [] && sens.sensors == sens.readings[|sens.readings| - 1]
  {
    TakenIsHeld(bus);
  }

  lemma WorkingFacts(bus: Bus, sens: Link, ctrl: Link)
    requires Working(bus, sens, ctrl)
    ensures bus.Valid() && sens.Valid() && ctrl.Valid() && Allowed(START, bus.history)
    ensures sens.slave.Sens? && ctrl.slave.Ctrl? && sens.phase.Idle? && ctrl.phase.Idle?
    ensures Sound(bus.history, bus.values, bus.handlers, sens.handed, ctrl.handed, bus.told, sens.readings)
  {
  }

  lemma Whole<T>(s: seq<T>)
    ensures s[..|s|] == s
  {
  }

  lemma StillWorking(bus: Bus, sens: Link, ctrl: Link)
    requires bus.Valid() && sens.Valid() && ctrl.Valid()
    requires sens.slave.Sens? && ctrl.slave.Ctrl? && sens.phase.Idle? && ctrl.phase.Idle?
    requires Sound(bus.history, bus.values, bus.handlers, sens.handed, ctrl.handed, bus.told, sens.readings)
    ensures Working(bus, sens, ctrl)
  {
  }

  /** Sends the order the worker holds over the link to its slave. */
  method SendToSlave(bus: Bus, sens: Link, ctrl: Link, o: Order) returns (success: bool)
    requires bus.Valid() && sens.Valid() && ctrl.Valid() && bus.order == o && InTable(o.bc)
    requires sens.slave.Sens? && ctrl.slave.Ctrl? && sens.phase.Idle? && ctrl.phase.Idle?
    modifies bus, bus.nodes`next, o, sens, ctrl
    ensures bus.Valid() && sens.Valid() && ctrl.Valid() && sens.phase.Idle? && ctrl.phase.Idle?
    ensures bus.order == null && bus.values == old(bus.values) && bus.handlers == old(bus.handlers)
    ensures bus.history == old(bus.history) + [Outcome(success)]
    ensures sens.sensors == old(sens.sensors) && sens.readings == old(sens.readings)
    ensures forall i | 0 <= i < |bus.nodes| :: bus.nodes[i] in old(bus.nodes) || bus.nodes[i] == o
    ensures o.num < |bus.values| && (o.bc.write ==> success && o.srcDst == bus.values[o.num])
    ensures o.bc == Protocol.Entry(Sens, BBS_GET) ==> success && o.srcDst == old(sens.sensors)
    ensures sens.handed == HandedOver(Sens, old(sens.handed), EntryOf(o), bus.values)
    ensures ctrl.handed == HandedOver(Ctrl, old(ctrl.handed), EntryOf(o), bus.values)
    ensures bus.told == old(bus.told) + (if success && o.handler then [(o.bc, o.srcDst)] else [])
  {
    hide Bus.Valid;
    hide Link.Valid;
    hide InTable;
    if bus.order.bc.slave.Sens? {
      success := Send(bus, sens);
    } else {
      success := Send(bus, ctrl);
    }
  }

  /** The worker sends the order it holds. */
  method Settle(bus: Bus, sens: Link, ctrl: Link, o: Order) returns (success: bool)
    requires Working(bus, sens, ctrl) && bus.order == o
    modifies bus, bus.nodes`next, o, sens, ctrl
    ensures Working(bus, sens, ctrl) && bus.order == null
    ensures bus.values == old(bus.values) && bus.handlers == old(bus.handlers) && sens.readings == old(sens.readings)
    ensures bus.history == old(bus.history) + [Outcome(success)]
    ensures o.bc.write || o.bc == Protocol.Entry(Sens, BBS_GET) ==> success
    ensures forall i | 0 <= i < |bus.nodes| :: bus.nodes[i] in old(bus.nodes) || bus.nodes[i] == o
    ensures o.num < |bus.values|
    ensures sens.handed == HandedOver(Sens, old(sens.handed), EntryOf(o), bus.values)
    ensures ctrl.handed == HandedOver(Ctrl, old(ctrl.handed), EntryOf(o), bus.values)
  {
    HeldFacts(bus, sens, ctrl);
    hide *;
    success := SendSoundly(bus, sens, ctrl, o);
    StillWorking(bus, sens, ctrl);
  }

  /** Sends the order, and keeps all that a run keeps. */
  method SendSoundly(bus: Bus, sens: Link, ctrl: Link, o: Order) returns (success: bool)
    requires bus.Valid() && sens.Valid() && ctrl.Valid() && bus.order == o && InTable(o.bc)
    requires sens.slave.Sens? && ctrl.slave.Ctrl? && sens.phase.Idle? && ctrl.phase.Idle?
    requires Sound(bus.history, bus.values, bus.handlers, sens.handed, ctrl.handed, bus.told, sens.readings)
    requires Allowed(START, bus.history) && Run(START, bus.history).taken == [EntryOf(o)]
    requires o.num < |bus.values| == |bus.handlers| && o.handler == bus.handlers[o.num]
    requires sens.readings != [] && sens.sensors == sens.readings[|sens.readings| - 1]
    modifies bus, bus.nodes`next, o, sens, ctrl
    ensures bus.Valid() && sens.Valid() && ctrl.Valid() && sens.phase.Idle? && ctrl.phase.Idle?
    ensures Sound(bus.history, bus.values, bus.handlers, sens.handed, ctrl.handed, bus.told, sens.readings)
    ensures bus.order == null && bus.values == old(bus.values) && bus.handlers == old(bus.handlers)
    ensures bus.history == old(bus.history) + [Outcome(success)] && sens.readings == old(sens.readings)
    ensures o.bc.write || o.bc == Protocol.Entry(Sens, BBS_GET) ==> success
    ensures forall i | 0 <= i < |bus.nodes| :: bus.nodes[i] in old(bus.nodes) || bus.nodes[i] == o
    ensures sens.handed == HandedOver(Sens, old(sens.handed), EntryOf(o), bus.values)
    ensures ctrl.handed == HandedOver(Ctrl, old(ctrl.handed), EntryOf(o), bus.values)
  {
    hide *;
    ghost var history, values, handlers := bus.history, bus.values, bus.handlers;
    ghost var toSens, toCtrl, told := sens.handed, ctrl.handed, bus.told;
    success := SendToSlave(bus, sens, ctrl, o);
    ghost var call := if success && o.handler then [(o.bc, o.srcDst)] else [];
    SoundBySending(history, EntryOf(o), success, values, handlers, toSens, toCtrl, told, call, sens.readings);
  }

  lemma HandlersAreCounted(bus: Bus)
    requires bus.Valid()
    ensures |bus.values| == |bus.handlers|
  {
  }

  lemma SoundByMeasuring(history: seq<Step>, values: seq<seq<byte>>, handlers: seq<bool>, toSens: seq<Delivery>,
                         toCtrl: seq<Delivery>, told: Calls, readings: seq<seq<byte>>, r: seq<byte>)
    requires Sound(history, values, handlers, toSens, toCtrl, told, readings)
    ensures Sound(history, values, handlers, toSens, toCtrl, told, readings + [r])
  {
    KeptByMeasuring(history, values, toSens, toCtrl, told, readings, r);
    hide Kept;
    hide Told;
  }

  /** Any thread schedules an order. */
  method Schedules(bus: Bus, sens: Link, ctrl: Link, bc: BusCmd, msg: seq<byte>, handler: bool)
    requires Working(bus, sens, ctrl) && InTable(bc) && (bc.write ==> bc.len <= |msg|)
    modifies bus, bus.nodes
    ensures Working(bus, sens, ctrl) && bus.order == old(bus.order)
    ensures forall i | 0 <= i < |bus.nodes| :: bus.nodes[i] in old(bus.nodes) || fresh(bus.nodes[i])
    ensures bus.history == old(bus.history) + [Schedule(bc)]
    ensures |bus.values| == |old(bus.values)| + 1 && bus.values[..|old(bus.values)|] == old(bus.values)
    ensures bc.write ==> bus.values[|old(bus.values)|] == msg[..bc.len]
    ensures bus.handlers == old(bus.handlers) + [handler] && sens.readings == old(sens.readings)
  {
    ghost var history, values, handlers := bus.history, bus.values, bus.handlers;
    WorkingFacts(bus, sens, ctrl);
    HandlersAreCounted(bus);
    hide *;
    bus.BusSchedule(bc, msg, handler);
    SoundBySchedule(history, bc, values, bus.values, handlers, handler, sens.handed, ctrl.handed, bus.told,
                    sens.readings);
    StillWorking(bus, sens, ctrl);
  }

  lemma SoundBySchedule(history: seq<Step>, bc: BusCmd, values: seq<seq<byte>>, values': seq<seq<byte>>,
                        handlers: seq<bool>, handler: bool,
                        toSens: seq<Delivery>, toCtrl: seq<Delivery>, told: Calls, readings: seq<seq<byte>>)
    requires Sound(history, values, handlers, toSens, toCtrl, told, readings) && InTable(bc)
    requires |values| == |handlers| && |values'| == |values| + 1 && values'[..|values|] == values
    ensures Sound(history + [Schedule(bc)], values', handlers + [handler], toSens, toCtrl, told, readings)
  {
    hide Kept;
    hide Told;
    hide Run;
    assert (handlers + [handler])[..|handlers|] == handlers;
    AllowedBySound(history, values, handlers, toSens, toCtrl, told, readings);
    SoundByStep(history, Schedule(bc), values, values', handlers, handlers + [handler], toSens, toCtrl, told, readings);
  }

  lemma AllowedBySound(history: seq<Step>, values: seq<seq<byte>>, handlers: seq<bool>,
                       toSens: seq<Delivery>, toCtrl: seq<Delivery>, told: Calls, readings: seq<seq<byte>>)
    requires Sound(history, values, handlers, toSens, toCtrl, told, readings)
    ensures Allowed(START, history)
  {
  }

  /** The worker takes an order, if one waits. */
  method Takes(bus: Bus, sens: Link, ctrl: Link)
    requires Working(bus, sens, ctrl) && bus.order == null && !bus.quit
    modifies bus
    ensures Working(bus, sens, ctrl) && bus.values == old(bus.values) && bus.handlers == old(bus.handlers)
    ensures bus.history == old(bus.history) + [Take]
    ensures bus.order == null || bus.order in old(bus.nodes)
    ensures forall i | 0 <= i < |bus.nodes| :: bus.nodes[i] in old(bus.nodes)
  {
    ghost var history := bus.history;
    WorkingFacts(bus, sens, ctrl);
    assert Enabled(Run(START, history), Take);
    hide *;
    bus.WorkerTake();
    HandlersAreCounted(bus);
    Whole(bus.values);
    Whole(bus.handlers);
    SoundByStep(history, Take, bus.values, bus.values, bus.handlers, bus.handlers, sens.handed, ctrl.handed, bus.told,
                sens.readings);
    StillWorking(bus, sens, ctrl);
  }

  /** The worker is asked to stop. */
  method Stops(bus: Bus, sens: Link, ctrl: Link)
    requires Working(bus, sens, ctrl)
    modifies bus
    ensures Working(bus, sens, ctrl) && bus.values == old(bus.values) && bus.handlers == old(bus.handlers)
    ensures bus.order == old(bus.order) && bus.nodes == old(bus.nodes)
    ensures bus.history == old(bus.history) + [OrderSteps.Terminate]
  {
    ghost var history := bus.history;
    WorkingFacts(bus, sens, ctrl);
    assert Enabled(Run(START, history), OrderSteps.Terminate);
    hide *;
    bus.RequestTermination();
    HandlersAreCounted(bus);
    Whole(bus.values);
    Whole(bus.handlers);
    SoundByStep(history, OrderSteps.Terminate, bus.values, bus.values, bus.handlers, bus.handlers,
                sens.handed, ctrl.handed, bus.told, sens.readings);
    StillWorking(bus, sens, ctrl);
  }

  /** The sensor module has new data. */
  method Measures(bus: Bus, sens: Link, ctrl: Link, data: seq<byte>)
    requires Working(bus, sens, ctrl) && |data| == SENS_LEN
    modifies sens`sensors, sens`readings
    ensures Working(bus, sens, ctrl) && bus.values == old(bus.values)
    ensures sens.sensors == data && sens.readings == old(sens.readings) + [data]
  {
    hide Bus.Valid;
    hide Link.Valid;
    hide Sound;
    SoundByMeasuring(bus.history, bus.values, bus.handlers, sens.handed, ctrl.handed, bus.told, sens.readings, data);
    sens.Measure(data);
  }

  // ---------------------------------------------------------------------------
  // What the actions leave behind
  // ---------------------------------------------------------------------------

  /** What orders were scheduled with. */
  ghost predicate Posted(actions: seq<Action>, values: seq<seq<byte>>, handlers: seq<bool>) {
    if actions == [] then
      values == [] && handlers == []
    else
      var front, last := actions[..|actions| - 1], actions[|actions| - 1];
      if last.Post? then
        && values != [] && handlers != []
        && Posted(front, values[..|values| - 1], handlers[..|handlers| - 1])
        && (last.bc.write && last.bc.len <= |last.msg| ==> values[|values| - 1] == last.msg[..last.bc.len])
        && handlers[|handlers| - 1] == last.handler
      else
        Posted(front, values, handlers)
  }

  /** The locked section, if any, that an action runs. The worker takes an order if it holds none and has
      not quit, and sends the one it holds; a write and a GET are delivered. */
  ghost predicate Runs(a: Action, before: seq<Step>, after: seq<Step>)
    requires Allowed(START, before)
  {
    var s := Run(START, before);
    match a
    case Post(bc, _, _) => after == before + [Schedule(bc)]
    case TakeNext => after == if s.taken == [] && !s.quit then before + [Take] else before
    case SendIt =>
      if s.taken == [] then after == before
      else
        && after in {before + [Succeed], before + [Fail]}
        && (s.taken[0].cmd.write || s.taken[0].cmd == Protocol.Entry(Sens, BBS_GET) ==> after == before + [Succeed])
    case Measure(_) => after == before
    case Stop => after == before + [OrderSteps.Terminate]
  }

  /** The history is that of the actions, none left out. */
  ghost predicate Traced(actions: seq<Action>, history: seq<Step>) {
    if actions == [] then
      history == []
    else
      exists n: nat | n <= |history| ::
        && Traced(actions[..|actions| - 1], history[..n])
        && Allowed(START, history[..n]) && Runs(actions[|actions| - 1], history[..n], history)
  }

  ghost function Measured(actions: seq<Action>): seq<seq<byte>> {
    if actions == [] then []
    else
      var front, last := actions[..|actions| - 1], actions[|actions| - 1];
      Measured(front) + if last.Measure? then [last.data] else []
  }

  ghost predicate Recorded(actions: seq<Action>, history: seq<Step>, values: seq<seq<byte>>, handlers: seq<bool>,
                           readings: seq<seq<byte>>)
  {
    Traced(actions, history) && Posted(actions, values, handlers) && readings == [Zeros(SENS_LEN)] + Measured(actions)
  }

  lemma PostedGrows(actions: seq<Action>, a: Action, values: seq<seq<byte>>, handlers: seq<bool>,
                    values': seq<seq<byte>>, handlers': seq<bool>)
    requires Posted(actions, values, handlers)
    requires if a.Post? then
               && |values'| == |values| + 1 && values'[..|values|] == values
               && (a.bc.write ==> a.bc.len <= |a.msg| && values'[|values|] == a.msg[..a.bc.len])
               && handlers' == handlers + [a.handler]
             else values' == values && handlers' == handlers
    ensures Posted(actions + [a], values', handlers')
  {
    assert (actions + [a])[..|actions|] == actions;
    if a.Post? {
      assert handlers'[..|handlers|] == handlers;
    }
  }

  lemma TracedGrows(actions: seq<Action>, a: Action, history: seq<Step>, history': seq<Step>)
    requires Traced(actions, history) && Allowed(START, history) && Runs(a, history, history')
    ensures Traced(actions + [a], history')
  {
    assert (actions + [a])[..|actions|] == actions;
    assert |history| <= |history'| && history'[..|history|] == history;
    hide Allowed;
    hide Run;
  }

  /** What the bus and the sensors record. */
  datatype Record = Record(history: seq<Step>, values: seq<seq<byte>>, handlers: seq<bool>, readings: seq<seq<byte>>)

  ghost function RecordOf(bus: Bus, sens: Link): Record
    reads bus, sens
  {
    Record(bus.history, bus.values, bus.handlers, sens.readings)
  }

  /** What an action adds to the record. */
  ghost predicate Adds(a: Action, r: Record, r': Record) {
    && Allowed(START, r.history) && Runs(a, r.history, r'.history)
    && (if a.Post? then
          && |r'.values| == |r.values| + 1 && r'.values[..|r.values|] == r.values
          && (a.bc.write ==> a.bc.len <= |a.msg| && r'.values[|r.values|] == a.msg[..a.bc.len])
          && r'.handlers == r.handlers + [a.handler]
        else r'.values == r.values && r'.handlers == r.handlers)
    && r'.readings == if a.Measure? then r.readings + [a.data] else r.readings
  }

  lemma PostAdds(r: Record, r': Record, bc: BusCmd, msg: seq<byte>, handler: bool)
    requires Allowed(START, r.history) && r' == Record(r.history + [Schedule(bc)], r'.values, r'.handlers, r.readings)
    requires |r'.values| == |r.values| + 1 && r'.values[..|r.values|] == r.values
    requires bc.write ==> bc.len <= |msg| && r'.values[|r.values|] == msg[..bc.len]
    requires r'.handlers == r.handlers + [handler]
    ensures Adds(Post(bc, msg, handler), r, r')
  {
    hide Allowed;
    hide Run;
  }

  lemma TakeAdds(r: Record, r': Record)
    requires Allowed(START, r.history)
    requires var s := Run(START, r.history);
      r' == if s.taken == [] && !s.quit then r.(history := r.history + [Take]) else r
    ensures Adds(TakeNext, r, r')
  {
    hide Allowed;
    hide Run;
  }

  lemma SendAdds(r: Record, r': Record, success: bool)
    requires Allowed(START, r.history)
    requires var s := Run(START, r.history);
      if s.taken == [] then r' == r
      else
        && r' == r.(history := r.history + [Outcome(success)])
        && (s.taken[0].cmd.write || s.taken[0].cmd == Protocol.Entry(Sens, BBS_GET) ==> success)
    ensures Adds(SendIt, r, r')
  {
    hide Allowed;
    hide Run;
  }

  lemma MeasureAdds(r: Record, r': Record, data: seq<byte>)
    requires Allowed(START, r.history) && r' == r.(readings := r.readings + [data])
    ensures Adds(Measure(data), r, r')
  {
    hide Allowed;
    hide Run;
  }

  lemma StopAdds(r: Record, r': Record)
    requires Allowed(START, r.history) && r' == r.(history := r.history + [OrderSteps.Terminate])
    ensures Adds(Stop, r, r')
  {
    hide Allowed;
    hide Run;
  }

  lemma RecordedGrows(actions: seq<Action>, i: nat, r: Record, r': Record)
    requires i < |actions| && Recorded(actions[..i], r.history, r.values, r.handlers, r.readings)
    requires Adds(actions[i], r, r')
    ensures Recorded(actions[..i + 1], r'.history, r'.values, r'.handlers, r'.readings)
  {
    OneMore(actions, i);
    PostedGrows(actions[..i], actions[i], r.values, r.handlers, r'.values, r'.handlers);
    TracedGrows(actions[..i], actions[i], r.history, r'.history);
    assert (actions[..i] + [actions[i]])[..i] == actions[..i];
    hide Posted;
    hide Traced;
    hide Allowed;
    hide Run;
    hide Runs;
  }

  /** The orders of a command reach a slave in the order in which they were scheduled. */
  ghost predicate InOrder(history: seq<Step>) {
    && Allowed(START, history)
    && Increasing(WritesFor(Sens, Run(START, history).delivered))
    && Increasing(WritesFor(Ctrl, Run(START, history).delivered))
  }

  lemma AlwaysInOrder(history: seq<Step>)
    requires Allowed(START, history)
    ensures InOrder(history)
  {
    StartInv();
    RunKeepsInv(START, history);
    WritesStayIncreasing(Sens, Run(START, history).delivered);
    WritesStayIncreasing(Ctrl, Run(START, history).delivered);
  }

  lemma WorkingIsInOrder(bus: Bus, sens: Link, ctrl: Link)
    requires Working(bus, sens, ctrl)
    ensures InOrder(bus.history)
  {
    AlwaysInOrder(bus.history);
  }

  /** The record of the first i actions. */
  ghost predicate RecordedUpTo(actions: seq<Action>, i: nat, bus: Bus, sens: Link)
    requires i <= |actions|
    reads bus, sens
  {
    Recorded(actions[..i], bus.history, bus.values, bus.handlers, sens.readings)
  }

  lemma NoneRecorded(actions: seq<Action>, bus: Bus, sens: Link)
    requires Recorded([], bus.history, bus.values, bus.handlers, sens.readings)
    ensures RecordedUpTo(actions, 0, bus, sens)
  {
    assert actions[..0] == [];
  }

  lemma AllRecorded(actions: seq<Action>, bus: Bus, sens: Link)
    requires RecordedUpTo(actions, |actions|, bus, sens)
    ensures Recorded(actions, bus.history, bus.values, bus.handlers, sens.readings)
  {
    assert actions[..|actions|] == actions;
  }

  lemma StateShown(bus: Bus, sens: Link, ctrl: Link)
    requires Working(bus, sens, ctrl)
    ensures Allowed(START, bus.history)
    ensures Run(START, bus.history).quit == bus.quit
    ensures Run(START, bus.history).taken ==
      if bus.order == null then [] else [OrderSteps.Entry(bus.order.bc, bus.order.num)]
  {
  }

  /** Action i. What the worker is not ready for does not happen. */
  method Act(bus: Bus, sens: Link, ctrl: Link, actions: seq<Action>, i: nat)
    requires i < |actions| && Sensible(actions[i])
    requires Working(bus, sens, ctrl) && RecordedUpTo(actions, i, bus, sens)
    modifies bus, bus.nodes, if bus.order == null then {} else {bus.order}, sens, ctrl
    ensures Working(bus, sens, ctrl) && RecordedUpTo(actions, i + 1, bus, sens)
    ensures forall k | 0 <= k < |bus.nodes| ::
      bus.nodes[k] in old(bus.nodes) || fresh(bus.nodes[k]) || bus.nodes[k] == old(bus.order)
    ensures bus.order == null || bus.order == old(bus.order) || bus.order in old(bus.nodes)
  {
    ghost var r := RecordOf(bus, sens);
    Do(bus, sens, ctrl, actions[i]);
    RecordMore(actions, i, r, bus, sens);
  }

  lemma RecordMore(actions: seq<Action>, i: nat, r: Record, bus: Bus, sens: Link)
    requires i < |actions| && Recorded(actions[..i], r.history, r.values, r.handlers, r.readings)
    requires Adds(actions[i], r, RecordOf(bus, sens))
    ensures RecordedUpTo(actions, i + 1, bus, sens)
  {
    RecordedGrows(actions, i, r, RecordOf(bus, sens));
    hide Recorded;
    hide Adds;
  }

  /** One action. */
  method Do(bus: Bus, sens: Link, ctrl: Link, a: Action)
    requires Working(bus, sens, ctrl) && Sensible(a)
    modifies bus, bus.nodes, if bus.order == null then {} else {bus.order}, sens, ctrl
    ensures Working(bus, sens, ctrl) && Adds(a, old(RecordOf(bus, sens)), RecordOf(bus, sens))
    ensures forall k | 0 <= k < |bus.nodes| ::
      bus.nodes[k] in old(bus.nodes) || fresh(bus.nodes[k]) || bus.nodes[k] == old(bus.order)
    ensures bus.order == null || bus.order == old(bus.order) || bus.order in old(bus.nodes)
  {
    StateShown(bus, sens, ctrl);
    hide Working;
    hide InTable;
    hide Adds;
    hide Allowed;
    hide Run;
    ghost var r := RecordOf(bus, sens);
    match a {
      case Post(bc, msg, handler) =>
        Schedules(bus, sens, ctrl, bc, msg, handler);
        PostAdds(r, RecordOf(bus, sens), bc, msg, handler);
      case TakeNext =>
        if bus.order == null && !bus.quit {
          Takes(bus, sens, ctrl);
        }
        TakeAdds(r, RecordOf(bus, sens));
      case SendIt =>
        var success := false;
        if bus.order != null {
          success := Settle(bus, sens, ctrl, bus.order);
        }
        SendAdds(r, RecordOf(bus, sens), success);
      case Measure(data) =>
        Measures(bus, sens, ctrl, data);
        MeasureAdds(r, RecordOf(bus, sens), data);
      case Stop =>
        Stops(bus, sens, ctrl);
        StopAdds(r, RecordOf(bus, sens));
    }
  }

  method Begin(toSens: nat -> byte, toCtrl: nat -> byte) returns (bus: Bus, sens: Link, ctrl: Link)
    ensures fresh(bus) && fresh(sens) && fresh(ctrl) && bus.nodes == [] && bus.order == null
    ensures Working(bus, sens, ctrl) && Recorded([], bus.history, bus.values, bus.handlers, sens.readings)
  {
    bus := new Bus();
    sens := new Link(Sens, toSens);
    ctrl := new Link(Ctrl, toCtrl);
  }

  lemma OneMore(actions: seq<Action>, i: nat)
    requires i < |actions|
    ensures actions[..i] + [actions[i]] == actions[..i + 1]
  {
  }

  /** A write order that waits at index i when the history was `before`, and that no newer order of its
      command replaces, is handed to its slave, with its own data, by the (i+1)-th take from then on
      and the sending that follows it. */
  method HandsOverInTurn(bus: Bus, sens: Link, ctrl: Link, ghost before: seq<Step>, ghost steps: seq<Step>, ghost i: nat)
    requires Working(bus, sens, ctrl) && bus.order == null && !bus.quit
    requires bus.history == before + steps && Allowed(START, before) && i < |Run(START, before).queue|
    requires OrderSteps.Takes(steps) == i && Schedule(Run(START, before).queue[i].cmd) !in steps
    modifies bus, bus.nodes, sens, ctrl
    ensures Working(bus, sens, ctrl) && bus.order == null
    ensures var e := Run(START, before).queue[i];
      && (e.cmd.write ==> e.num < |bus.values|)
      && sens.handed == HandedOver(Sens, old(sens.handed), e, bus.values)
      && ctrl.handed == HandedOver(Ctrl, old(ctrl.handed), e, bus.values)
  {
    ghost var e := Run(START, before).queue[i];
    TakesInTurn(bus, sens, ctrl, before, steps, i);
    hide *;
    Takes(bus, sens, ctrl);
    HeldFacts(bus, sens, ctrl);
    var _ := Settle(bus, sens, ctrl, bus.order);
  }

  lemma TakesInTurn(bus: Bus, sens: Link, ctrl: Link, before: seq<Step>, steps: seq<Step>, i: nat)
    requires Working(bus, sens, ctrl) && bus.order == null && !bus.quit
    requires bus.history == before + steps && Allowed(START, before) && i < |Run(START, before).queue|
    requires OrderSteps.Takes(steps) == i && Schedule(Run(START, before).queue[i].cmd) !in steps
    ensures Allowed(START, before + steps + [Take])
    ensures Run(START, before + steps + [Take]).taken == [Run(START, before).queue[i]]
  {
    assert Allowed(START, before + steps) && Enabled(Run(START, before + steps), Take);
    hide Bus.Valid;
    hide Link.Valid;
    hide Sound;
    hide Run;
    hide Allowed;
    RunConcat(START, before, steps);
    OrderIsTaken(Run(START, before), steps, i);
    RunSnoc(START, before + steps, Take);
  }

  /** Every interleaving of scheduling threads, worker and world, from the start. At its end each slave
      has been handed exactly the write orders delivered to it, in order, each with the data it was
      scheduled with; and never, for one command, an older order after a newer one. The handlers of GET
      orders have been given readings of the sensors, and never an older one after a newer one. Every
      handler has been called exactly once for each of its orders that was delivered, in order. The
      history, data, handlers and readings are those of the actions, none left out. */
  method Operate(toSens: nat -> byte, toCtrl: nat -> byte, actions: seq<Action>)
    returns (bus: Bus, sens: Link, ctrl: Link)
    requires forall i | 0 <= i < |actions| :: Sensible(actions[i])
    ensures Working(bus, sens, ctrl) && InOrder(bus.history)
    ensures Recorded(actions, bus.history, bus.values, bus.handlers, sens.readings)
  {
    hide *;
    bus, sens, ctrl := Begin(toSens, toCtrl);
    NoneRecorded(actions, bus, sens);
    for i := 0 to |actions|
      invariant fresh(bus) && fresh(sens) && fresh(ctrl)
      invariant forall k | 0 <= k < |bus.nodes| :: fresh(bus.nodes[k])
      invariant bus.order == null || fresh(bus.order)
      invariant Working(bus, sens, ctrl) && RecordedUpTo(actions, i, bus, sens)
    {
      Act(bus, sens, ctrl, actions, i);
    }
    AllRecorded(actions, bus, sens);
    WorkingIsInOrder(bus, sens, ctrl);
  }
}
